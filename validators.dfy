/** The video link validator (lms/validators.py). The network location is
    taken from the URL with a simplified version of the standard library's
    URL splitting: an optional scheme (a letter, then letters, digits, '+',
    '-' or '.', then ':'), then "//" and everything up to the first '/', '?'
    or '#'. */
module Validators {
  import opened Models

  const AllowedHosts: set<string> := {"youtube.com", "www.youtube.com", "youtu.be"}

  const YoutubeMessage: string := "Разрешены только ссылки на Youtube (youtube.com / youtu.be)."

  // ---------------------------------------------------------------------------
  // Text helpers

  function LowerChar(c: char): char {
    if 'A' <= c <= 'Z' then (c as int + 32) as char else c
  }

  /** `str.lower()` on ASCII letters. */
  function Lower(s: string): (r: string)
    ensures |r| == |s|
    ensures forall i :: 0 <= i < |s| ==> r[i] == LowerChar(s[i])
  {
    seq(|s|, i requires 0 <= i < |s| => LowerChar(s[i]))
  }

  /** The index of the first character of `s` in `stops`, or |s| if none. */
  function FirstIndexOf(s: string, stops: set<char>): (r: nat)
    ensures r <= |s|
    ensures forall i :: 0 <= i < r ==> s[i] !in stops
    ensures r < |s| ==> s[r] in stops
  {
    if s == [] then 0
    else if s[0] in stops then 0
    else 1 + FirstIndexOf(s[1..], stops)
  }

  /** Everything before the first of the `stops`. */
  function UpTo(s: string, stops: set<char>): string {
    s[..FirstIndexOf(s, stops)]
  }

  predicate IsAsciiLetter(c: char) {
    ('a' <= c <= 'z') || ('A' <= c <= 'Z')
  }

  predicate IsSchemeChar(c: char) {
    IsAsciiLetter(c) || ('0' <= c <= '9') || c == '+' || c == '-' || c == '.'
  }

  // ---------------------------------------------------------------------------
  // URL splitting

  /** The URL with its scheme and ':' removed, when it has a scheme. */
  function AfterScheme(url: string): string {
    var i := FirstIndexOf(url, {':'});
    if 0 < i < |url| && IsAsciiLetter(url[0]) && (forall k :: 0 <= k < i ==> IsSchemeChar(url[k])) then
      url[i + 1..]
    else
      url
  }

  /** `urlparse(value).netloc`. */
  function Netloc(url: string): string {
    var rest := AfterScheme(url);
    if |rest| >= 2 && rest[..2] == "//" then UpTo(rest[2..], {'/', '?', '#'}) else ""
  }

  /** The host as the validator computes it: lowercased, cut at the first ':'. */
  function NormalisedHost(netloc: string): string {
    UpTo(Lower(netloc), {':'})
  }

  /** `validate_youtube_url`, as written. */
  function ValidateYoutubeUrl(value: string): (r: Result<string>)
    ensures value == "" ==> r == Success(value)
    ensures r.Success? ==> r.value == value
    ensures r.Failure? ==> r.error == ValidationError(YoutubeMessage)
  {
    if value == "" then Success(value)
    else if NormalisedHost(Netloc(value)) in AllowedHosts then Success(value)
    else Failure(ValidationError(YoutubeMessage))
  }

  lemma {:induction false} LowerIdempotent(s: string)
    ensures Lower(Lower(s)) == Lower(s)
  {
    assert forall i :: 0 <= i < |s| ==> LowerChar(LowerChar(s[i])) == LowerChar(s[i]);
  }

  /** Case does not matter: a network location and its lowercase copy give
      the same host. */
  lemma HostIgnoresCase(netloc: string)
    ensures NormalisedHost(Lower(netloc)) == NormalisedHost(netloc)
  {
    LowerIdempotent(netloc);
  }

  lemma {:induction false} FirstIndexOfAppend(s: string, t: string, stops: set<char>)
    requires forall i :: 0 <= i < |s| ==> s[i] !in stops
    ensures FirstIndexOf(s + t, stops) == |s| + FirstIndexOf(t, stops)
  {
    if s != [] {
      assert (s + t)[1..] == s[1..] + t;
      FirstIndexOfAppend(s[1..], t, stops);
    } else {
      assert s + t == t;
    }
  }

  /** A port, or anything after a ':', does not change the host. */
  lemma PortIgnored(host: string, port: string)
    requires ':' !in host
    ensures NormalisedHost(host + ":" + port) == NormalisedHost(host)
  {
    var lh := Lower(host);
    assert Lower(host + ":" + port) == lh + (":" + Lower(port));
    assert forall i :: 0 <= i < |lh| ==> lh[i] !in {':'} by {
      forall i | 0 <= i < |lh| ensures lh[i] != ':' {
        assert host[i] in host;
      }
    }
    FirstIndexOfAppend(lh, ":" + Lower(port), {':'});
    assert FirstIndexOf(lh, {':'}) == |lh|;
  }

  // ---------------------------------------------------------------------------
  // Links of the form scheme://host/path

  predicate NoneOf(s: string, stops: set<char>) {
    forall i :: 0 <= i < |s| ==> s[i] !in stops
  }

  lemma NoneOfAppend(s: string, t: string, stops: set<char>)
    requires NoneOf(s, stops) && NoneOf(t, stops)
    ensures NoneOf(s + t, stops)
  {
    forall i | 0 <= i < |s + t| ensures (s + t)[i] !in stops {
      if i >= |s| {
        assert (s + t)[i] == t[i - |s|];
      }
    }
  }

  /** The characters of a host name in its lowercase form. */
  predicate IsHostChar(c: char) {
    ('a' <= c <= 'z') || ('0' <= c <= '9') || c == '.' || c == '-'
  }

  /** A lowercase host name: no port, no user information, no path. */
  predicate PlainHost(h: string) {
    forall i :: 0 <= i < |h| ==> IsHostChar(h[i])
  }

  /** A scheme name: a letter followed by scheme characters. */
  predicate SchemeName(s: string) {
    s != [] && IsAsciiLetter(s[0]) && forall i :: 0 <= i < |s| ==> IsSchemeChar(s[i])
  }

  // The character classes of the literals the examples use.

  lemma HttpsIsScheme() ensures SchemeName("https") { }
  lemma WwwYoutubeIsPlain() ensures PlainHost("www.youtube.com") { }
  lemma YoutuBeIsPlain() ensures PlainHost("youtu.be") { }
  lemma VimeoIsPlain() ensures PlainHost("vimeo.com") { }
  lemma MobileYoutubeIsPlain() ensures PlainHost("m.youtube.com") { }
  lemma EvilIsPlain() ensures PlainHost("evil.com") { }

  /** A scheme is cut off at its ':'. */
  lemma AfterSchemeOf(scheme: string, rest: string)
    requires SchemeName(scheme)
    ensures AfterScheme(scheme + ":" + rest) == rest
  {
    var url := scheme + ":" + rest;
    assert NoneOf(scheme, {':'});
    assert url == scheme + (":" + rest);
    FirstIndexOfAppend(scheme, ":" + rest, {':'});
    assert FirstIndexOf(url, {':'}) == |scheme|;
    assert forall k :: 0 <= k < |scheme| ==> url[k] == scheme[k];
    assert url[|scheme| + 1..] == rest;
  }

  lemma UpToAppend(s: string, t: string, stops: set<char>)
    requires NoneOf(s, stops)
    requires t == [] || t[0] in stops
    ensures UpTo(s + t, stops) == s
  {
    FirstIndexOfAppend(s, t, stops);
    assert (s + t)[..|s|] == s;
  }

  /** For a link with a scheme, the network location is the text between
      "://" and the path, query or fragment. */
  lemma NetlocOfLink(scheme: string, netloc: string, tail: string)
    requires SchemeName(scheme)
    requires NoneOf(netloc, {'/', '?', '#'})
    requires tail == [] || tail[0] in {'/', '?', '#'}
    ensures Netloc(scheme + "://" + netloc + tail) == netloc
  {
    var rest := "//" + (netloc + tail);
    assert scheme + "://" + netloc + tail == scheme + ":" + rest;
    AfterSchemeOf(scheme, rest);
    assert rest[..2] == "//";
    assert rest[2..] == netloc + tail;
    UpToAppend(netloc, tail, {'/', '?', '#'});
  }

  /** A plain host is its own normal form, and holds none of the characters
      that end a network location or start user information. */
  lemma PlainHostUnchanged(host: string)
    requires PlainHost(host)
    ensures NormalisedHost(host) == host
    ensures NoneOf(host, {'/', '?', '#', ':', '@'})
  {
    assert Lower(host) == host;
    FirstIndexOfAppend(host, [], {':'});
    assert host + [] == host;
  }

  /** A link `scheme://host/...` with a plain host is accepted exactly when
      the host is on the list. */
  lemma LinkRule(scheme: string, host: string, tail: string)
    requires SchemeName(scheme) && PlainHost(host)
    requires tail == [] || tail[0] in {'/', '?', '#'}
    ensures ValidateYoutubeUrl(scheme + "://" + host + tail).Success? <==> host in AllowedHosts
  {
    PlainHostUnchanged(host);
    NetlocOfLink(scheme, host, tail);
  }

  // The examples below are written as concatenations of scheme, host and
  // path, which are the links "https://www.youtube.com/watch?v=X",
  // "https://youtu.be/X", "https://vimeo.com/X" and "https://m.youtube.com/X".

  lemma WatchLinkAccepted()
    ensures ValidateYoutubeUrl("https" + "://" + "www.youtube.com" + "/watch?v=X").Success?
  {
    HttpsIsScheme();
    WwwYoutubeIsPlain();
    LinkRule("https", "www.youtube.com", "/watch?v=X");
  }

  lemma ShortLinkAccepted()
    ensures ValidateYoutubeUrl("https" + "://" + "youtu.be" + "/X").Success?
  {
    HttpsIsScheme();
    YoutuBeIsPlain();
    LinkRule("https", "youtu.be", "/X");
  }

  lemma OtherHostRejected()
    ensures ValidateYoutubeUrl("https" + "://" + "vimeo.com" + "/X").Failure?
  {
    HttpsIsScheme();
    VimeoIsPlain();
    LinkRule("https", "vimeo.com", "/X");
  }

  /** Subdomains other than "www" are not on the list. */
  lemma MobileHostRejected()
    ensures ValidateYoutubeUrl("https" + "://" + "m.youtube.com" + "/X").Failure?
  {
    var h := "m.youtube.com";
    HttpsIsScheme();
    MobileYoutubeIsPlain();
    assert h !in AllowedHosts by {
      assert |h| != |"www.youtube.com"| && |h| != |"youtube.com"| && |h| != |"youtu.be"|;
    }
    LinkRule("https", h, "/X");
  }

  // ---------------------------------------------------------------------------
  // The user-information prefix

  /** The text after the last '@'. */
  function AfterLastAt(s: string): (r: string)
    ensures '@' !in r
    ensures '@' !in s ==> r == s
  {
    if s == [] then []
    else if s[|s| - 1] == '@' then []
    else AfterLastAt(s[..|s| - 1]) + [s[|s| - 1]]
  }

  /** The host a URL's network location designates (as the standard library's
      `hostname`): drop any "user:password@" prefix, lowercase, drop the port. */
  function Hostname(netloc: string): string {
    UpTo(Lower(AfterLastAt(netloc)), {':'})
  }

  /** The validator with the intended host: the one the link actually leads to. */
  function ValidateYoutubeUrlCorrected(value: string): (r: Result<string>)
    ensures value == "" ==> r == Success(value)
    ensures r.Success? ==> r.value == value
    ensures r.Failure? ==> r.error == ValidationError(YoutubeMessage)
  {
    if value == "" then Success(value)
    else if Hostname(Netloc(value)) in AllowedHosts then Success(value)
    else Failure(ValidationError(YoutubeMessage))
  }

  lemma {:induction false} AfterLastAtAppend(prefix: string, rest: string)
    requires '@' !in rest
    ensures AfterLastAt(prefix + "@" + rest) == rest
  {
    if rest == [] {
      assert prefix + "@" + rest == prefix + "@";
    } else {
      var s := prefix + "@" + rest;
      var n := |rest| - 1;
      assert s[..|s| - 1] == prefix + "@" + rest[..n];
      assert rest[n] in rest;
      assert '@' !in rest[..n] by {
        forall i | 0 <= i < n ensures rest[..n][i] != '@' {
          assert rest[..n][i] == rest[i];
          assert rest[i] in rest;
        }
      }
      AfterLastAtAppend(prefix, rest[..n]);
      assert rest[..n] + [rest[n]] == rest;
    }
  }

  /** Whatever the user information says, the corrected validator judges the
      host after it. */
  lemma CorrectedIgnoresUserinfo(userinfo: string, host: string)
    requires '@' !in host
    ensures Hostname(userinfo + "@" + host) == Hostname(host)
  {
    AfterLastAtAppend(userinfo, host);
    assert AfterLastAt(host) == host;
  }

  /** On links without user information both validators agree. */
  lemma CorrectedAgreesWithoutUserinfo(value: string)
    requires '@' !in Netloc(value)
    ensures ValidateYoutubeUrlCorrected(value) == ValidateYoutubeUrl(value)
  {
  }

  /** The network location of the bypass link "https://youtu.be:@evil.com/":
      user name "youtu.be", empty password, host "evil.com". */
  const BypassNetloc: string := "youtu.be:" + "@" + "evil.com"

  lemma BypassNetlocOfLink()
    ensures Netloc("https" + "://" + BypassNetloc + "/") == BypassNetloc
  {
    var stops := {'/', '?', '#'};
    HttpsIsScheme();
    YoutuBeIsPlain();
    EvilIsPlain();
    PlainHostUnchanged("youtu.be");
    PlainHostUnchanged("evil.com");
    assert NoneOf(":", stops) && NoneOf("@", stops);
    NoneOfAppend("youtu.be", ":", stops);
    NoneOfAppend("youtu.be" + ":", "@", stops);
    NoneOfAppend("youtu.be" + ":" + "@", "evil.com", stops);
    assert BypassNetloc == "youtu.be" + ":" + "@" + "evil.com";
    NetlocOfLink("https", BypassNetloc, "/");
  }

  /** The cut at the first ':' keeps the user name "youtu.be". */
  lemma BypassNormalisedHost()
    ensures NormalisedHost(BypassNetloc) == "youtu.be"
  {
    var user := "youtu.be";
    YoutuBeIsPlain();
    PlainHostUnchanged(user);
    assert ':' !in user by {
      forall i | 0 <= i < |user| ensures user[i] != ':' {
        assert user[i] !in {'/', '?', '#', ':', '@'};
      }
    }
    assert BypassNetloc == user + ":" + "@evil.com";
    PortIgnored(user, "@evil.com");
  }

  /** The validator as written accepts the bypass link. */
  lemma UserinfoBypass()
    ensures ValidateYoutubeUrl("https" + "://" + BypassNetloc + "/").Success?
  {
    BypassNetlocOfLink();
    BypassNormalisedHost();
  }

  /** The user information names no host ... */
  lemma BypassHostname()
    ensures Hostname(BypassNetloc) == "evil.com"
  {
    var host := "evil.com";
    EvilIsPlain();
    PlainHostUnchanged(host);
    assert '@' !in host by {
      forall i | 0 <= i < |host| ensures host[i] != '@' {
        assert host[i] !in {'/', '?', '#', ':', '@'};
      }
    }
    assert BypassNetloc == "youtu.be:" + "@" + host;
    CorrectedIgnoresUserinfo("youtu.be:", host);
    assert Hostname(host) == NormalisedHost(host);
  }

  /** ... so the link leads to evil.com ... */
  lemma BypassHost()
    ensures Hostname(Netloc("https" + "://" + BypassNetloc + "/")) == "evil.com"
  {
    BypassNetlocOfLink();
    BypassHostname();
  }

  /** ... which the corrected validator refuses. */
  lemma BypassRejectedWhenCorrected()
    ensures ValidateYoutubeUrlCorrected("https" + "://" + BypassNetloc + "/").Failure?
  {
    BypassHost();
  }
}
