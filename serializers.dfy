/** The user-side serializers (users/serializers.py): the payment link check,
    the two profile field sets, what registration hands to `create_user`, and
    the address normalisation `create_user` applies before saving. */
module Serializers {
  import opened Models
  import Validators

  /** The attributes a payment serializer validates; each may be missing. */
  datatype PaymentAttrs = PaymentAttrs(
    user: Option<UserId>,
    paidAt: Option<Time>,
    course: Option<CourseId>,
    lesson: Option<LessonId>,
    amountCents: Option<int>,
    paymentMethod: Option<string>)

  const PaymentLinkMessage: string :=
    "Нужно указать либо оплаченный курс, либо оплаченный урок (ровно одно из полей)."

  /** `PaymentSerializer.validate`: exactly one of course and lesson. A present
      related object is truthy, a missing one is None. */
  function ValidatePayment(attrs: PaymentAttrs): (r: Result<PaymentAttrs>)
    ensures r.Success? <==> (attrs.course.Some? != attrs.lesson.Some?)
    ensures r.Success? ==> r.value == attrs
    ensures r.Failure? ==> r.error == ValidationError(PaymentLinkMessage)
  {
    if (attrs.course.Some? && attrs.lesson.Some?) || (attrs.course.None? && attrs.lesson.None?) then
      Failure(ValidationError(PaymentLinkMessage))
    else
      Success(attrs)
  }

  /** `UserPublicSerializer.Meta.fields`. */
  const PublicProfileFields: seq<string> :=
    ["id", "email", "username", "phone", "city", "avatar", "first_name"]

  /** `UserSerializer.Meta.fields`. */
  const DetailedProfileFields: seq<string> :=
    ["id", "email", "username", "phone", "city", "avatar", "first_name", "last_name", "payments"]

  /** The public profile hides the last name and the payment history; the
      detailed one adds exactly those two. */
  lemma ProfileFieldSets()
    ensures "last_name" !in PublicProfileFields && "payments" !in PublicProfileFields
    ensures DetailedProfileFields == PublicProfileFields + ["last_name", "payments"]
    ensures forall f :: f in PublicProfileFields ==> f in DetailedProfileFields
  {
  }

  /** `UserRegistrationSerializer.Meta.fields`. */
  const RegistrationFields: seq<string> :=
    ["email", "password", "username", "phone", "city", "avatar", "first_name", "last_name"]

  /** The arguments of `User.objects.create_user`. */
  datatype CreateUserCall = CreateUserCall(password: string, fields: map<string, string>)

  /** `UserRegistrationSerializer.create`: the password is popped from the
      validated data and passed on its own, the rest as keyword arguments.
      The password field is required, so validated data always holds it. */
  function RegistrationCreate(validated: map<string, string>): (call: CreateUserCall)
    requires "password" in validated
    requires forall k :: k in validated ==> k in RegistrationFields
    ensures call.password == validated["password"]
    ensures "password" !in call.fields
    ensures forall k :: k != "password" ==> (k in call.fields <==> k in validated)
    ensures forall k :: k in call.fields ==> call.fields[k] == validated[k]
  {
    CreateUserCall(validated["password"], validated - {"password"})
  }

  /** Django's `BaseUserManager.normalize_email`, which `create_user` applies
      before saving: the domain part, after the last '@', is lowercased, and
      an address without '@' is kept as it is. */
  function NormalizeEmail(email: string): (r: string)
    ensures |r| == |email|
    ensures forall i :: 0 <= i < |email| ==> (r[i] == '@' <==> email[i] == '@')
  {
    if '@' !in email || email[|email| - 1] == '@' then email
    else NormalizeEmail(email[..|email| - 1]) + [Validators.LowerChar(email[|email| - 1])]
  }

  /** The local part is kept and the domain part lowercased. */
  lemma {:induction false} NormalizeEmailParts(local: string, domain: string)
    requires '@' !in domain
    ensures NormalizeEmail(local + "@" + domain) == local + "@" + Validators.Lower(domain)
  {
    var e := local + "@" + domain;
    assert e[|local|] == '@';
    if domain == [] {
      assert e[|e| - 1] == '@';
      assert Validators.Lower(domain) == [];
    } else {
      var n := |domain| - 1;
      assert e[..|e| - 1] == local + "@" + domain[..n];
      assert domain[n] in domain;
      assert '@' !in domain[..n] by {
        forall i | 0 <= i < n ensures domain[..n][i] != '@' {
          assert domain[i] in domain;
        }
      }
      NormalizeEmailParts(local, domain[..n]);
      assert Validators.Lower(domain) == Validators.Lower(domain[..n]) + [Validators.LowerChar(domain[n])];
    }
  }

  /** Normalising twice is normalising once. */
  lemma {:induction false} NormalizeEmailIdempotent(email: string)
    ensures NormalizeEmail(NormalizeEmail(email)) == NormalizeEmail(email)
  {
    var r := NormalizeEmail(email);
    if '@' in email && email[|email| - 1] != '@' {
      var n := |email| - 1;
      var p := email[..n];
      var x := Validators.LowerChar(email[n]);
      assert r == NormalizeEmail(p) + [x];
      var i :| 0 <= i < |email| && email[i] == '@';
      assert r[i] == '@';
      assert r[|r| - 1] == x && x != '@';
      assert r[..|r| - 1] == NormalizeEmail(p);
      NormalizeEmailIdempotent(p);
      assert Validators.LowerChar(x) == x;
    } else {
      assert r == email;
    }
  }
}
