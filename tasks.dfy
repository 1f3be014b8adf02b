/** The background jobs (lms/tasks.py, users/tasks.py): the per-course
    notification throttle with its recipient list, and the inactivity sweep.
    Each job is given `now`; sending mail is reduced to the list of addresses
    that would be notified. */
module Tasks {
  import opened Models

  /** `timedelta(hours=4)`, in seconds. */
  const ThrottleWindow: int := 14400

  /** `timedelta(days=30)`, in seconds. */
  const InactivityWindow: int := 2592000

  // ---------------------------------------------------------------------------
  // Notification throttle

  /** `last_sent and now - last_sent < timedelta(hours=4)`. */
  predicate Throttled(lastSent: Option<Time>, now: Time) {
    lastSent.Some? && now - lastSent.value < ThrottleWindow
  }

  lemma ThrottleBoundary(t: Time, now: Time)
    ensures !Throttled(None, now)
    ensures Throttled(Some(t), now) <==> now < t + 14400
    ensures !Throttled(Some(t), t + 14400) && Throttled(Some(t), t + 14399) && Throttled(Some(t), t)
  {
  }

  /** `[s.user.email for s in subscriptions if s.user.email]` over the
      subscriptions of one course, in table order. */
  function Recipients(subs: seq<Subscription>, users: seq<User>, course: CourseId): seq<string> {
    if subs == [] then []
    else
      var rest := Recipients(subs[1..], users, course);
      if subs[0].course != course then rest
      else match Find(users, UserPk, subs[0].user)
        case None => rest
        case Some(u) => if u.email != "" then [u.email] + rest else rest
  }

  /** A user subscribed to the course has address `e`. */
  predicate SubscriberAddress(subs: seq<Subscription>, users: seq<User>, course: CourseId, e: string) {
    exists s, u :: s in subs && u in users && s.course == course && s.user == u.id && u.email == e
  }

  /** The recipients are exactly the non-empty addresses of the course's subscribers. */
  lemma {:induction false} RecipientsExact(subs: seq<Subscription>, users: seq<User>, course: CourseId, e: string)
    requires StrictlyIncreasing(users, UserPk)
    ensures e in Recipients(subs, users, course) <==> e != "" && SubscriberAddress(subs, users, course, e)
  {
    if subs != [] {
      var rest := Recipients(subs[1..], users, course);
      RecipientsExact(subs[1..], users, course, e);
      if SubscriberAddress(subs[1..], users, course, e) {
        var s, u :| s in subs[1..] && u in users && s.course == course && s.user == u.id && u.email == e;
        assert s in subs;
      }
      if e != "" && SubscriberAddress(subs, users, course, e) {
        var s, u :| s in subs && u in users && s.course == course && s.user == u.id && u.email == e;
        if s == subs[0] {
          FindUnique(users, UserPk, u);
        } else {
          assert s in subs[1..];
        }
      }
    }
  }

  predicate NoDuplicates(s: seq<string>) {
    forall i, j :: 0 <= i < j < |s| ==> s[i] != s[j]
  }

  lemma ConsDistinct(x: string, rest: seq<string>)
    requires NoDuplicates(rest) && x !in rest
    ensures NoDuplicates([x] + rest)
  {
    var r := [x] + rest;
    forall i, j | 0 <= i < j < |r| ensures r[i] != r[j] {
      assert r[j] == rest[j - 1];
      if i > 0 {
        assert r[i] == rest[i - 1];
      }
    }
  }

  /** The head subscription's address does not come back later in the list. */
  lemma HeadAddressNotRepeated(subs: seq<Subscription>, users: seq<User>, course: CourseId, u: User)
    requires StrictlyIncreasing(users, UserPk) && EmailsUnique(users)
    requires StrictlyIncreasing(subs, SubscriptionPk) && PairsUnique(subs)
    requires subs != [] && subs[0].course == course && u in users && u.id == subs[0].user
    ensures u.email !in Recipients(subs[1..], users, course)
  {
    var tail := subs[1..];
    RecipientsExact(tail, users, course, u.email);
  }

  /** With unique addresses and one subscription per pair, nobody is mailed twice. */
  lemma {:induction false} RecipientsDistinct(subs: seq<Subscription>, users: seq<User>, course: CourseId)
    requires StrictlyIncreasing(users, UserPk) && EmailsUnique(users)
    requires StrictlyIncreasing(subs, SubscriptionPk) && PairsUnique(subs)
    ensures NoDuplicates(Recipients(subs, users, course))
  {
    if subs != [] {
      var tail := subs[1..];
      assert StrictlyIncreasing(tail, SubscriptionPk) by {
        forall i, j | 0 <= i < j < |tail| ensures tail[i].id < tail[j].id {
          assert tail[i] == subs[i + 1] && tail[j] == subs[j + 1];
        }
      }
      RecipientsDistinct(tail, users, course);
      var f := Find(users, UserPk, subs[0].user);
      if subs[0].course == course && f.Some? && f.value.email != "" {
        HeadAddressNotRepeated(subs, users, course, f.value);
        ConsDistinct(f.value.email, Recipients(tail, users, course));
      }
    }
  }

  /** The course table with one course stamped as notified at `now`. */
  function StampCourse(courses: seq<Course>, id: CourseId, now: Time): (r: seq<Course>)
    ensures |r| == |courses|
    ensures forall i :: 0 <= i < |r| ==> r[i].id == courses[i].id && r[i].owner == courses[i].owner
  {
    seq(|courses|, i requires 0 <= i < |courses| =>
      if courses[i].id == id then courses[i].(lastNotificationSentAt := Some(now)) else courses[i])
  }

  datatype Notification = Notification(db: Db, notified: seq<string>)

  /** `send_course_update_email_task`: the store afterwards and who is mailed. */
  function NotifyCourse(db: Db, id: CourseId, now: Time): Notification {
    match Find(db.courses, CoursePk, id)
    case None => Notification(db, [])
    case Some(c) =>
      if Throttled(c.lastNotificationSentAt, now) then Notification(db, [])
      else
        var rs := Recipients(db.subscriptions, db.users, id);
        if rs == [] then Notification(db, [])
        else Notification(db.(courses := StampCourse(db.courses, id, now)), rs)
  }

  /** `send_lesson_update_email_if_needed_task`: the same, for the lesson's course. */
  function NotifyForLesson(db: Db, id: LessonId, now: Time): Notification {
    match Find(db.lessons, LessonPk, id)
    case None => Notification(db, [])
    case Some(l) => NotifyCourse(db, l.course, now)
  }

  lemma StampCourseKeepsValid(db: Db, id: CourseId, now: Time)
    requires Valid(db)
    ensures Valid(db.(courses := StampCourse(db.courses, id, now)))
    ensures CourseIds(db.(courses := StampCourse(db.courses, id, now))) == CourseIds(db)
  {
    var r := db.(courses := StampCourse(db.courses, id, now));
    forall x | x in CourseIds(db) ensures x in CourseIds(r) {
      var c :| c in db.courses && c.id == x;
      var i :| 0 <= i < |db.courses| && db.courses[i] == c;
      assert r.courses[i] in r.courses;
    }
    forall x | x in CourseIds(r) ensures x in CourseIds(db) {
      var c :| c in r.courses && c.id == x;
      var i :| 0 <= i < |r.courses| && r.courses[i] == c;
      assert db.courses[i] in db.courses;
    }
    forall c | c in r.courses && c.owner.Some? ensures c.owner.value in UserIds(r) {
      var i :| 0 <= i < |r.courses| && r.courses[i] == c;
      assert db.courses[i] in db.courses;
    }
  }

  /** Stamping marks the one course and no other. */
  lemma StampCourseEffect(courses: seq<Course>, id: CourseId, now: Time, c: Course)
    requires StrictlyIncreasing(courses, CoursePk) && c in courses
    ensures Find(StampCourse(courses, id, now), CoursePk, c.id) ==
      Some(if c.id == id then c.(lastNotificationSentAt := Some(now)) else c)
  {
    var r := StampCourse(courses, id, now);
    var i :| 0 <= i < |courses| && courses[i] == c;
    assert StrictlyIncreasing(r, CoursePk);
    FindUnique(r, CoursePk, r[i]);
  }

  /** The throttle rule, case by case, for a course that exists. */
  lemma NotifyCourseRule(db: Db, c: Course, now: Time)
    requires Valid(db) && c in db.courses
    ensures var n := NotifyCourse(db, c.id, now);
      var rs := Recipients(db.subscriptions, db.users, c.id);
      && (Throttled(c.lastNotificationSentAt, now) ==> n == Notification(db, []))
      && (!Throttled(c.lastNotificationSentAt, now) && rs == [] ==> n == Notification(db, []))
      && (!Throttled(c.lastNotificationSentAt, now) && rs != [] ==>
            n.notified == rs && n.db == db.(courses := StampCourse(db.courses, c.id, now)))
      && Valid(n.db)
  {
    FindUnique(db.courses, CoursePk, c);
    StampCourseKeepsValid(db, c.id, now);
  }

  lemma NotifyMissingCourse(db: Db, id: CourseId, now: Time)
    requires forall c :: c in db.courses ==> c.id != id
    ensures NotifyCourse(db, id, now) == Notification(db, [])
  {
  }

  /** After a send, another attempt less than four hours later sends nothing
      and changes nothing; one four hours later or more sends to the same list. */
  lemma NotifyAgain(db: Db, c: Course, now: Time, later: Time)
    requires Valid(db) && c in db.courses
    requires NotifyCourse(db, c.id, now).notified != []
    ensures var n := NotifyCourse(db, c.id, now);
      && (later - now < ThrottleWindow ==> NotifyCourse(n.db, c.id, later) == Notification(n.db, []))
      && (later - now >= ThrottleWindow ==> NotifyCourse(n.db, c.id, later).notified == n.notified)
  {
    var n := NotifyCourse(db, c.id, now);
    NotifyCourseRule(db, c, now);
    StampCourseEffect(db.courses, c.id, now, c);
  }

  lemma NotifyForLessonRule(db: Db, l: Lesson, now: Time)
    requires StrictlyIncreasing(db.lessons, LessonPk) && l in db.lessons
    ensures NotifyForLesson(db, l.id, now) == NotifyCourse(db, l.course, now)
  {
    FindUnique(db.lessons, LessonPk, l);
  }

  lemma NotifyForMissingLesson(db: Db, id: LessonId, now: Time)
    requires forall l :: l in db.lessons ==> l.id != id
    ensures NotifyForLesson(db, id, now) == Notification(db, [])
  {
  }

  // ---------------------------------------------------------------------------
  // Inactivity sweep

  /** `is_active=True, last_login__lt=now - timedelta(days=30)`; an empty
      last login never matches. */
  predicate Stale(u: User, now: Time) {
    u.isActive && u.lastLogin.Some? && u.lastLogin.value < now - InactivityWindow
  }

  function Deactivated(u: User, now: Time): User {
    if Stale(u, now) then u.(isActive := false) else u
  }

  /** The user table after `qs.update(is_active=False)`. */
  function SweepUsers(users: seq<User>, now: Time): (r: seq<User>)
    ensures |r| == |users|
  {
    seq(|users|, i requires 0 <= i < |users| => Deactivated(users[i], now))
  }

  /** How many users the filter matches. */
  function CountStale(users: seq<User>, now: Time): nat {
    if users == [] then 0
    else CountStale(users[..|users| - 1], now) + (if Stale(users[|users| - 1], now) then 1 else 0)
  }

  /** How many rows differ between two versions of a table. */
  function CountChanged(before: seq<User>, after: seq<User>): nat
    requires |before| == |after|
  {
    if before == [] then 0
    else
      var n := |before| - 1;
      CountChanged(before[..n], after[..n]) + (if before[n] != after[n] then 1 else 0)
  }

  /** Exactly the stale users lose their active flag; nothing else changes. */
  lemma SweepEffect(users: seq<User>, now: Time)
    ensures var r := SweepUsers(users, now);
      forall i :: 0 <= i < |users| ==>
        && r[i].isActive == (users[i].isActive && !Stale(users[i], now))
        && r[i] == users[i].(isActive := r[i].isActive)
        && (users[i].lastLogin.None? ==> r[i] == users[i])
        && (users[i].lastLogin == Some(now - 2592000) ==> r[i] == users[i])
        && (!users[i].isActive ==> r[i] == users[i])
  {
  }

  /** The count returned is the number of rows whose flag flipped. */
  lemma {:induction false} SweepCountIsChanged(users: seq<User>, now: Time)
    ensures CountStale(users, now) == CountChanged(users, SweepUsers(users, now))
  {
    if users != [] {
      var n := |users| - 1;
      var r := SweepUsers(users, now);
      assert r[..n] == SweepUsers(users[..n], now);
      SweepCountIsChanged(users[..n], now);
      assert (r[n] != users[n]) == Stale(users[n], now);
    }
  }

  lemma {:induction false} NoStaleAfterSweep(users: seq<User>, now: Time)
    ensures CountStale(SweepUsers(users, now), now) == 0
  {
    if users != [] {
      var n := |users| - 1;
      var r := SweepUsers(users, now);
      assert r[..n] == SweepUsers(users[..n], now);
      NoStaleAfterSweep(users[..n], now);
    }
  }

  /** Sweeping again at the same time finds nobody and changes nothing. */
  lemma SweepIdempotent(users: seq<User>, now: Time)
    ensures SweepUsers(SweepUsers(users, now), now) == SweepUsers(users, now)
    ensures CountStale(SweepUsers(users, now), now) == 0
  {
    NoStaleAfterSweep(users, now);
  }

  lemma SweepKeepsValid(db: Db, now: Time)
    requires Valid(db)
    ensures Valid(db.(users := SweepUsers(db.users, now)))
    ensures UserIds(db.(users := SweepUsers(db.users, now))) == UserIds(db)
  {
    UsersRelabelled(db, SweepUsers(db.users, now));
  }
}
