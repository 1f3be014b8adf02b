/** The shared store as the endpoints and jobs change it: one object holding
    the five tables and the next primary key of each table that the core
    inserts into. Every operation keeps the integrity invariant of the
    tables (`Models.Valid`) and says its new state in terms of the value
    functions of the other modules. */
module Store {
  import opened Models
  import opened Permissions
  import opened Views
  import opened Tasks
  import opened Serializers

  /** Filtering keeps every key below the same bound. */
  lemma FilterKeepsBound<T(!new)>(s: seq<T>, keep: T -> bool, key: T -> int, n: int)
    requires KeysBelow(s, key, n)
    ensures KeysBelow(Filter(s, keep), key, n)
  {
    var r := Filter(s, keep);
    forall i | 0 <= i < |r| ensures key(r[i]) < n {
      assert r[i] in s;
    }
  }

  /** The cascade keeps every key below the counters it was below. */
  lemma DeleteCourseKeepsBounds(db: Db, id: CourseId, courses: nat, lessons: nat, subscriptions: nat)
    requires KeysBelow(db.courses, CoursePk, courses) && KeysBelow(db.lessons, LessonPk, lessons)
    requires KeysBelow(db.subscriptions, SubscriptionPk, subscriptions)
    ensures var r := DeleteCourse(db, id);
      && KeysBelow(r.courses, CoursePk, courses) && KeysBelow(r.lessons, LessonPk, lessons)
      && KeysBelow(r.subscriptions, SubscriptionPk, subscriptions) && r.users == db.users
  {
    FilterKeepsBound(db.courses, (c: Course) => c.id != id, CoursePk, courses);
    FilterKeepsBound(db.lessons, (l: Lesson) => l.course != id, LessonPk, lessons);
    FilterKeepsBound(db.subscriptions, (s: Subscription) => s.course != id, SubscriptionPk, subscriptions);
  }

  /** The toggle of an existing user's subscription to an existing course
      keeps the store valid, and the next key (moved on only by an insert)
      stays fresh. */
  lemma ToggleKeepsValid(db: Db, user: UserId, course: CourseId, newId: SubscriptionId, now: Time)
    requires Models.Valid(db) && KeysBelow(db.subscriptions, SubscriptionPk, newId)
    requires user in UserIds(db) && course in CourseIds(db)
    ensures var t := Toggle(db.subscriptions, user, course, newId, now);
      && Models.Valid(db.(subscriptions := t.subscriptions))
      && KeysBelow(t.subscriptions, SubscriptionPk, if t.message == SubscriptionAdded then newId + 1 else newId)
  {
    var t := Toggle(db.subscriptions, user, course, newId, now);
    ToggleKeepsTableValid(db.subscriptions, user, course, newId, now);
    ToggleFlipsPair(db.subscriptions, user, course, newId, now);
    var r := db.(subscriptions := t.subscriptions);
    assert UserIds(r) == UserIds(db) && CourseIds(r) == CourseIds(db);
    assert forall s :: s in t.subscriptions ==> s in db.subscriptions || SamePair(s, user, course);
    assert LinksResolve(r);
    if t.message == SubscriptionRemoved {
      assert forall s :: s in t.subscriptions ==> s in db.subscriptions;
    }
  }

  /** `serializers.ValidationError` raised by the unique email field. */
  const EmailTakenMessage: string := "user with this email already exists."

  /** A related course key that names no course. */
  const UnknownCourseMessage: string := "Invalid pk - object does not exist."

  class Database {
    var users: seq<User>
    var courses: seq<Course>
    var lessons: seq<Lesson>
    var subscriptions: seq<Subscription>
    var payments: seq<Payment>
    var nextUserId: nat
    var nextCourseId: nat
    var nextLessonId: nat
    var nextSubscriptionId: nat

    /** The tables as one value. */
    function State(): Db
      reads this
    {
      Db(users, courses, lessons, subscriptions, payments)
    }

    /** The tables are consistent and each counter is above its table's keys. */
    predicate Valid()
      reads this
    {
      && Models.Valid(State())
      && KeysBelow(users, UserPk, nextUserId)
      && KeysBelow(courses, CoursePk, nextCourseId)
      && KeysBelow(lessons, LessonPk, nextLessonId)
      && KeysBelow(subscriptions, SubscriptionPk, nextSubscriptionId)
    }

    /** A request made by an account that is in the user table. */
    predicate Known(who: Principal)
      reads this
    {
      who.Authenticated? ==> who.user in users
    }

    /** An empty store; keys start at 1. */
    constructor ()
      ensures Valid()
      ensures State() == Db([], [], [], [], [])
    {
      users := [];
      courses := [];
      lessons := [];
      subscriptions := [];
      payments := [];
      nextUserId := 1;
      nextCourseId := 1;
      nextLessonId := 1;
      nextSubscriptionId := 1;
    }

    // -------------------------------------------------------------------------
    // Registration

    /** `UserRegistrationSerializer` followed by `create_user`. The serializer's
        uniqueness check compares the address as submitted and refuses a
        taken one. `create_user` then stores the normalised address; when
        that one is taken, the database's unique constraint raises and the
        request fails with 500. Otherwise an active account with no groups,
        no staff rights and no login yet is added with the next key. */
    method Register(email: string, username: string) returns (r: Result<User>)
      requires Valid()
      modifies this
      ensures Valid()
      ensures (exists u :: u in old(users) && u.email == email) ==>
        r == Failure(ValidationError(EmailTakenMessage)) && unchanged(this)
      ensures ((forall u :: u in old(users) ==> u.email != email)
               && (exists u :: u in old(users) && u.email == NormalizeEmail(email))) ==>
        r == Failure(ServerError) && unchanged(this)
      ensures (forall u :: u in old(users) ==> u.email != email && u.email != NormalizeEmail(email)) ==>
        && r == Success(User(old(nextUserId), NormalizeEmail(email), username, false, false, true, {}, None))
        && users == old(users) + [r.value]
        && nextUserId == old(nextUserId) + 1
        && courses == old(courses) && lessons == old(lessons)
        && subscriptions == old(subscriptions) && payments == old(payments)
        && nextCourseId == old(nextCourseId) && nextLessonId == old(nextLessonId)
        && nextSubscriptionId == old(nextSubscriptionId)
    {
      if exists u :: u in users && u.email == email {
        return Failure(ValidationError(EmailTakenMessage));
      }
      var stored := NormalizeEmail(email);
      if exists u :: u in users && u.email == stored {
        return Failure(ServerError);
      }
      var account := User(nextUserId, stored, username, false, false, true, {}, None);
      AppendKeepsOrder(users, account, UserPk);
      ghost var before := State();
      users := users + [account];
      nextUserId := nextUserId + 1;
      assert UserIds(State()) == UserIds(before) + {account.id};
      assert CourseIds(State()) == CourseIds(before);
      r := Success(account);
    }

    // -------------------------------------------------------------------------
    // Creating courses and lessons

    /** `CourseViewSet.create`: the request-level rules of the create action,
        then a new course owned by the requester. */
    method CreateCourse(who: Principal, title: string, description: string) returns (r: Result<Course>)
      requires Valid() && Known(who)
      modifies this
      ensures Valid()
      ensures r.Success? <==> ViewAllows(CourseRules(CreateAction), who)
      ensures r.Failure? ==> r.error == Refusal(who) && unchanged(this)
      ensures r.Success? ==>
        && r.value == Course(old(nextCourseId), title, description, OwnerOf(who), None)
        && courses == old(courses) + [r.value]
        && nextCourseId == old(nextCourseId) + 1
        && users == old(users) && lessons == old(lessons)
        && subscriptions == old(subscriptions) && payments == old(payments)
        && nextUserId == old(nextUserId) && nextLessonId == old(nextLessonId)
        && nextSubscriptionId == old(nextSubscriptionId)
    {
      var gate := CollectionRequest(CourseRules(CreateAction), who);
      if gate.Failure? {
        return Failure(gate.error);
      }
      CourseCreateRule(who);
      var c := Course(nextCourseId, title, description, Some(who.user.id), None);
      AppendKeepsOrder(courses, c, CoursePk);
      ghost var before := State();
      courses := courses + [c];
      nextCourseId := nextCourseId + 1;
      assert UserIds(State()) == UserIds(before);
      assert CourseIds(State()) == CourseIds(before) + {c.id};
      r := Success(c);
    }

    /** `LessonListCreateAPIView.post`: the POST rules, then the course key
        must name a course, then a new lesson owned by the requester. */
    method CreateLesson(who: Principal, course: int, title: string, description: string, videoUrl: string)
      returns (r: Result<Lesson>)
      requires Valid() && Known(who)
      modifies this
      ensures Valid()
      ensures !ViewAllows(LessonListCreateRules(Post), who) ==> r == Failure(Refusal(who)) && unchanged(this)
      ensures ViewAllows(LessonListCreateRules(Post), who) && Find(old(courses), CoursePk, course).None? ==>
        r == Failure(ValidationError(UnknownCourseMessage)) && unchanged(this)
      ensures r.Success? <==>
        ViewAllows(LessonListCreateRules(Post), who) && Find(old(courses), CoursePk, course).Some?
      ensures r.Success? ==>
        && r.value == Lesson(old(nextLessonId), course as nat, title, description, videoUrl, OwnerOf(who))
        && lessons == old(lessons) + [r.value]
        && nextLessonId == old(nextLessonId) + 1
        && users == old(users) && courses == old(courses)
        && subscriptions == old(subscriptions) && payments == old(payments)
        && nextUserId == old(nextUserId) && nextCourseId == old(nextCourseId)
        && nextSubscriptionId == old(nextSubscriptionId)
    {
      var gate := CollectionRequest(LessonListCreateRules(Post), who);
      if gate.Failure? {
        return Failure(gate.error);
      }
      LessonListCreateRule(Post, who);
      var found := Find(courses, CoursePk, course);
      if found.None? {
        return Failure(ValidationError(UnknownCourseMessage));
      }
      assert found.value in courses;
      var l := Lesson(nextLessonId, found.value.id, title, description, videoUrl, Some(who.user.id));
      AppendKeepsOrder(lessons, l, LessonPk);
      ghost var before := State();
      lessons := lessons + [l];
      nextLessonId := nextLessonId + 1;
      assert UserIds(State()) == UserIds(before);
      assert CourseIds(State()) == CourseIds(before);
      r := Success(l);
    }

    // -------------------------------------------------------------------------
    // Deleting courses and lessons

    /** `CourseViewSet.destroy` with the corrected destroy rules: the detail
        request must succeed, then the course goes with everything that
        references it. */
    method DestroyCourse(who: Principal, id: CourseId) returns (r: Result<()>)
      requires Valid()
      modifies this
      ensures Valid()
      ensures var d := CourseDetail(CourseRulesCorrected(DestroyAction), who, old(courses), id);
        && (r.Success? <==> d.Success?)
        && (d.Failure? ==> r.error == d.error && unchanged(this))
      ensures r.Success? ==>
        && State() == DeleteCourse(old(State()), id)
        && nextUserId == old(nextUserId) && nextCourseId == old(nextCourseId)
        && nextLessonId == old(nextLessonId) && nextSubscriptionId == old(nextSubscriptionId)
    {
      var d := CourseDetail(CourseRulesCorrected(DestroyAction), who, courses, id);
      if d.Failure? {
        return Failure(d.error);
      }
      var before := State();
      DeleteCourseKeepsValid(before, id);
      DeleteCourseKeepsBounds(before, id, nextCourseId, nextLessonId, nextSubscriptionId);
      Replace(DeleteCourse(before, id));
      r := Success(());
    }

    /** `LessonRetrieveUpdateDestroyAPIView.delete`: the detail request must
        succeed, then the lesson row goes (nothing references a lesson). */
    method DestroyLesson(who: Principal, id: LessonId) returns (r: Result<()>)
      requires Valid()
      modifies this
      ensures Valid()
      ensures var d := LessonDetail(who, old(lessons), id);
        && (r.Success? <==> d.Success?)
        && (d.Failure? ==> r.error == d.error && unchanged(this))
      ensures r.Success? ==>
        && (forall l :: l in lessons <==> l in old(lessons) && l.id != id)
        && users == old(users) && courses == old(courses)
        && subscriptions == old(subscriptions) && payments == old(payments)
        && nextUserId == old(nextUserId) && nextCourseId == old(nextCourseId)
        && nextLessonId == old(nextLessonId) && nextSubscriptionId == old(nextSubscriptionId)
    {
      var d := LessonDetail(who, lessons, id);
      if d.Failure? {
        return Failure(d.error);
      }
      var keep := (l: Lesson) => l.id != id;
      FilterKeepsOrder(lessons, keep, LessonPk);
      FilterKeepsBound(lessons, keep, LessonPk, nextLessonId);
      ghost var before := State();
      lessons := Filter(lessons, keep);
      assert UserIds(State()) == UserIds(before);
      assert CourseIds(State()) == CourseIds(before);
      r := Success(());
    }

    /** Puts a whole new set of tables in place, keeping the counters. */
    method Replace(db: Db)
      requires Models.Valid(db)
      requires KeysBelow(db.users, UserPk, nextUserId) && KeysBelow(db.courses, CoursePk, nextCourseId)
      requires KeysBelow(db.lessons, LessonPk, nextLessonId) && KeysBelow(db.subscriptions, SubscriptionPk, nextSubscriptionId)
      modifies this
      ensures Valid() && State() == db
      ensures nextUserId == old(nextUserId) && nextCourseId == old(nextCourseId)
      ensures nextLessonId == old(nextLessonId) && nextSubscriptionId == old(nextSubscriptionId)
    {
      users := db.users;
      courses := db.courses;
      lessons := db.lessons;
      subscriptions := db.subscriptions;
      payments := db.payments;
    }

    // -------------------------------------------------------------------------
    // Subscription toggle

    /** `CourseSubscriptionAPIView.post`: 401 for the anonymous user, 404 for
        a key that names no course, otherwise the toggle of the requester's
        subscription with the next key and the current time. */
    method ToggleSubscription(who: Principal, course: CourseId, now: Time) returns (r: Result<ToggleMessage>)
      requires Valid() && Known(who)
      modifies this
      ensures Valid()
      ensures who.Anonymous? ==> r == Failure(NotAuthenticated) && unchanged(this)
      ensures who.Authenticated? && Find(old(courses), CoursePk, course).None? ==>
        r == Failure(NotFound) && unchanged(this)
      ensures who.Authenticated? && Find(old(courses), CoursePk, course).Some? ==>
        var t := Toggle(old(subscriptions), who.user.id, course, old(nextSubscriptionId), now);
        && r == Success(t.message)
        && subscriptions == t.subscriptions
        && nextSubscriptionId == old(nextSubscriptionId) + (if t.message == SubscriptionAdded then 1 else 0)
        && users == old(users) && courses == old(courses)
        && lessons == old(lessons) && payments == old(payments)
        && nextUserId == old(nextUserId) && nextCourseId == old(nextCourseId)
        && nextLessonId == old(nextLessonId)
    {
      var gate := CollectionRequest([IsAuthenticated], who);
      if gate.Failure? {
        return Failure(gate.error);
      }
      assert ViewCheck([IsAuthenticated][0], who);
      var found := Find(courses, CoursePk, course);
      if found.None? {
        return Failure(NotFound);
      }
      var c := found.value;
      var t := Toggle(subscriptions, who.user.id, c.id, nextSubscriptionId, now);
      assert who.user.id in UserIds(State());
      ToggleKeepsValid(State(), who.user.id, c.id, nextSubscriptionId, now);
      var next := if t.message == SubscriptionAdded then nextSubscriptionId + 1 else nextSubscriptionId;
      subscriptions := t.subscriptions;
      nextSubscriptionId := next;
      r := Success(t.message);
    }

    // -------------------------------------------------------------------------
    // Notification jobs

    /** `send_course_update_email_task` at time `now`: who is mailed, and
        the course stamped when anybody is. */
    method SendCourseUpdateEmail(course: CourseId, now: Time) returns (sent: nat, notified: seq<string>)
      requires Valid()
      modifies this
      ensures Valid()
      ensures var n := NotifyCourse(old(State()), course, now);
        State() == n.db && notified == n.notified
      ensures sent == |notified|
      ensures nextUserId == old(nextUserId) && nextCourseId == old(nextCourseId)
      ensures nextLessonId == old(nextLessonId) && nextSubscriptionId == old(nextSubscriptionId)
    {
      sent, notified := Notify(course, now);
    }

    /** `send_lesson_update_email_if_needed_task`: the same job for the
        course of a lesson; nothing for a key that names no lesson. */
    method SendLessonUpdateEmailIfNeeded(lesson: LessonId, now: Time) returns (sent: nat, notified: seq<string>)
      requires Valid()
      modifies this
      ensures Valid()
      ensures var n := NotifyForLesson(old(State()), lesson, now);
        State() == n.db && notified == n.notified
      ensures sent == |notified|
      ensures nextUserId == old(nextUserId) && nextCourseId == old(nextCourseId)
      ensures nextLessonId == old(nextLessonId) && nextSubscriptionId == old(nextSubscriptionId)
    {
      var found := Find(lessons, LessonPk, lesson);
      if found.None? {
        return 0, [];
      }
      sent, notified := Notify(found.value.course, now);
    }

    /** The body both jobs share once the course key is known. */
    method Notify(course: CourseId, now: Time) returns (sent: nat, notified: seq<string>)
      requires Valid()
      modifies this
      ensures Valid()
      ensures var n := NotifyCourse(old(State()), course, now);
        State() == n.db && notified == n.notified
      ensures sent == |notified|
      ensures nextUserId == old(nextUserId) && nextCourseId == old(nextCourseId)
      ensures nextLessonId == old(nextLessonId) && nextSubscriptionId == old(nextSubscriptionId)
    {
      var found := Find(courses, CoursePk, course);
      if found.None? {
        return 0, [];
      }
      var c := found.value;
      if Throttled(c.lastNotificationSentAt, now) {
        return 0, [];
      }
      var recipients := Recipients(subscriptions, users, course);
      if recipients == [] {
        return 0, [];
      }
      StampCourseKeepsValid(State(), course, now);
      var stamped := StampCourse(courses, course, now);
      assert KeysBelow(stamped, CoursePk, nextCourseId) by {
        forall i | 0 <= i < |stamped| ensures stamped[i].id < nextCourseId {
          assert stamped[i].id == courses[i].id;
        }
      }
      courses := stamped;
      sent, notified := |recipients|, recipients;
    }

    // -------------------------------------------------------------------------
    // Inactivity sweep

    /** `deactivate_inactive_users_task` at time `now`: every active user
        whose last login is more than 30 days old loses the active flag, one
        row at a time; the result is the number of rows changed. */
    method DeactivateInactiveUsers(now: Time) returns (updated: nat)
      requires Valid()
      modifies this
      ensures Valid()
      ensures users == SweepUsers(old(users), now)
      ensures updated == CountStale(old(users), now)
      ensures updated == CountChanged(old(users), users)
      ensures courses == old(courses) && lessons == old(lessons)
      ensures subscriptions == old(subscriptions) && payments == old(payments)
      ensures nextUserId == old(nextUserId) && nextCourseId == old(nextCourseId)
      ensures nextLessonId == old(nextLessonId) && nextSubscriptionId == old(nextSubscriptionId)
    {
      ghost var before := users;
      var i := 0;
      updated := 0;
      while i < |users|
        invariant 0 <= i <= |users| == |before|
        invariant forall k :: 0 <= k < i ==> users[k] == Deactivated(before[k], now)
        invariant forall k :: i <= k < |users| ==> users[k] == before[k]
        invariant updated == CountStale(before[..i], now)
        invariant courses == old(courses) && lessons == old(lessons)
        invariant subscriptions == old(subscriptions) && payments == old(payments)
        invariant nextUserId == old(nextUserId) && nextCourseId == old(nextCourseId)
        invariant nextLessonId == old(nextLessonId) && nextSubscriptionId == old(nextSubscriptionId)
      {
        assert before[..i + 1][..i] == before[..i];
        if Stale(users[i], now) {
          users := users[i := Deactivated(users[i], now)];
          updated := updated + 1;
        }
        i := i + 1;
      }
      assert before[..i] == before;
      assert users == SweepUsers(before, now);
      SweepCountIsChanged(before, now);
      SweepKeepsValid(old(State()), now);
      assert KeysBelow(users, UserPk, nextUserId) by {
        forall k | 0 <= k < |users| ensures users[k].id < nextUserId {
          assert users[k].id == before[k].id;
        }
      }
    }
  }
}
