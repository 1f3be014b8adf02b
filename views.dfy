/** The course and lesson endpoints (lms/views.py): which permission classes
    each action runs, which rows each user may see, how a detail request is
    answered, and the subscription toggle. */
module Views {
  import opened Models
  import opened Permissions

  // ---------------------------------------------------------------------------
  // Rule tables

  /** The actions of CourseViewSet; `OtherAction` stands for any action name
      the table does not list. */
  datatype CourseAction =
    | ListAction
    | CreateAction
    | RetrieveAction
    | UpdateAction
    | PartialUpdateAction
    | DestroyAction
    | OtherAction(name: string)

  /** `CourseViewSet.get_permissions`, as written. */
  function CourseRules(a: CourseAction): seq<Permission> {
    match a
    case CreateAction => [IsAuthenticated, Not(IsModer)]
    case ListAction => [IsAuthenticated, Or(IsModer, IsOwner)]
    case RetrieveAction => [IsAuthenticated, Or(IsModer, IsOwner)]
    case UpdateAction => [IsAuthenticated, Or(IsModer, IsOwner)]
    case PartialUpdateAction => [IsAuthenticated, Or(IsModer, IsOwner)]
    case DestroyAction => [IsAuthenticated, Not(IsModer), IsOwner]
    case OtherAction(_) => [IsAuthenticated]
  }

  /** The same table with the destroy rule written so that "not a moderator"
      is checked on the request only, as the table evidently intends. */
  function CourseRulesCorrected(a: CourseAction): (rules: seq<Permission>)
    ensures a != DestroyAction ==> rules == CourseRules(a)
  {
    if a == DestroyAction then [IsAuthenticated, IsNotModer, IsOwner] else CourseRules(a)
  }

  /** The rest of the read and write actions. */
  predicate IsReadOrUpdate(a: CourseAction) {
    a == ListAction || a == RetrieveAction || a == UpdateAction || a == PartialUpdateAction
  }

  function OwnerOf(who: Principal): Option<UserId> {
    if who.Authenticated? then Some(who.user.id) else None
  }

  lemma CourseCreateRule(who: Principal)
    ensures ViewAllows(CourseRules(CreateAction), who) <==> who.Authenticated? && !IsModerator(who)
  {
    var rules := CourseRules(CreateAction);
    if who.Authenticated? && !IsModerator(who) {
      assert ViewCheck(rules[0], who) && ViewCheck(rules[1], who);
    }
    assert rules[1] == Not(IsModer) && ViewCheck(IsModer, who) == IsModerator(who);
    if ViewAllows(rules, who) {
      assert ViewCheck(rules[0], who) && ViewCheck(rules[1], who);
    }
  }

  lemma CourseReadUpdateRule(a: CourseAction, who: Principal, c: Course)
    requires IsReadOrUpdate(a)
    ensures ViewAllows(CourseRules(a), who) <==> who.Authenticated?
    ensures ViewAllows(CourseRules(a), who) && ObjectAllows(CourseRules(a), who, CourseObject(c)) <==>
      who.Authenticated? && (IsModerator(who) || c.owner == OwnerOf(who))
  {
    var rules := CourseRules(a);
    assert rules == [IsAuthenticated, Or(IsModer, IsOwner)];
    ModerOrOwner(who, CourseObject(c));
    if who.Authenticated? {
      assert ViewCheck(rules[0], who) && ViewCheck(rules[1], who);
      if IsModerator(who) || c.owner == OwnerOf(who) {
        assert ObjectCheck(rules[0], who, CourseObject(c)) && ObjectCheck(rules[1], who, CourseObject(c));
      }
    }
    if ViewAllows(rules, who) {
      assert ViewCheck(rules[0], who);
    }
    if ObjectAllows(rules, who, CourseObject(c)) {
      assert ObjectCheck(rules[1], who, CourseObject(c));
    }
  }

  lemma CourseOtherActionRule(name: string, who: Principal, obj: Resource)
    ensures ViewAllows(CourseRules(OtherAction(name)), who) <==> who.Authenticated?
    ensures ObjectAllows(CourseRules(OtherAction(name)), who, obj)
  {
    assert ViewCheck(CourseRules(OtherAction(name))[0], who) <==> who.Authenticated?;
  }

  /** As written, the destroy rule refuses every object, so no user can delete
      a course. */
  lemma CourseDestroyAsWritten(who: Principal, obj: Resource)
    ensures !ObjectAllows(CourseRules(DestroyAction), who, obj)
  {
    assert !ObjectCheck(CourseRules(DestroyAction)[1], who, obj);
  }

  lemma CourseDestroyCorrected(who: Principal, c: Course)
    ensures ViewAllows(CourseRulesCorrected(DestroyAction), who) <==>
      who.Authenticated? && !IsModerator(who)
    ensures (ViewAllows(CourseRulesCorrected(DestroyAction), who)
             && ObjectAllows(CourseRulesCorrected(DestroyAction), who, CourseObject(c))) <==>
      who.Authenticated? && !IsModerator(who) && c.owner == OwnerOf(who)
  {
    var rules := CourseRulesCorrected(DestroyAction);
    var obj := CourseObject(c);
    if who.Authenticated? && !IsModerator(who) {
      assert ViewCheck(rules[0], who) && ViewCheck(rules[1], who) && ViewCheck(rules[2], who);
      if c.owner == OwnerOf(who) {
        assert ObjectCheck(rules[0], who, obj) && ObjectCheck(rules[1], who, obj)
          && ObjectCheck(rules[2], who, obj);
      }
    }
    if ViewAllows(rules, who) {
      assert ViewCheck(rules[0], who) && ViewCheck(rules[1], who);
    }
    if ObjectAllows(rules, who, obj) {
      assert ObjectCheck(rules[2], who, obj);
    }
  }

  /** The HTTP methods LessonListCreateAPIView distinguishes. */
  datatype HttpMethod = Get | Post | OtherMethod(name: string)

  /** `LessonListCreateAPIView.get_permissions`. */
  function LessonListCreateRules(m: HttpMethod): seq<Permission> {
    match m
    case Get => [IsAuthenticated]
    case Post => [IsAuthenticated, Not(IsModer)]
    case OtherMethod(_) => [IsAuthenticated]
  }

  /** `LessonRetrieveUpdateDestroyAPIView.permission_classes`. */
  const LessonDetailRules: seq<Permission> := [IsAuthenticated, Or(IsModer, IsOwner)]

  lemma LessonListCreateRule(m: HttpMethod, who: Principal)
    ensures m == Post ==> (ViewAllows(LessonListCreateRules(m), who) <==> who.Authenticated? && !IsModerator(who))
    ensures m != Post ==> (ViewAllows(LessonListCreateRules(m), who) <==> who.Authenticated?)
  {
    var rules := LessonListCreateRules(m);
    assert ViewCheck(rules[0], who) <==> who.Authenticated?;
    if m == Post {
      assert ViewCheck(rules[1], who) <==> !IsModerator(who);
      if who.Authenticated? && !IsModerator(who) {
        assert forall i :: 0 <= i < |rules| ==> ViewCheck(rules[i], who);
      }
    }
  }

  lemma LessonDetailRule(who: Principal, l: Lesson)
    ensures ViewAllows(LessonDetailRules, who) <==> who.Authenticated?
    ensures ViewAllows(LessonDetailRules, who) && ObjectAllows(LessonDetailRules, who, LessonObject(l)) <==>
      who.Authenticated? && (IsModerator(who) || l.owner == OwnerOf(who))
  {
    var rules := LessonDetailRules;
    var obj := LessonObject(l);
    ModerOrOwner(who, obj);
    if who.Authenticated? {
      assert ViewCheck(rules[0], who) && ViewCheck(rules[1], who);
      if IsModerator(who) || l.owner == OwnerOf(who) {
        assert ObjectCheck(rules[0], who, obj) && ObjectCheck(rules[1], who, obj);
      }
    }
    if ViewAllows(rules, who) {
      assert ViewCheck(rules[0], who);
    }
    if ObjectAllows(rules, who, obj) {
      assert ObjectCheck(rules[1], who, obj);
    }
  }

  // ---------------------------------------------------------------------------
  // Query scoping

  /** `CourseViewSet.get_queryset` over the courses in id order. */
  function CourseQueryset(who: Principal, courses: seq<Course>): seq<Course> {
    if !who.Authenticated? then []
    else if IsModerator(who) then courses
    else Filter(courses, (c: Course) => c.owner == Some(who.user.id))
  }

  /** `LessonListCreateAPIView.get_queryset` over the lessons in id order. */
  function LessonQueryset(who: Principal, lessons: seq<Lesson>): seq<Lesson> {
    if !who.Authenticated? then []
    else if IsModerator(who) then lessons
    else Filter(lessons, (l: Lesson) => l.owner == Some(who.user.id))
  }

  lemma CourseScope(who: Principal, courses: seq<Course>)
    requires StrictlyIncreasing(courses, CoursePk)
    ensures var r := CourseQueryset(who, courses);
      && StrictlyIncreasing(r, CoursePk)
      && (who.Anonymous? ==> r == [])
      && (IsModerator(who) ==> r == courses)
      && (who.Authenticated? && !IsModerator(who) ==>
            forall c :: c in r <==> c in courses && c.owner == Some(who.user.id))
  {
    if who.Authenticated? && !IsModerator(who) {
      FilterKeepsOrder(courses, (c: Course) => c.owner == Some(who.user.id), CoursePk);
    }
  }

  lemma LessonScope(who: Principal, lessons: seq<Lesson>)
    requires StrictlyIncreasing(lessons, LessonPk)
    ensures var r := LessonQueryset(who, lessons);
      && StrictlyIncreasing(r, LessonPk)
      && (who.Anonymous? ==> r == [])
      && (IsModerator(who) ==> r == lessons)
      && (who.Authenticated? && !IsModerator(who) ==>
            forall l :: l in r <==> l in lessons && l.owner == Some(who.user.id))
  {
    if who.Authenticated? && !IsModerator(who) {
      FilterKeepsOrder(lessons, (l: Lesson) => l.owner == Some(who.user.id), LessonPk);
    }
  }

  // ---------------------------------------------------------------------------
  // Answering a request

  /** A refusal is 401 for the anonymous user and 403 otherwise. */
  function Refusal(who: Principal): ApiError {
    if who.Anonymous? then NotAuthenticated else PermissionDenied
  }

  /** A list or create request: the request-level checks alone decide it. */
  function CollectionRequest(rules: seq<Permission>, who: Principal): Result<()> {
    if ViewAllows(rules, who) then Success(()) else Failure(Refusal(who))
  }

  /** What the request-level checks answer for each course action and lesson
      method: an anonymous request is 401 everywhere; a moderator gets 403 on
      course create and delete and on lesson POST, and passes elsewhere; any
      other signed-in user passes everywhere. */
  lemma RequestLevelOutcomes(a: CourseAction, m: HttpMethod, who: Principal)
    ensures who.Anonymous? ==>
      && CollectionRequest(CourseRules(a), who) == Failure(NotAuthenticated)
      && CollectionRequest(LessonListCreateRules(m), who) == Failure(NotAuthenticated)
    ensures who.Authenticated? && IsModerator(who) ==>
      && (CollectionRequest(CourseRules(a), who) ==
            if a == CreateAction || a == DestroyAction then Failure(PermissionDenied) else Success(()))
      && (CollectionRequest(LessonListCreateRules(m), who) ==
            if m == Post then Failure(PermissionDenied) else Success(()))
    ensures who.Authenticated? && !IsModerator(who) ==>
      && CollectionRequest(CourseRules(a), who) == Success(())
      && CollectionRequest(LessonListCreateRules(m), who) == Success(())
  {
    var rules := CourseRules(a);
    assert ViewCheck(rules[0], who) <==> who.Authenticated?;
    if who.Authenticated? {
      if a == CreateAction || a == DestroyAction {
        assert ViewCheck(rules[1], who) <==> !IsModerator(who);
        if !IsModerator(who) {
          assert forall i :: 0 <= i < |rules| ==> ViewCheck(rules[i], who);
        }
      } else {
        assert forall i :: 0 <= i < |rules| ==> ViewCheck(rules[i], who);
      }
    }
    LessonListCreateRule(m, who);
  }

  /** A course detail request: request-level checks, then lookup of the id in
      the user's queryset (404 when absent), then the object-level checks. */
  function CourseDetail(rules: seq<Permission>, who: Principal, courses: seq<Course>, id: int): Result<Course> {
    if !ViewAllows(rules, who) then Failure(Refusal(who))
    else match Find(CourseQueryset(who, courses), CoursePk, id)
      case None => Failure(NotFound)
      case Some(c) => if ObjectAllows(rules, who, CourseObject(c)) then Success(c) else Failure(Refusal(who))
  }

  /** A lesson detail request; its queryset is every lesson. */
  function LessonDetail(who: Principal, lessons: seq<Lesson>, id: int): Result<Lesson> {
    if !ViewAllows(LessonDetailRules, who) then Failure(Refusal(who))
    else match Find(lessons, LessonPk, id)
      case None => Failure(NotFound)
      case Some(l) => if ObjectAllows(LessonDetailRules, who, LessonObject(l)) then Success(l) else Failure(Refusal(who))
  }

  /** Reading or changing a course: 401 when anonymous; the course when the
      requester moderates or owns it; otherwise 404, because the queryset
      already hides other users' courses. */
  lemma CourseDetailOutcome(a: CourseAction, who: Principal, courses: seq<Course>, c: Course)
    requires a == RetrieveAction || a == UpdateAction || a == PartialUpdateAction
    requires StrictlyIncreasing(courses, CoursePk)
    requires c in courses
    ensures who.Anonymous? ==> CourseDetail(CourseRules(a), who, courses, c.id) == Failure(NotAuthenticated)
    ensures who.Authenticated? && (IsModerator(who) || c.owner == OwnerOf(who)) ==>
      CourseDetail(CourseRules(a), who, courses, c.id) == Success(c)
    ensures who.Authenticated? && !IsModerator(who) && c.owner != OwnerOf(who) ==>
      CourseDetail(CourseRules(a), who, courses, c.id) == Failure(NotFound)
  {
    var rules := CourseRules(a);
    CourseReadUpdateRule(a, who, c);
    CourseScope(who, courses);
    var qs := CourseQueryset(who, courses);
    if who.Authenticated? && (IsModerator(who) || c.owner == OwnerOf(who)) {
      FindUnique(qs, CoursePk, c);
    }
    if who.Authenticated? && !IsModerator(who) && c.owner != OwnerOf(who) {
      forall x | x in qs ensures x.id != c.id {
        KeyDetermines(courses, CoursePk, x, c);
      }
    }
  }

  /** An id with no course is 404 for any signed-in user. */
  lemma CourseDetailMissing(rules: seq<Permission>, who: Principal, courses: seq<Course>, id: int)
    requires ViewAllows(rules, who)
    requires forall c :: c in courses ==> c.id != id
    ensures CourseDetail(rules, who, courses, id) == Failure(NotFound)
  {
    var qs := CourseQueryset(who, courses);
    assert forall c :: c in qs ==> c in courses;
  }

  /** As written, deleting a course never succeeds: anonymous users get 401,
      everyone else 403 or 404. */
  lemma CourseDestroyNeverSucceeds(who: Principal, courses: seq<Course>, id: int)
    ensures CourseDetail(CourseRules(DestroyAction), who, courses, id).Failure?
  {
    var qs := CourseQueryset(who, courses);
    var f := Find(qs, CoursePk, id);
    if f.Some? {
      CourseDestroyAsWritten(who, CourseObject(f.value));
    }
  }

  /** With the corrected rule: 401 when anonymous, 403 for moderators, the
      course for its owner, and 404 for anyone else. */
  lemma CourseDestroyCorrectedOutcome(who: Principal, courses: seq<Course>, c: Course)
    requires StrictlyIncreasing(courses, CoursePk)
    requires c in courses
    ensures who.Anonymous? ==>
      CourseDetail(CourseRulesCorrected(DestroyAction), who, courses, c.id) == Failure(NotAuthenticated)
    ensures IsModerator(who) ==>
      CourseDetail(CourseRulesCorrected(DestroyAction), who, courses, c.id) == Failure(PermissionDenied)
    ensures who.Authenticated? && !IsModerator(who) && c.owner == OwnerOf(who) ==>
      CourseDetail(CourseRulesCorrected(DestroyAction), who, courses, c.id) == Success(c)
    ensures who.Authenticated? && !IsModerator(who) && c.owner != OwnerOf(who) ==>
      CourseDetail(CourseRulesCorrected(DestroyAction), who, courses, c.id) == Failure(NotFound)
  {
    var rules := CourseRulesCorrected(DestroyAction);
    CourseDestroyCorrected(who, c);
    CourseScope(who, courses);
    var qs := CourseQueryset(who, courses);
    if who.Authenticated? && !IsModerator(who) {
      if c.owner == OwnerOf(who) {
        FindUnique(qs, CoursePk, c);
      } else {
        forall x | x in qs ensures x.id != c.id {
          KeyDetermines(courses, CoursePk, x, c);
        }
      }
    }
  }

  /** Reading, changing or deleting a lesson: 401 when anonymous, 404 for an
      unknown id, the lesson for a moderator or its owner, 403 otherwise. */
  lemma LessonDetailOutcome(who: Principal, lessons: seq<Lesson>, id: int)
    requires StrictlyIncreasing(lessons, LessonPk)
    ensures who.Anonymous? ==> LessonDetail(who, lessons, id) == Failure(NotAuthenticated)
    ensures who.Authenticated? && (forall l :: l in lessons ==> l.id != id) ==>
      LessonDetail(who, lessons, id) == Failure(NotFound)
    ensures forall l :: l in lessons && l.id == id && who.Authenticated? ==>
      LessonDetail(who, lessons, id) ==
        if IsModerator(who) || l.owner == OwnerOf(who) then Success(l) else Failure(PermissionDenied)
  {
    forall l | l in lessons && l.id == id && who.Authenticated?
      ensures LessonDetail(who, lessons, id) ==
        if IsModerator(who) || l.owner == OwnerOf(who) then Success(l) else Failure(PermissionDenied)
    {
      LessonDetailRule(who, l);
      FindUnique(lessons, LessonPk, l);
    }
    if who.Anonymous? {
      LessonDetailRule(who, Lesson(0, 0, "", "", "", None));
    }
    if who.Authenticated? {
      LessonDetailRule(who, Lesson(0, 0, "", "", "", None));
    }
  }

  // ---------------------------------------------------------------------------
  // Subscription toggle

  datatype ToggleMessage = SubscriptionRemoved | SubscriptionAdded

  /** The text of the response's "message" field. */
  function MessageText(m: ToggleMessage): string {
    match m
    case SubscriptionRemoved => "подписка удалена"
    case SubscriptionAdded => "подписка добавлена"
  }

  datatype Toggled = Toggled(subscriptions: seq<Subscription>, message: ToggleMessage)

  /** The (user, course) pairs that have a subscription row. */
  function Pairs(subs: seq<Subscription>): set<(UserId, CourseId)> {
    set s | s in subs :: (s.user, s.course)
  }

  predicate SamePair(s: Subscription, user: UserId, course: CourseId) {
    s.user == user && s.course == course
  }

  /** The body of `CourseSubscriptionAPIView.post` once the course exists:
      delete every row of the pair if there is one, otherwise add a row with
      a fresh key and the current time. */
  function Toggle(subs: seq<Subscription>, user: UserId, course: CourseId, newId: SubscriptionId, now: Time): Toggled {
    if exists s :: s in subs && SamePair(s, user, course) then
      Toggled(Filter(subs, (s: Subscription) => !SamePair(s, user, course)), SubscriptionRemoved)
    else
      Toggled(subs + [Subscription(newId, user, course, now)], SubscriptionAdded)
  }

  /** The toggle flips the one pair and leaves every other row as it was. */
  lemma ToggleFlipsPair(subs: seq<Subscription>, user: UserId, course: CourseId, newId: SubscriptionId, now: Time)
    ensures var t := Toggle(subs, user, course, newId, now);
      && ((user, course) in Pairs(subs) ==>
            && t.message == SubscriptionRemoved && MessageText(t.message) == "подписка удалена"
            && Pairs(t.subscriptions) == Pairs(subs) - {(user, course)})
      && ((user, course) !in Pairs(subs) ==>
            && t.message == SubscriptionAdded && MessageText(t.message) == "подписка добавлена"
            && Pairs(t.subscriptions) == Pairs(subs) + {(user, course)})
      && (forall s :: !SamePair(s, user, course) ==> (s in t.subscriptions <==> s in subs))
  {
    var t := Toggle(subs, user, course, newId, now);
    if (user, course) in Pairs(subs) {
      var w :| w in subs && (w.user, w.course) == (user, course);
      assert SamePair(w, user, course);
      forall p | p in Pairs(subs) - {(user, course)} ensures p in Pairs(t.subscriptions) {
        var s :| s in subs && (s.user, s.course) == p;
        assert s in t.subscriptions;
      }
    } else {
      forall p | p in Pairs(subs) ensures p in Pairs(t.subscriptions) {
        var s :| s in subs && (s.user, s.course) == p;
        assert s in t.subscriptions;
      }
      var added := Subscription(newId, user, course, now);
      assert added in t.subscriptions;
    }
  }

  /** The toggle keeps the table's keys ordered and its pairs unique. */
  lemma ToggleKeepsTableValid(subs: seq<Subscription>, user: UserId, course: CourseId, newId: SubscriptionId, now: Time)
    requires StrictlyIncreasing(subs, SubscriptionPk) && PairsUnique(subs) && KeysBelow(subs, SubscriptionPk, newId)
    ensures var t := Toggle(subs, user, course, newId, now);
      StrictlyIncreasing(t.subscriptions, SubscriptionPk) && PairsUnique(t.subscriptions)
      && KeysBelow(t.subscriptions, SubscriptionPk, newId + 1)
  {
    var t := Toggle(subs, user, course, newId, now);
    if exists s :: s in subs && SamePair(s, user, course) {
      FilterKeepsOrder(subs, (s: Subscription) => !SamePair(s, user, course), SubscriptionPk);
    } else {
      var r := t.subscriptions;
      assert r == subs + [Subscription(newId, user, course, now)];
      forall i, j | 0 <= i < j < |r| ensures SubscriptionPk(r[i]) < SubscriptionPk(r[j]) {
        assert r[i] == subs[i];
        if j == |subs| {
          assert subs[i] in subs;
        } else {
          assert r[j] == subs[j];
        }
      }
    }
  }

  /** Two toggles in a row give the pair back its original state, with the
      two messages opposite; starting without the pair, the table itself is
      restored. */
  lemma {:induction false} ToggleTwiceRestores(subs: seq<Subscription>, user: UserId, course: CourseId,
                                               id1: SubscriptionId, now1: Time, id2: SubscriptionId, now2: Time)
    ensures var t1 := Toggle(subs, user, course, id1, now1);
      var t2 := Toggle(t1.subscriptions, user, course, id2, now2);
      && Pairs(t2.subscriptions) == Pairs(subs)
      && t1.message != t2.message
      && ((user, course) !in Pairs(subs) ==> t2.subscriptions == subs)
  {
    var t1 := Toggle(subs, user, course, id1, now1);
    ToggleFlipsPair(subs, user, course, id1, now1);
    ToggleFlipsPair(t1.subscriptions, user, course, id2, now2);
    if (user, course) !in Pairs(subs) {
      var keep := (s: Subscription) => !SamePair(s, user, course);
      var added := Subscription(id1, user, course, now1);
      assert t1.subscriptions == subs + [added];
      assert added in t1.subscriptions && SamePair(added, user, course);
      FilterAppend(subs, [added], keep);
      forall s | s in subs ensures keep(s) {
        assert (s.user, s.course) in Pairs(subs);
      }
      FilterAll(subs, keep);
      assert Filter([added], keep) == [];
    }
  }
}
