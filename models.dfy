/** Records of the learning-management store (lms/models.py, users/models.py) and
    the integrity rules the database keeps: primary keys, the unique e-mail of a
    user, the unique (user, course) subscription pair, and the foreign keys with
    their ON DELETE CASCADE behaviour.

    A table is a sequence of rows in ascending primary-key order, which is the
    order `order_by("id")` gives back. */
module Models {

  datatype Option<T> = None | Some(value: T)

  /** The failures the API reports: 401, 403, 404, a serializer's 400, and
      the 500 of an exception that reaches the framework. */
  datatype ApiError =
    | NotAuthenticated
    | PermissionDenied
    | NotFound
    | ValidationError(message: string)
    | ServerError  // an exception nothing handles: 500

  datatype Result<T> = Success(value: T) | Failure(error: ApiError)

  type UserId = nat
  type CourseId = nat
  type LessonId = nat
  type SubscriptionId = nat
  type PaymentId = nat

  /** An instant, in whole seconds. */
  type Time = int

  /** The custom user (users/models.py) together with the fields it inherits
      from Django's AbstractUser that the core reads. Group membership is kept
      as the set of group names. */
  datatype User = User(
    id: UserId,
    email: string,
    username: string,
    isStaff: bool,
    isSuperuser: bool,
    isActive: bool,
    groups: set<string>,
    lastLogin: Option<Time>)

  /** A course. `lastNotificationSentAt` is not declared by the model class; the
      notification tasks read it with a None default and assign it, so it is
      kept here as the optional timestamp those tasks intend. */
  datatype Course = Course(
    id: CourseId,
    title: string,
    description: string,
    owner: Option<UserId>,
    lastNotificationSentAt: Option<Time>)

  /** A lesson belongs to exactly one course; its owner is optional. */
  datatype Lesson = Lesson(
    id: LessonId,
    course: CourseId,
    title: string,
    description: string,
    videoUrl: string,
    owner: Option<UserId>)

  datatype Subscription = Subscription(
    id: SubscriptionId,
    user: UserId,
    course: CourseId,
    createdAt: Time)

  datatype PaymentStatus = Pending | Paid | Canceled

  /** A payment of the lms app: its user and its course are both required. */
  datatype Payment = Payment(
    id: PaymentId,
    user: UserId,
    course: CourseId,
    amountCents: int,
    currency: string,
    status: PaymentStatus)

  /** The whole store: one table per model. */
  datatype Db = Db(
    users: seq<User>,
    courses: seq<Course>,
    lessons: seq<Lesson>,
    subscriptions: seq<Subscription>,
    payments: seq<Payment>)

  // ---------------------------------------------------------------------------
  // Payment status choices

  /** The stored value of each status choice. */
  function StatusValue(s: PaymentStatus): string {
    match s
    case Pending => "pending"
    case Paid => "paid"
    case Canceled => "canceled"
  }

  /** Reads a stored status back; only the three choices are accepted. */
  function ParseStatus(v: string): (r: Option<PaymentStatus>)
    ensures r.Some? ==> StatusValue(r.value) == v
  {
    if v == "pending" then Some(Pending)
    else if v == "paid" then Some(Paid)
    else if v == "canceled" then Some(Canceled)
    else None
  }

  lemma StatusRoundTrip(s: PaymentStatus)
    ensures ParseStatus(StatusValue(s)) == Some(s)
  {
  }

  /** A freshly created payment: status defaults to pending, currency to "usd". */
  function NewPayment(id: PaymentId, user: UserId, course: CourseId, amountCents: int): Payment {
    Payment(id, user, course, amountCents, "usd", Pending)
  }

  // ---------------------------------------------------------------------------
  // Tables as ordered sequences

  function UserPk(u: User): int { u.id }
  function CoursePk(c: Course): int { c.id }
  function LessonPk(l: Lesson): int { l.id }
  function SubscriptionPk(s: Subscription): int { s.id }
  function PaymentPk(p: Payment): int { p.id }

  /** Every key of the table is below `n`. */
  predicate KeysBelow<T>(s: seq<T>, key: T -> int, n: int) {
    forall i :: 0 <= i < |s| ==> key(s[i]) < n
  }

  /** Rows in strictly ascending key order (so no key occurs twice). */
  predicate StrictlyIncreasing<T>(s: seq<T>, key: T -> int) {
    forall i, j :: 0 <= i < j < |s| ==> key(s[i]) < key(s[j])
  }

  /** A row with a key above all others can be appended. */
  lemma AppendKeepsOrder<T>(s: seq<T>, x: T, key: T -> int)
    requires StrictlyIncreasing(s, key) && KeysBelow(s, key, key(x))
    ensures StrictlyIncreasing(s + [x], key)
  {
    var r := s + [x];
    forall i, j | 0 <= i < j < |r| ensures key(r[i]) < key(r[j]) {
      assert r[i] == s[i];
      if j < |s| {
        assert r[j] == s[j];
      }
    }
  }

  /** The rows of `s` that satisfy `keep`, in their original order. */
  function Filter<T(!new)>(s: seq<T>, keep: T -> bool): (r: seq<T>)
    ensures |r| <= |s|
    ensures forall x :: x in r <==> x in s && keep(x)
  {
    if s == [] then []
    else (if keep(s[0]) then [s[0]] else []) + Filter(s[1..], keep)
  }

  lemma {:induction false} FilterKeepsOrder<T(!new)>(s: seq<T>, keep: T -> bool, key: T -> int)
    requires StrictlyIncreasing(s, key)
    ensures StrictlyIncreasing(Filter(s, keep), key)
  {
    if s != [] {
      var tail := Filter(s[1..], keep);
      FilterKeepsOrder(s[1..], keep, key);
      if keep(s[0]) {
        var r := [s[0]] + tail;
        forall i, j | 0 <= i < j < |r| ensures key(r[i]) < key(r[j]) {
          if i > 0 {
            assert r[i] == tail[i - 1] && r[j] == tail[j - 1];
          } else {
            assert r[j] == tail[j - 1];
            assert r[j] in s[1..];
            var k :| 0 <= k < |s[1..]| && s[1..][k] == r[j];
            assert s[k + 1] == r[j];
          }
        }
      }
    }
  }

  lemma {:induction false} FilterAll<T(!new)>(s: seq<T>, keep: T -> bool)
    requires forall x :: x in s ==> keep(x)
    ensures Filter(s, keep) == s
  {
    if s != [] {
      FilterAll(s[1..], keep);
      assert [s[0]] + s[1..] == s;
    }
  }

  lemma {:induction false} FilterAppend<T(!new)>(s: seq<T>, t: seq<T>, keep: T -> bool)
    ensures Filter(s + t, keep) == Filter(s, keep) + Filter(t, keep)
  {
    if s == [] {
      assert s + t == t;
    } else {
      assert (s + t)[1..] == s[1..] + t;
      FilterAppend(s[1..], t, keep);
    }
  }

  /** Lookup by key, as `Model.objects.get(pk=k)`: the row or nothing. */
  function Find<T(!new)>(s: seq<T>, key: T -> int, k: int): (r: Option<T>)
    ensures r.Some? ==> r.value in s && key(r.value) == k
    ensures r.None? <==> forall x :: x in s ==> key(x) != k
  {
    if s == [] then None
    else if key(s[0]) == k then Some(s[0])
    else Find(s[1..], key, k)
  }

  /** With unique keys, the lookup finds the one row that has the key. */
  lemma {:induction false} FindUnique<T(!new)>(s: seq<T>, key: T -> int, x: T)
    requires StrictlyIncreasing(s, key)
    requires x in s
    ensures Find(s, key, key(x)) == Some(x)
  {
    if s[0] != x {
      assert x in s[1..];
      var k :| 0 <= k < |s[1..]| && s[1..][k] == x;
      assert s[k + 1] == x;
      assert key(s[0]) < key(x);
      FindUnique(s[1..], key, x);
    }
  }

  /** With unique keys, a key identifies its row. */
  lemma KeyDetermines<T>(s: seq<T>, key: T -> int, x: T, y: T)
    requires StrictlyIncreasing(s, key)
    requires x in s && y in s
    ensures key(x) == key(y) ==> x == y
  {
    var i :| 0 <= i < |s| && s[i] == x;
    var j :| 0 <= j < |s| && s[j] == y;
    assert i < j ==> key(x) < key(y);
    assert j < i ==> key(y) < key(x);
  }

  // ---------------------------------------------------------------------------
  // Integrity of the store

  function UserIds(db: Db): set<UserId> { set u | u in db.users :: u.id }
  function CourseIds(db: Db): set<CourseId> { set c | c in db.courses :: c.id }

  predicate KeysOrdered(db: Db) {
    && StrictlyIncreasing(db.users, UserPk)
    && StrictlyIncreasing(db.courses, CoursePk)
    && StrictlyIncreasing(db.lessons, LessonPk)
    && StrictlyIncreasing(db.subscriptions, SubscriptionPk)
    && StrictlyIncreasing(db.payments, PaymentPk)
  }

  /** `email = models.EmailField(unique=True)`. */
  predicate EmailsUnique(users: seq<User>) {
    forall a, b :: a in users && b in users && a.email == b.email ==> a.id == b.id
  }

  /** `unique_together = ("user", "course")`: at most one row per pair. */
  predicate PairsUnique(subs: seq<Subscription>) {
    forall a, b :: a in subs && b in subs && a.user == b.user && a.course == b.course ==> a.id == b.id
  }

  /** Every foreign key points at an existing row; the owners may be empty. */
  predicate LinksResolve(db: Db) {
    && (forall c :: c in db.courses && c.owner.Some? ==> c.owner.value in UserIds(db))
    && (forall l :: l in db.lessons ==> l.course in CourseIds(db))
    && (forall l :: l in db.lessons && l.owner.Some? ==> l.owner.value in UserIds(db))
    && (forall s :: s in db.subscriptions ==> s.user in UserIds(db) && s.course in CourseIds(db))
    && (forall p :: p in db.payments ==> p.user in UserIds(db) && p.course in CourseIds(db))
  }

  predicate Valid(db: Db) {
    KeysOrdered(db) && EmailsUnique(db.users) && PairsUnique(db.subscriptions) && LinksResolve(db)
  }

  /** Rewriting user rows without touching their keys or addresses keeps the
      store valid. */
  lemma UsersRelabelled(db: Db, users: seq<User>)
    requires Valid(db)
    requires |users| == |db.users|
    requires forall i :: 0 <= i < |users| ==> users[i].id == db.users[i].id && users[i].email == db.users[i].email
    ensures Valid(db.(users := users)) && UserIds(db.(users := users)) == UserIds(db)
  {
    var r := db.(users := users);
    forall x | x in UserIds(db) ensures x in UserIds(r) {
      var u :| u in db.users && u.id == x;
      var i :| 0 <= i < |db.users| && db.users[i] == u;
      assert users[i] in users;
    }
    forall x | x in UserIds(r) ensures x in UserIds(db) {
      var u :| u in users && u.id == x;
      var i :| 0 <= i < |users| && users[i] == u;
      assert db.users[i] in db.users;
    }
    assert UserIds(r) == UserIds(db);
    forall a, b | a in users && b in users && a.email == b.email ensures a.id == b.id {
      var i :| 0 <= i < |users| && users[i] == a;
      var j :| 0 <= j < |users| && users[j] == b;
      assert db.users[i] in db.users && db.users[j] in db.users;
    }
    assert StrictlyIncreasing(users, UserPk) by {
      forall i, j | 0 <= i < j < |users| ensures UserPk(users[i]) < UserPk(users[j]) {
        assert UserPk(db.users[i]) < UserPk(db.users[j]);
      }
    }
    assert KeysOrdered(r);
    assert LinksResolve(r);
  }

  /** An ownerless course with an ownerless lesson is a valid store. */
  lemma OwnerlessResourcesAreValid(c: Course, l: Lesson)
    requires c.owner == None && l.owner == None && l.course == c.id
    ensures Valid(Db([], [c], [l], [], []))
  {
    var db := Db([], [c], [l], [], []);
    assert c in db.courses;
    assert l.course in CourseIds(db);
  }

  /** A new payment by an existing user for an existing course, stored under
      a key above the others, keeps the store valid, and its status reads
      back from the table as pending. */
  lemma AddPaymentKeepsValid(db: Db, id: PaymentId, user: UserId, course: CourseId, amountCents: int)
    requires Valid(db) && KeysBelow(db.payments, PaymentPk, id)
    requires user in UserIds(db) && course in CourseIds(db)
    ensures var r := db.(payments := db.payments + [NewPayment(id, user, course, amountCents)]);
      && Valid(r)
      && ParseStatus(StatusValue(r.payments[|db.payments|].status)) == Some(Pending)
      && r.payments[|db.payments|].currency == "usd"
  {
    var p := NewPayment(id, user, course, amountCents);
    AppendKeepsOrder(db.payments, p, PaymentPk);
    var r := db.(payments := db.payments + [p]);
    assert UserIds(r) == UserIds(db) && CourseIds(r) == CourseIds(db);
    assert LinksResolve(r);
  }

  // ---------------------------------------------------------------------------
  // ON DELETE CASCADE

  /** Deleting a course deletes its lessons, its subscriptions and its payments. */
  function DeleteCourse(db: Db, id: CourseId): Db {
    db.(courses := Filter(db.courses, (c: Course) => c.id != id),
        lessons := Filter(db.lessons, (l: Lesson) => l.course != id),
        subscriptions := Filter(db.subscriptions, (s: Subscription) => s.course != id),
        payments := Filter(db.payments, (p: Payment) => p.course != id))
  }

  /** The cascade leaves a valid store. */
  lemma DeleteCourseKeepsValid(db: Db, id: CourseId)
    requires Valid(db)
    ensures Valid(DeleteCourse(db, id))
    ensures CourseIds(DeleteCourse(db, id)) == CourseIds(db) - {id}
  {
    var r := DeleteCourse(db, id);
    FilterKeepsOrder(db.courses, (c: Course) => c.id != id, CoursePk);
    FilterKeepsOrder(db.lessons, (l: Lesson) => l.course != id, LessonPk);
    FilterKeepsOrder(db.subscriptions, (s: Subscription) => s.course != id, SubscriptionPk);
    FilterKeepsOrder(db.payments, (p: Payment) => p.course != id, PaymentPk);
    assert KeysOrdered(r);
    assert PairsUnique(r.subscriptions);
    forall x | x in CourseIds(db) - {id} ensures x in CourseIds(r) {
      var c :| c in db.courses && c.id == x;
      assert c in r.courses;
    }
    assert CourseIds(r) == CourseIds(db) - {id};
    assert UserIds(r) == UserIds(db);
  }

  /** The cascade removes exactly the course and the rows that reference it. */
  lemma DeleteCourseRemovesDependents(db: Db, id: CourseId)
    ensures var r := DeleteCourse(db, id);
      && r.users == db.users
      && (forall c :: c in r.courses <==> c in db.courses && c.id != id)
      && (forall l :: l in r.lessons <==> l in db.lessons && l.course != id)
      && (forall s :: s in r.subscriptions <==> s in db.subscriptions && s.course != id)
      && (forall p :: p in r.payments <==> p in db.payments && p.course != id)
  {
  }

  /** Deleting a user deletes what references the user: their subscriptions
      and payments, the lessons and courses they own, and through each such
      course its lessons, subscriptions and payments. */
  function DeleteUser(db: Db, id: UserId): Db {
    var doomed := OwnedCourseIds(db, id);
    db.(users := Filter(db.users, (u: User) => u.id != id),
        courses := Filter(db.courses, (c: Course) => c.owner != Some(id)),
        lessons := Filter(db.lessons, (l: Lesson) => l.owner != Some(id) && l.course !in doomed),
        subscriptions := Filter(db.subscriptions, (s: Subscription) => s.user != id && s.course !in doomed),
        payments := Filter(db.payments, (p: Payment) => p.user != id && p.course !in doomed))
  }

  function OwnedCourseIds(db: Db, id: UserId): set<CourseId> {
    set c | c in db.courses && c.owner == Some(id) :: c.id
  }

  lemma DeleteUserKeepsValid(db: Db, id: UserId)
    requires Valid(db)
    ensures Valid(DeleteUser(db, id))
    ensures UserIds(DeleteUser(db, id)) == UserIds(db) - {id}
  {
    DeleteUserKeepsOrder(db, id);
    DeleteUserKeys(db, id);
    DeleteUserKeepsLinks(db, id);
  }

  lemma DeleteUserKeepsOrder(db: Db, id: UserId)
    requires KeysOrdered(db)
    ensures KeysOrdered(DeleteUser(db, id))
  {
    var doomed := OwnedCourseIds(db, id);
    FilterKeepsOrder(db.users, (u: User) => u.id != id, UserPk);
    FilterKeepsOrder(db.courses, (c: Course) => c.owner != Some(id), CoursePk);
    FilterKeepsOrder(db.lessons, (l: Lesson) => l.owner != Some(id) && l.course !in doomed, LessonPk);
    FilterKeepsOrder(db.subscriptions, (s: Subscription) => s.user != id && s.course !in doomed, SubscriptionPk);
    FilterKeepsOrder(db.payments, (p: Payment) => p.user != id && p.course !in doomed, PaymentPk);
  }

  lemma DeleteUserKeys(db: Db, id: UserId)
    ensures UserIds(DeleteUser(db, id)) == UserIds(db) - {id}
    ensures forall x :: x in CourseIds(db) && x !in OwnedCourseIds(db, id) ==> x in CourseIds(DeleteUser(db, id))
  {
    var r := DeleteUser(db, id);
    forall x | x in UserIds(db) - {id} ensures x in UserIds(r) {
      var u :| u in db.users && u.id == x;
      assert u in r.users;
    }
    forall x | x in CourseIds(db) && x !in OwnedCourseIds(db, id) ensures x in CourseIds(r) {
      var c :| c in db.courses && c.id == x;
      assert c.owner != Some(id);
      assert c in r.courses;
    }
  }

  lemma DeleteUserKeepsLinks(db: Db, id: UserId)
    requires LinksResolve(db) && EmailsUnique(db.users) && PairsUnique(db.subscriptions)
    ensures var r := DeleteUser(db, id);
      LinksResolve(r) && EmailsUnique(r.users) && PairsUnique(r.subscriptions)
  {
    DeleteUserKeys(db, id);
  }

  /** Exactly the rows that reference the user, directly or through a course
      the user owns, are removed; every other row survives. */
  lemma DeleteUserRemovesDependents(db: Db, id: UserId)
    ensures var r := DeleteUser(db, id);
      && (forall c :: c in r.courses <==> c in db.courses && c.owner != Some(id))
      && (forall u :: u in r.users <==> u in db.users && u.id != id)
      && (forall l :: l in r.lessons <==>
            l in db.lessons && l.owner != Some(id) && l.course !in OwnedCourseIds(db, id))
      && (forall s :: s in r.subscriptions <==>
            s in db.subscriptions && s.user != id && s.course !in OwnedCourseIds(db, id))
      && (forall p :: p in r.payments <==>
            p in db.payments && p.user != id && p.course !in OwnedCourseIds(db, id))
  {
  }
}
