/** Roles and ownership (users/permissions.py), and the two-level permission
    classes of the REST framework they plug into.

    A permission class answers twice: once per request (the view-level
    check, `has_permission`) and once per object that a detail action loads
    (the object-level check, `has_object_permission`). A class that does not
    override a level allows at that level. The operators compose classes
    level by level, as the framework does:
      - `~P` negates P at both levels, so `~P` denies at object level whenever
        P leaves that level at its default;
      - `P | Q` allows a request when either allows it, and allows an object
        when one operand allows both the request and the object. */
module Permissions {
  import opened Models

  /** `request.user`: the anonymous user or an authenticated account. */
  datatype Principal = Anonymous | Authenticated(user: User)

  const ModeratorGroupNames: seq<string> := ["moderators", "Модераторы"]

  /** `is_moderator`: never for the anonymous user; always for staff and
      superusers; otherwise membership of a group with one of the names. */
  predicate IsModerator(who: Principal) {
    match who
    case Anonymous => false
    case Authenticated(u) =>
      if u.isStaff || u.isSuperuser then true
      else exists name :: name in ModeratorGroupNames && name in u.groups
  }

  lemma ModeratorRule(who: Principal)
    ensures who.Anonymous? ==> !IsModerator(who)
    ensures who.Authenticated? && (who.user.isStaff || who.user.isSuperuser) ==> IsModerator(who)
    ensures who.Authenticated? && !who.user.isStaff && !who.user.isSuperuser ==>
      (IsModerator(who) <==> "moderators" in who.user.groups || "Модераторы" in who.user.groups)
  {
    if who.Authenticated? && !who.user.isStaff && !who.user.isSuperuser {
      assert ModeratorGroupNames[0] == "moderators" && ModeratorGroupNames[1] == "Модераторы";
      if "moderators" in who.user.groups {
        assert ModeratorGroupNames[0] in who.user.groups;
      }
      if "Модераторы" in who.user.groups {
        assert ModeratorGroupNames[1] in who.user.groups;
      }
    }
  }

  /** The objects a permission may be asked about. */
  datatype Resource =
    | CourseObject(course: Course)
    | LessonObject(lesson: Lesson)
    | SubscriptionObject(subscription: Subscription)
    | PaymentObject(payment: Payment)
    | UserObject(target: User)

  /** Whether an object has an attribute, and its value. */
  datatype Attr<T> = Absent | Present(value: T)

  /** `obj.owner`: Course and Lesson have it (possibly empty). */
  function OwnerAttr(obj: Resource): Attr<Option<UserId>> {
    match obj
    case CourseObject(c) => Present(c.owner)
    case LessonObject(l) => Present(l.owner)
    case _ => Absent
  }

  /** `obj.user`: Subscription and Payment have it. */
  function UserAttr(obj: Resource): Attr<UserId> {
    match obj
    case SubscriptionObject(s) => Present(s.user)
    case PaymentObject(p) => Present(p.user)
    case _ => Absent
  }

  /** `IsOwner.has_object_permission`: the owner attribute decides when there
      is one, else the user attribute, else the object is nobody's. */
  predicate OwnerCheck(who: Principal, obj: Resource) {
    if !who.Authenticated? then false
    else match OwnerAttr(obj)
      case Present(o) => o == Some(who.user.id)
      case Absent =>
        match UserAttr(obj)
        case Present(u) => u == who.user.id
        case Absent => false
  }

  lemma OwnerCheckRule(who: Principal, obj: Resource)
    ensures who.Anonymous? ==> !OwnerCheck(who, obj)
    ensures OwnerAttr(obj).Absent? && UserAttr(obj).Absent? ==> !OwnerCheck(who, obj)
    ensures who.Authenticated? && OwnerAttr(obj).Present? ==>
      (OwnerCheck(who, obj) <==> OwnerAttr(obj).value == Some(who.user.id))
    ensures OwnerAttr(obj) == Present(None) ==> !OwnerCheck(who, obj)
    ensures who.Authenticated? && OwnerAttr(obj).Absent? && UserAttr(obj).Present? ==>
      (OwnerCheck(who, obj) <==> UserAttr(obj).value == who.user.id)
  {
  }

  /** `IsSelf.has_object_permission`: the object is the requester's own
      account (model instances compare by type and primary key). */
  predicate SelfCheck(who: Principal, obj: Resource) {
    who.Authenticated? && obj.UserObject? && obj.target.id == who.user.id
  }

  // ---------------------------------------------------------------------------
  // Permission classes and their composition

  datatype Permission =
    | IsAuthenticated          // rest_framework.permissions.IsAuthenticated
    | IsModer                  // view level only
    | IsOwner                  // object level only
    | IsSelf                   // object level only
    | IsNotModer               // "not a moderator", view level only (not in the source)
    | Not(op: Permission)      // ~op
    | Or(left: Permission, right: Permission)  // left | right

  /** `has_permission`. */
  predicate ViewCheck(p: Permission, who: Principal) {
    match p
    case IsAuthenticated => who.Authenticated?
    case IsModer => IsModerator(who)
    case IsOwner => true
    case IsSelf => true
    case IsNotModer => !IsModerator(who)
    case Not(q) => !ViewCheck(q, who)
    case Or(a, b) => ViewCheck(a, who) || ViewCheck(b, who)
  }

  /** `has_object_permission`. */
  predicate ObjectCheck(p: Permission, who: Principal, obj: Resource) {
    match p
    case IsAuthenticated => true
    case IsModer => true
    case IsOwner => OwnerCheck(who, obj)
    case IsSelf => SelfCheck(who, obj)
    case IsNotModer => true
    case Not(q) => !ObjectCheck(q, who, obj)
    case Or(a, b) =>
      (ViewCheck(a, who) && ObjectCheck(a, who, obj)) || (ViewCheck(b, who) && ObjectCheck(b, who, obj))
  }

  /** A view's `permission_classes` pass the request when every class does. */
  predicate ViewAllows(rules: seq<Permission>, who: Principal) {
    forall i :: 0 <= i < |rules| ==> ViewCheck(rules[i], who)
  }

  /** ... and pass a loaded object when every class does. */
  predicate ObjectAllows(rules: seq<Permission>, who: Principal, obj: Resource) {
    forall i :: 0 <= i < |rules| ==> ObjectCheck(rules[i], who, obj)
  }

  /** `[IsAuthenticated, IsSelf]`: every signed-in request passes, and the
      only object that passes is the requester's own account, compared by
      key; no course, lesson, subscription or payment ever does. */
  lemma SelfRule(who: Principal, obj: Resource)
    ensures ViewAllows([IsAuthenticated, IsSelf], who) <==> who.Authenticated?
    ensures ViewAllows([IsAuthenticated, IsSelf], who) && ObjectAllows([IsAuthenticated, IsSelf], who, obj) <==>
      who.Authenticated? && obj.UserObject? && obj.target.id == who.user.id
    ensures !obj.UserObject? ==> !ObjectAllows([IsAuthenticated, IsSelf], who, obj)
  {
    var rules := [IsAuthenticated, IsSelf];
    assert ViewCheck(rules[0], who) <==> who.Authenticated?;
    assert ObjectCheck(rules[1], who, obj) <==> SelfCheck(who, obj);
    if who.Authenticated? {
      assert ViewCheck(rules[1], who);
    }
    if SelfCheck(who, obj) {
      assert ObjectCheck(rules[0], who, obj);
    }
  }

  /** `IsModer | IsOwner` refuses no request and accepts an object exactly
      for a moderator or its owner. */
  lemma ModerOrOwner(who: Principal, obj: Resource)
    ensures ViewCheck(Or(IsModer, IsOwner), who)
    ensures ObjectCheck(Or(IsModer, IsOwner), who, obj) <==> IsModerator(who) || OwnerCheck(who, obj)
  {
  }

  /** `~IsModer` refuses every object: the moderator class does not override
      the object level, so its default "allow" is negated. */
  lemma NegatedModerRefusesObjects(who: Principal, obj: Resource)
    ensures ViewCheck(Not(IsModer), who) <==> !IsModerator(who)
    ensures !ObjectCheck(Not(IsModer), who, obj)
  {
  }
}
