/** The JPA entities of the Spring backend (the `model` package). Rows that the services only
    read, insert or replace are values; a Thread, which the services load and change
    through its setters, is an object. Ids are the keys of the store's maps, so the
    value types do not repeat them. Timestamps are naturals supplied by the caller. */
module JavaModel {
  import opened Options
  import opened Roles

  /** User.UserStatus. */
  datatype UserStatus = Active | Banned | Suspended

  /** The role names `Role.name()` produces and the JWT and the services compare. */
  function RoleName(r: Role): string
  {
    match r
    case User => "USER"
    case Moderator => "MODERATOR"
    case Admin => "ADMIN"
  }

  function StatusName(s: UserStatus): string
  {
    match s
    case Active => "ACTIVE"
    case Banned => "BANNED"
    case Suspended => "SUSPENDED"
  }

  /** `Role.valueOf(s)`: the constant with exactly that name, or the
      IllegalArgumentException that `None` stands for. */
  function ParseRole(s: string): (r: Option<Role>)
    ensures r.Some? <==> s in {"USER", "MODERATOR", "ADMIN"}
  {
    if s == "USER" then Some(Role.User)
    else if s == "MODERATOR" then Some(Moderator)
    else if s == "ADMIN" then Some(Admin)
    else None
  }

  lemma ParseRoleName(r: Role, s: string)
    ensures ParseRole(RoleName(r)) == Some(r)
    ensures ParseRole(s) == Some(r) ==> RoleName(r) == s
  {
  }

  /** The permission test ThreadService and ReplyService repeat on the role string
      carried by the token: the caller wrote the row, or is a moderator or an admin. */
  predicate AuthorOrStaff(authorId: int, userId: int, userRole: string)
  {
    authorId == userId || userRole == "MODERATOR" || userRole == "ADMIN"
  }

  lemma AuthorOrStaffByRole(authorId: int, userId: int, r: Role)
    ensures AuthorOrStaff(authorId, userId, RoleName(r)) <==> authorId == userId || IsStaff(r)
  {
  }

  /** A `users` row. */
  datatype User = User(
    username: string,
    email: string,
    password: string,
    role: Role,
    status: UserStatus,
    bio: Option<string>,
    avatar: Option<string>,
    createdAt: nat,
    updatedAt: nat,
    lastLoginAt: Option<nat>)

  const UsernameMax := 50
  const EmailMax := 100
  const BioMax := 500
  const AvatarMax := 255

  /** The column lengths the `users` table declares. */
  predicate FitsColumns(u: User)
  {
    |u.username| <= UsernameMax && |u.email| <= EmailMax &&
    (u.bio.None? || |u.bio.value| <= BioMax) && (u.avatar.None? || |u.avatar.value| <= AvatarMax)
  }

  /** `new User()` with its credentials set, as AuthService.register builds it. */
  function NewUser(username: string, email: string, encoded: string, now: nat): (u: User)
    ensures u.role == Role.User && u.status == Active
    ensures u.username == username && u.email == email && u.password == encoded
    ensures u.bio.None? && u.avatar.None? && u.lastLoginAt.None?
    ensures u.createdAt == now && u.updatedAt == now
  {
    User.User(username, email, encoded, Role.User, Active, None, None, now, now, None)
  }

  /** A `categories` row, as far as the services use it. */
  datatype Category = Category(name: string)

  /** A `tags` row. Tag.java is not part of this model; TagDAO's `findByName` returning
      one Optional makes the name a key. */
  datatype Tag = Tag(name: string)

  /** A `replies` row. */
  datatype Reply = Reply(
    content: string,
    threadId: int,
    authorId: int,
    isAnonymous: bool,
    createdAt: nat,
    updatedAt: nat)

  /** A `thread_subscriptions` row; the table is unique on (user_id, thread_id). */
  datatype Subscription = Subscription(userId: int, threadId: int, subscribedAt: nat)

  datatype NotificationType =
    | NewReply | ThreadLocked | ThreadPinned | UserBanned | UserMentioned | SystemAnnouncement

  /** A `notifications` row. Notification.java is not part of this model; its fields are
      the ones NotificationService sets. */
  datatype Notification = Notification(
    userId: int,
    kind: NotificationType,
    message: string,
    relatedThreadId: Option<int>,
    read: bool,
    createdAt: nat)

  /** A nullable `Boolean` read through the null-safe getters `isPinned()`/`isLocked()`. */
  function NullSafe(b: Option<bool>): (r: bool)
    ensures r <==> b == Some(true)
  {
    b.Some? && b.value
  }

  /** A nullable `Integer` read through `getViewCount()`. */
  function OrZero(v: Option<int>): (r: int)
    ensures v.None? ==> r == 0
    ensures v.Some? ==> r == v.value
  {
    if v.Some? then v.value else 0
  }

  /** Every column of a thread, for stating what a change leaves alone. */
  datatype ThreadFields = ThreadFields(
    title: string,
    content: string,
    isAnonymous: Option<bool>,
    isPinned: Option<bool>,
    isLocked: Option<bool>,
    views: Option<int>,
    createdAt: nat,
    updatedAt: nat,
    lastReplyAt: Option<nat>,
    authorId: int,
    categoryId: int,
    tagIds: seq<int>)

  /** `setPinned(!isPinned())` as togglePin performs it, and the save that stamps
      `updatedAt` (`@UpdateTimestamp`). */
  function PinToggled(f: ThreadFields, now: nat): ThreadFields
  {
    f.(isPinned := Some(!NullSafe(f.isPinned)), updatedAt := now)
  }

  function LockToggled(f: ThreadFields, now: nat): ThreadFields
  {
    f.(isLocked := Some(!NullSafe(f.isLocked)), updatedAt := now)
  }

  /** A toggle flips what the getter reports, and touches no flag but its own. */
  lemma ToggleFlips(f: ThreadFields, now: nat)
    ensures NullSafe(PinToggled(f, now).isPinned) == !NullSafe(f.isPinned)
    ensures PinToggled(f, now).isLocked == f.isLocked
    ensures NullSafe(LockToggled(f, now).isLocked) == !NullSafe(f.isLocked)
    ensures LockToggled(f, now).isPinned == f.isPinned
  {
  }

  /** Toggling twice restores the thread except for the save's timestamp; a null flag
      comes back as an explicit `false`, which the getter cannot tell apart. */
  lemma ToggleTwice(f: ThreadFields, t1: nat, t2: nat)
    ensures PinToggled(PinToggled(f, t1), t2) ==
      f.(isPinned := Some(NullSafe(f.isPinned)), updatedAt := t2)
    ensures LockToggled(LockToggled(f, t1), t2) ==
      f.(isLocked := Some(NullSafe(f.isLocked)), updatedAt := t2)
    ensures f.isPinned.Some? && f.isLocked.Some? ==>
      PinToggled(PinToggled(f, t1), f.updatedAt) == f && LockToggled(LockToggled(f, t1), f.updatedAt) == f
  {
  }

  /** A `threads` row as the entity object Hibernate hands to the services. */
  class Thread {
    var title: string
    var content: string
    var isAnonymous: Option<bool>
    var isPinned: Option<bool>
    var isLocked: Option<bool>
    var views: Option<int>
    var createdAt: nat
    var updatedAt: nat
    var lastReplyAt: Option<nat>
    var authorId: int
    var categoryId: int
    var tagIds: seq<int>

    function Fields(): ThreadFields
      reads this
    {
      ThreadFields(title, content, isAnonymous, isPinned, isLocked, views, createdAt, updatedAt,
                   lastReplyAt, authorId, categoryId, tagIds)
    }

    /** `new Thread()` with the columns createThread sets: the field initialisers leave
        it unpinned, unlocked, not anonymous, with no views, no reply and no tags. */
    constructor (title: string, content: string, authorId: int, categoryId: int, now: nat)
      ensures Fields() == ThreadFields(title, content, Some(false), Some(false), Some(false), Some(0),
                                       now, now, None, authorId, categoryId, [])
    {
      this.title, this.content := title, content;
      isAnonymous, isPinned, isLocked, views := Some(false), Some(false), Some(false), Some(0);
      createdAt, updatedAt, lastReplyAt := now, now, None;
      this.authorId, this.categoryId, tagIds := authorId, categoryId, [];
    }

    /** `isPinned()`: a null flag reads as false. */
    function IsPinned(): (r: bool)
      reads this
      ensures r <==> isPinned == Some(true)
    {
      NullSafe(isPinned)
    }

    /** `isLocked()`: a null flag reads as false. */
    function IsLocked(): (r: bool)
      reads this
      ensures r <==> isLocked == Some(true)
    {
      NullSafe(isLocked)
    }

    /** `getViewCount()`: a null counter reads as 0. */
    function ViewCount(): (r: int)
      reads this
      ensures views.None? ==> r == 0
      ensures views.Some? ==> r == views.value
    {
      OrZero(views)
    }

    method SetPinned(pinned: bool)
      modifies this
      ensures Fields() == old(Fields()).(isPinned := Some(pinned))
      ensures IsPinned() == pinned
    {
      isPinned := Some(pinned);
    }

    method SetLocked(locked: bool)
      modifies this
      ensures Fields() == old(Fields()).(isLocked := Some(locked))
      ensures IsLocked() == locked
    {
      isLocked := Some(locked);
    }

    method SetViewCount(count: Option<int>)
      modifies this
      ensures Fields() == old(Fields()).(views := count)
      ensures ViewCount() == OrZero(count)
    {
      views := count;
    }
  }
}
