/** The database behind the Spring DAOs, held in memory: one map per table, keyed by
    the IDENTITY id, and one id counter per table. The derived queries of the DAO
    interfaces (`findByEmail`, `existsByUsername`, `findByThreadId`, ...) become
    quantifiers and comprehensions over these maps. */
module JavaStore {
  import opened Options
  import opened JavaModel

  /** `username` and `email` are each unique (User.java's `unique = true`). */
  ghost predicate UniqueAccounts(users: map<int, User>)
  {
    forall a, b | a in users && b in users && a != b ::
      users[a].username != users[b].username && users[a].email != users[b].email
  }

  /** Tag names are unique. */
  ghost predicate UniqueTagNames(tags: map<int, Tag>)
  {
    forall a, b | a in tags && b in tags && a != b :: tags[a].name != tags[b].name
  }

  /** The unique constraint on (user_id, thread_id) of `thread_subscriptions`. */
  ghost predicate UniquePairs(subscriptions: map<int, Subscription>)
  {
    forall a, b | a in subscriptions && b in subscriptions && a != b ::
      subscriptions[a].userId != subscriptions[b].userId ||
      subscriptions[a].threadId != subscriptions[b].threadId
  }

  /** Each thread id stands for its own entity object. */
  ghost predicate DistinctObjects(threads: map<int, Thread>)
  {
    forall a, b | a in threads && b in threads && a != b :: threads[a] != threads[b]
  }

  /** Every id is positive and lies below its table's counter, so the next insert gets
      a fresh one. */
  ghost predicate Below<T>(rows: map<int, T>, next: int)
  {
    1 <= next && forall id | id in rows :: 0 < id < next
  }

  /** The ids of `rows` below `n`, ascending: the order a scan by primary key meets them. */
  function KeysBelow<T>(rows: map<int, T>, n: int): (r: seq<int>)
    ensures forall k :: k in r <==> k in rows && 0 < k < n
    ensures forall i, j | 0 <= i < j < |r| :: r[i] < r[j]
    decreases n
  {
    if n <= 1 then []
    else
      var prefix := KeysBelow(rows, n - 1);
      assert forall i | 0 <= i < |prefix| :: prefix[i] in prefix;
      prefix + (if n - 1 in rows then [n - 1] else [])
  }

  predicate EmailTaken(users: map<int, User>, email: string)
  {
    exists k | k in users :: users[k].email == email
  }

  predicate UsernameTaken(users: map<int, User>, username: string)
  {
    exists k | k in users :: users[k].username == username
  }

  /** The id `findByEmail` returns; unique by UniqueAccounts. */
  ghost function UserWithEmail(users: map<int, User>, email: string): (k: int)
    requires EmailTaken(users, email)
    ensures k in users && users[k].email == email
  {
    var k :| k in users && users[k].email == email; k
  }

  lemma EmailDetermines(users: map<int, User>, email: string, k: int)
    requires UniqueAccounts(users) && k in users && users[k].email == email
    ensures EmailTaken(users, email) && UserWithEmail(users, email) == k
  {
  }

  class Forum {
    var users: map<int, User>
    var categories: map<int, Category>
    var threads: map<int, Thread>
    var replies: map<int, Reply>
    var tags: map<int, Tag>
    var subscriptions: map<int, Subscription>
    var notifications: map<int, Notification>
    var nextUserId: int
    var nextThreadId: int
    var nextReplyId: int
    var nextTagId: int
    var nextSubscriptionId: int
    var nextNotificationId: int

    /** The constraints the schema declares and the id generators keep; every reply
        belongs to a thread (the `thread_id` foreign key). */
    ghost predicate Valid()
      reads this
    {
      UniqueAccounts(users) && UniqueTagNames(tags) && UniquePairs(subscriptions) &&
      DistinctObjects(threads) &&
      (forall r | r in replies :: replies[r].threadId in threads) &&
      Below(users, nextUserId) && Below(threads, nextThreadId) && Below(replies, nextReplyId) &&
      Below(tags, nextTagId) && Below(subscriptions, nextSubscriptionId) &&
      Below(notifications, nextNotificationId)
    }

    /** An empty database whose categories are the seeded ones. */
    constructor (categories: map<int, Category>)
      ensures Valid()
      ensures users == map[] && threads == map[] && replies == map[] && tags == map[]
      ensures subscriptions == map[] && notifications == map[]
      ensures this.categories == categories
    {
      users, threads, replies, tags := map[], map[], map[], map[];
      subscriptions, notifications := map[], map[];
      this.categories := categories;
      nextUserId, nextThreadId, nextReplyId, nextTagId, nextSubscriptionId, nextNotificationId := 1, 1, 1, 1, 1, 1;
    }
  }
}
