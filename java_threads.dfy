/** ThreadService of the Spring backend (service/ThreadService.java). Each public method
    is `@Transactional`: when it throws, the database keeps its previous state, so the
    model checks every failure before it writes. `userRole` is the role name the
    controller takes from the token. */
module JavaThreads {
  import opened Options
  import opened Roles
  import opened JavaErrors
  import opened JavaModel
  import opened JavaStore

  /** The page size `getThreadsByCategory` asks for. */
  const CategoryPageSize := 100

  /** What convertToDetailDTO copies out of a thread. */
  datatype ThreadView = ThreadView(
    id: int,
    title: string,
    content: string,
    authorId: int,
    categoryId: int,
    viewCount: int,
    pinned: bool,
    locked: bool,
    createdAt: nat,
    updatedAt: nat,
    tagIds: seq<int>)

  function View(id: int, f: ThreadFields): ThreadView
  {
    ThreadView(id, f.title, f.content, f.authorId, f.categoryId, OrZero(f.views),
               NullSafe(f.isPinned), NullSafe(f.isLocked), f.createdAt, f.updatedAt, f.tagIds)
  }

  /** The native `UPDATE threads SET views = views + 1`: SQL arithmetic keeps NULL. */
  function Incremented(views: Option<int>): (r: Option<int>)
    ensures views.None? ==> r.None?
    ensures views.Some? ==> r == Some(views.value + 1)
  {
    if views.Some? then Some(views.value + 1) else None
  }

  /** getThreadById. The counter is bumped by a native query that bypasses the loaded
      entity, so the returned view carries the count from before this read. When the
      increment fails the error is swallowed and the read still succeeds. */
  method GetThreadById(f: Forum, id: int, incrementFails: bool) returns (out: Outcome<ThreadView>)
    requires f.Valid()
    modifies if id in f.threads then {f.threads[id]} else {}
    ensures id !in f.threads ==> out == Threw(Thrown(ResourceNotFoundException, None))
    ensures id in f.threads ==>
      out == Ok(View(id, old(f.threads[id].Fields()))) &&
      f.threads[id].Fields() ==
        (if incrementFails then old(f.threads[id].Fields())
         else old(f.threads[id].Fields()).(views := Incremented(old(f.threads[id].views))))
  {
    if id !in f.threads {
      return Threw(Thrown(ResourceNotFoundException, None));
    }
    var t := f.threads[id];
    var before := t.Fields();
    if !incrementFails {
      t.SetViewCount(Incremented(t.views));
    }
    out := Ok(View(id, before));
  }

  /** `Incremented` is exactly one more view whenever the counter is set, and a later
      read reports it. */
  lemma IncrementCounts(f: ThreadFields)
    requires f.views.Some?
    ensures OrZero(Incremented(f.views)) == OrZero(f.views) + 1
    ensures View(0, f.(views := Incremented(f.views))).viewCount == View(0, f).viewCount + 1
  {
  }

  /** `ids` names, position by position, the tag rows of `names`. */
  predicate Resolved(ids: seq<int>, names: seq<string>, tags: map<int, Tag>)
  {
    |ids| == |names| && forall i | 0 <= i < |ids| :: ids[i] in tags && tags[ids[i]].name == names[i]
  }

  /** Every name resolved to a tag row: the existing one with that name, or one saved
      now. Names repeated in the request share the row the first occurrence created. */
  method ResolveTags(f: Forum, names: seq<string>) returns (ids: seq<int>)
    requires f.Valid()
    modifies f`tags, f`nextTagId
    ensures f.Valid()
    ensures Resolved(ids, names, f.tags)
    ensures forall k | k in old(f.tags) :: k in f.tags && f.tags[k] == old(f.tags[k])
    ensures forall k | k in f.tags && k !in old(f.tags) ::
      f.tags[k].name in names && forall j | j in old(f.tags) :: old(f.tags[j]).name != f.tags[k].name
  {
    ids, f.tags, f.nextTagId := ResolveIn(f.tags, f.nextTagId, names);
  }

  /** The lookups and saves of ResolveTags, over the tag table and its id counter. */
  method ResolveIn(tags: map<int, Tag>, next: int, names: seq<string>)
    returns (ids: seq<int>, saved: map<int, Tag>, after: int)
    requires UniqueTagNames(tags) && Below(tags, next)
    ensures UniqueTagNames(saved) && Below(saved, after)
    ensures Resolved(ids, names, saved)
    ensures forall k | k in tags :: k in saved && saved[k] == tags[k]
    ensures forall k | k in saved && k !in tags ::
      saved[k].name in names && forall j | j in tags :: tags[j].name != saved[k].name
  {
    ids, saved, after := [], tags, next;
    var i := 0;
    while i < |names|
      invariant 0 <= i <= |names|
      invariant UniqueTagNames(saved) && Below(saved, after)
      invariant Resolved(ids, names[..i], saved)
      invariant forall k | k in tags :: k in saved && saved[k] == tags[k]
      invariant forall k | k in saved && k !in tags ::
        saved[k].name in names[..i] && forall j | j in tags :: tags[j].name != saved[k].name
    {
      var name := names[i];
      if exists k | k in saved :: saved[k].name == name {
        var k :| k in saved && saved[k].name == name;
        ids := ids + [k];
      } else {
        saved, after := saved[after := Tag(name)], after + 1;
        ids := ids + [after - 1];
      }
      i := i + 1;
    }
    assert names[..i] == names;
  }

  /** `threadDAO.save` of a new entity: it gets the next id. */
  method SaveThread(f: Forum, t: Thread) returns (id: int)
    requires f.Valid()
    requires forall k | k in f.threads :: f.threads[k] != t
    modifies f`threads, f`nextThreadId
    ensures f.Valid()
    ensures id == old(f.nextThreadId) && id !in old(f.threads)
    ensures f.threads == old(f.threads)[id := t] && f.nextThreadId == id + 1
  {
    id := f.nextThreadId;
    f.threads, f.nextThreadId := f.threads[id := t], f.nextThreadId + 1;
  }

  /** createThread. The author and the category must exist; the new thread starts
      unpinned, unlocked and unread; the request's `isAnonymous` is not copied. */
  method CreateThread(f: Forum, title: string, content: string, categoryId: int,
                      tagNames: Option<seq<string>>, userId: int, now: nat)
    returns (out: Outcome<ThreadView>)
    requires f.Valid()
    modifies f`threads, f`nextThreadId, f`tags, f`nextTagId
    ensures f.Valid()
    ensures f.users == old(f.users) && f.categories == old(f.categories) && f.replies == old(f.replies)
    ensures f.subscriptions == old(f.subscriptions) && f.notifications == old(f.notifications)
    ensures userId !in old(f.users) ==>
      out == Threw(Fail("User not found")) && f.threads == old(f.threads) && f.tags == old(f.tags)
    ensures userId in old(f.users) && categoryId !in old(f.categories) ==>
      out == Threw(Fail("Category not found")) && f.threads == old(f.threads) && f.tags == old(f.tags)
    ensures userId in old(f.users) && categoryId in old(f.categories) ==>
      var id := old(f.nextThreadId);
      id !in old(f.threads) && id in f.threads && fresh(f.threads[id]) &&
      f.threads == old(f.threads)[id := f.threads[id]] &&
      f.threads[id].Fields() == ThreadFields(title, content, Some(false), Some(false), Some(false), Some(0),
                                             now, now, None, userId, categoryId, f.threads[id].tagIds) &&
      out == Ok(View(id, f.threads[id].Fields())) &&
      Resolved(f.threads[id].tagIds, if tagNames.Some? then tagNames.value else [], f.tags) &&
      (forall k | k in old(f.tags) :: k in f.tags && f.tags[k] == old(f.tags[k]))
  {
    if userId !in f.users {
      return Threw(Fail("User not found"));
    }
    if categoryId !in f.categories {
      return Threw(Fail("Category not found"));
    }
    var t := NewThread(f, title, content, categoryId, tagNames, userId, now);
    var id := SaveThread(f, t);
    out := Ok(View(id, t.Fields()));
  }

  /** The entity createThread fills in before saving it: the columns it sets, and the
      tags it finds or creates by name. */
  method NewThread(f: Forum, title: string, content: string, categoryId: int,
                   tagNames: Option<seq<string>>, userId: int, now: nat) returns (t: Thread)
    requires f.Valid()
    modifies f`tags, f`nextTagId
    ensures f.Valid() && fresh(t)
    ensures t.Fields() == ThreadFields(title, content, Some(false), Some(false), Some(false), Some(0),
                                       now, now, None, userId, categoryId, t.tagIds)
    ensures Resolved(t.tagIds, if tagNames.Some? then tagNames.value else [], f.tags)
    ensures forall k | k in old(f.tags) :: k in f.tags && f.tags[k] == old(f.tags[k])
  {
    t := new Thread(title, content, userId, categoryId, now);
    if tagNames.Some? && tagNames.value != [] {
      var ids := ResolveTags(f, tagNames.value);
      t.tagIds := ids;
    }
  }

  /** updateThread. Title and content are overwritten; the category changes only when
      one is supplied, and an unknown one aborts the whole update. */
  method UpdateThread(f: Forum, threadId: int, title: string, content: string, categoryId: Option<int>,
                      userId: int, userRole: string, now: nat) returns (out: Outcome<ThreadView>)
    requires f.Valid()
    modifies if threadId in f.threads then {f.threads[threadId]} else {}
    ensures threadId !in f.threads ==> out == Threw(Fail("Thread not found"))
    ensures threadId in f.threads ==>
      var before := old(f.threads[threadId].Fields());
      if !AuthorOrStaff(before.authorId, userId, userRole) then
        out == Threw(Fail("Unauthorized to edit this thread")) && f.threads[threadId].Fields() == before
      else if categoryId.Some? && categoryId.value !in f.categories then
        out == Threw(Fail("Category not found")) && f.threads[threadId].Fields() == before
      else
        var after := before.(title := title, content := content, updatedAt := now,
                             categoryId := if categoryId.Some? then categoryId.value else before.categoryId);
        f.threads[threadId].Fields() == after && out == Ok(View(threadId, after))
  {
    if threadId !in f.threads {
      return Threw(Fail("Thread not found"));
    }
    var t := f.threads[threadId];
    if !AuthorOrStaff(t.authorId, userId, userRole) {
      return Threw(Fail("Unauthorized to edit this thread"));
    }
    if categoryId.Some? && categoryId.value !in f.categories {
      return Threw(Fail("Category not found"));
    }
    t.title, t.content, t.updatedAt := title, content, now;
    if categoryId.Some? {
      t.categoryId := categoryId.value;
    }
    out := Ok(View(threadId, t.Fields()));
  }

  /** The rows that survive deleting the threads in `gone`, where `threadOf` names the
      thread a row belongs to: a thread's replies and subscriptions go with it
      (`CascadeType.ALL`). */
  function Outside<T>(rows: map<int, T>, threadOf: T -> int, gone: set<int>): (r: map<int, T>)
    ensures forall k :: k in r <==> k in rows && threadOf(rows[k]) !in gone
    ensures forall k | k in r :: r[k] == rows[k]
  {
    map k | k in rows && threadOf(rows[k]) !in gone :: rows[k]
  }

  function ReplyThread(r: Reply): int
  {
    r.threadId
  }

  function SubscriptionThread(s: Subscription): int
  {
    s.threadId
  }

  /** Deleting threads and their dependants keeps the store consistent. */
  lemma DeleteThreadsKeeps(f: Forum, gone: set<int>)
    requires f.Valid()
    ensures
      var threads := map k | k in f.threads && k !in gone :: f.threads[k];
      var replies := Outside(f.replies, ReplyThread, gone);
      DistinctObjects(threads) && (forall r | r in replies :: replies[r].threadId in threads) &&
      Below(threads, f.nextThreadId) && Below(replies, f.nextReplyId) &&
      UniquePairs(Outside(f.subscriptions, SubscriptionThread, gone)) &&
      Below(Outside(f.subscriptions, SubscriptionThread, gone), f.nextSubscriptionId)
  {
  }

  /** deleteThread: only the author or staff may delete; replies and subscriptions of
      the thread go with it, tags and notifications stay. */
  method DeleteThread(f: Forum, threadId: int, userId: int, userRole: string) returns (err: Option<Thrown>)
    requires f.Valid()
    modifies f`threads, f`replies, f`subscriptions
    ensures f.Valid()
    ensures threadId !in old(f.threads) ==> err == Some(Fail("Thread not found")) && f.threads == old(f.threads)
    ensures threadId in old(f.threads) ==>
      if !AuthorOrStaff(old(f.threads[threadId].authorId), userId, userRole) then
        err == Some(Fail("Unauthorized to delete this thread")) && f.threads == old(f.threads) &&
        f.replies == old(f.replies) && f.subscriptions == old(f.subscriptions)
      else
        err.None? && f.threads == old(f.threads) - {threadId} &&
        f.replies == Outside(old(f.replies), ReplyThread, {threadId}) &&
        f.subscriptions == Outside(old(f.subscriptions), SubscriptionThread, {threadId})
  {
    if threadId !in f.threads {
      return Some(Fail("Thread not found"));
    }
    if !AuthorOrStaff(f.threads[threadId].authorId, userId, userRole) {
      return Some(Fail("Unauthorized to delete this thread"));
    }
    DropThreads(f, {threadId});
    err := None;
  }

  /** `threadDAO.delete`/`deleteAll` of the threads in `gone`: the entity's cascades take
      their replies and subscriptions along. */
  method DropThreads(f: Forum, gone: set<int>)
    requires f.Valid()
    modifies f`threads, f`replies, f`subscriptions
    ensures f.Valid()
    ensures f.threads == old(f.threads) - gone
    ensures f.replies == Outside(old(f.replies), ReplyThread, gone)
    ensures f.subscriptions == Outside(old(f.subscriptions), SubscriptionThread, gone)
  {
    DeleteThreadsKeeps(f, gone);
    assert f.threads - gone == map k | k in f.threads && k !in gone :: f.threads[k];
    f.threads, f.replies, f.subscriptions :=
      f.threads - gone, Outside(f.replies, ReplyThread, gone), Outside(f.subscriptions, SubscriptionThread, gone);
  }

  /** togglePin, behind `hasAnyRole('MODERATOR', 'ADMIN')`: flips the pin and saves. */
  method TogglePin(f: Forum, threadId: int, caller: Role, now: nat) returns (err: Option<Thrown>)
    requires IsStaff(caller)
    requires f.Valid()
    modifies if threadId in f.threads then {f.threads[threadId]} else {}
    ensures threadId !in f.threads ==> err == Some(Fail("Thread not found"))
    ensures threadId in f.threads ==>
      err.None? && f.threads[threadId].Fields() == PinToggled(old(f.threads[threadId].Fields()), now)
  {
    if threadId !in f.threads {
      return Some(Fail("Thread not found"));
    }
    var t := f.threads[threadId];
    t.SetPinned(!t.IsPinned());
    t.updatedAt := now;
    err := None;
  }

  /** toggleLock, behind `hasAnyRole('MODERATOR', 'ADMIN')`: flips the lock and saves. */
  method ToggleLock(f: Forum, threadId: int, caller: Role, now: nat) returns (err: Option<Thrown>)
    requires IsStaff(caller)
    requires f.Valid()
    modifies if threadId in f.threads then {f.threads[threadId]} else {}
    ensures threadId !in f.threads ==> err == Some(Fail("Thread not found"))
    ensures threadId in f.threads ==>
      err.None? && f.threads[threadId].Fields() == LockToggled(old(f.threads[threadId].Fields()), now)
  {
    if threadId !in f.threads {
      return Some(Fail("Thread not found"));
    }
    var t := f.threads[threadId];
    t.SetLocked(!t.IsLocked());
    t.updatedAt := now;
    err := None;
  }

  /** The ids of the ascending `scan` whose category, in `cats`, is `categoryId`, in scan
      order: what `findByCategoryId` meets. */
  function InCategory(scan: seq<int>, cats: map<int, int>, categoryId: int): (r: seq<int>)
    requires forall k | k in scan :: k in cats
    ensures forall k :: k in r <==> k in scan && cats[k] == categoryId
    ensures (forall i, j | 0 <= i < j < |scan| :: scan[i] < scan[j]) ==>
      forall i, j | 0 <= i < j < |r| :: r[i] < r[j]
    decreases |scan|
  {
    if scan == [] then []
    else
      var last := scan[|scan| - 1];
      var prev := InCategory(scan[..|scan| - 1], cats, categoryId);
      assert forall k :: k in scan <==> k in scan[..|scan| - 1] || k == last;
      assert forall i | 0 <= i < |prev| :: prev[i] in scan[..|scan| - 1];
      if cats[last] == categoryId then prev + [last] else prev
  }

  /** The category of every stored thread. */
  function CategoryOf(f: Forum): (m: map<int, int>)
    reads f, f.threads.Values
    ensures m.Keys == f.threads.Keys
    ensures forall k | k in m :: m[k] == f.threads[k].categoryId
  {
    map k | k in f.threads :: f.threads[k].categoryId
  }

  /** getThreadsByCategory: the first page of 100 threads of the category. The query
      names no sort order; the model scans by id, and promises only that the page is
      a duplicate-free selection of the category's threads, all of them when there are
      fewer than 100. */
  function ThreadsByCategory(f: Forum, categoryId: int): (ids: seq<int>)
    reads f, f.threads.Values
    requires f.Valid()
    ensures |ids| <= CategoryPageSize
    ensures forall i, j | 0 <= i < j < |ids| :: ids[i] != ids[j]
    ensures forall k | k in ids :: k in f.threads && f.threads[k].categoryId == categoryId
    ensures |ids| < CategoryPageSize ==>
      forall k | k in f.threads && f.threads[k].categoryId == categoryId :: k in ids
  {
    var all := InCategory(KeysBelow(f.threads, f.nextThreadId), CategoryOf(f), categoryId);
    if |all| <= CategoryPageSize then all
    else
      assert forall i, j | 0 <= i < j < CategoryPageSize :: all[..CategoryPageSize][i] == all[i] && all[..CategoryPageSize][j] == all[j];
      assert forall k | k in all[..CategoryPageSize] :: k in all;
      all[..CategoryPageSize]
  }
}
