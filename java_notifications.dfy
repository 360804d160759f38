/** NotificationService of the Spring backend (service/NotificationService.java): a user's
    notifications, marking them read, deleting them, thread subscriptions and the
    fan-out of a NEW_REPLY notification to a thread's subscribers. */
module JavaNotifications {
  import opened Options
  import opened JavaErrors
  import opened JavaModel
  import opened JavaStore

  /** The ids in the ascending `scan` whose notification belongs to `userId` and, when
      `unreadOnly`, is still unread; in scan order. */
  function OwnedBy(scan: seq<int>, notes: map<int, Notification>, userId: int, unreadOnly: bool): (r: seq<int>)
    requires forall k | k in scan :: k in notes
    requires forall i, j | 0 <= i < j < |scan| :: scan[i] < scan[j]
    ensures forall k :: k in r <==> k in scan && notes[k].userId == userId && (unreadOnly ==> !notes[k].read)
    ensures forall i, j | 0 <= i < j < |r| :: r[i] < r[j]
    decreases |scan|
  {
    if scan == [] then []
    else
      assert scan[0] in scan;
      var rest := OwnedBy(scan[1..], notes, userId, unreadOnly);
      if notes[scan[0]].userId == userId && (unreadOnly ==> !notes[scan[0]].read) then
        assert forall i | 0 <= i < |rest| :: rest[i] in scan[1..];
        assert forall i | 0 <= i < |rest| :: scan[0] < rest[i];
        [scan[0]] + rest
      else rest
  }

  /** getUserNotifications (`findByUserId`): the ids of exactly the user's notifications,
      in id order. */
  function UserNotifications(f: Forum, userId: int): (r: seq<int>)
    requires f.Valid()
    reads f
    ensures forall k :: k in r <==> k in f.notifications && f.notifications[k].userId == userId
    ensures forall i, j | 0 <= i < j < |r| :: r[i] < r[j]
  {
    OwnedBy(KeysBelow(f.notifications, f.nextNotificationId), f.notifications, userId, false)
  }

  /** getUnreadNotifications (`findByUserIdAndIsRead(userId, false)`): exactly the user's
      unread notifications, in id order. */
  function UnreadNotifications(f: Forum, userId: int): (r: seq<int>)
    requires f.Valid()
    reads f
    ensures forall k :: k in r <==> k in f.notifications && f.notifications[k].userId == userId && !f.notifications[k].read
    ensures forall i, j | 0 <= i < j < |r| :: r[i] < r[j]
  {
    OwnedBy(KeysBelow(f.notifications, f.nextNotificationId), f.notifications, userId, true)
  }

  /** markAsRead: only the owner may mark; marking is idempotent since it sets the flag. */
  method MarkAsRead(f: Forum, notificationId: int, userId: int) returns (err: Option<Thrown>)
    requires f.Valid()
    modifies f`notifications
    ensures f.Valid()
    ensures notificationId !in old(f.notifications) ==>
      err == Some(Fail("Notification not found")) && f.notifications == old(f.notifications)
    ensures notificationId in old(f.notifications) && old(f.notifications[notificationId]).userId != userId ==>
      err == Some(Fail("Unauthorized")) && f.notifications == old(f.notifications)
    ensures notificationId in old(f.notifications) && old(f.notifications[notificationId]).userId == userId ==>
      err.None? &&
      f.notifications == old(f.notifications)[notificationId := old(f.notifications[notificationId]).(read := true)]
  {
    if notificationId !in f.notifications {
      return Some(Fail("Notification not found"));
    }
    if f.notifications[notificationId].userId != userId {
      return Some(Fail("Unauthorized"));
    }
    SetRead(f, notificationId);
    err := None;
  }

  /** The table after every notification of `userId` has been marked read. */
  function AllRead(notes: map<int, Notification>, userId: int): map<int, Notification>
  {
    map k | k in notes :: if notes[k].userId == userId then notes[k].(read := true) else notes[k]
  }

  /** After markAllAsRead the user has nothing unread, and nobody else's notification
      has changed. */
  lemma AllReadMeans(notes: map<int, Notification>, userId: int)
    ensures AllRead(notes, userId).Keys == notes.Keys
    ensures forall k | k in notes && notes[k].userId == userId :: AllRead(notes, userId)[k].read
    ensures forall k | k in notes && notes[k].userId != userId :: AllRead(notes, userId)[k] == notes[k]
    ensures forall k | k in notes :: AllRead(notes, userId)[k] == notes[k].(read := AllRead(notes, userId)[k].read)
  {
  }

  /** The table after the notifications `ids` have been set read. */
  function ReadAmong(notes: map<int, Notification>, ids: seq<int>): (m: map<int, Notification>)
    ensures m.Keys == notes.Keys
  {
    map k | k in notes :: if k in ids then notes[k].(read := true) else notes[k]
  }

  lemma ReadAmongStep(notes: map<int, Notification>, ids: seq<int>, n: int)
    requires n in notes
    ensures ReadAmong(notes, ids + [n]) == ReadAmong(notes, ids)[n := notes[n].(read := true)]
  {
    var a := ReadAmong(notes, ids + [n]);
    var b := ReadAmong(notes, ids)[n := notes[n].(read := true)];
    forall k | k in a
      ensures a[k] == b[k]
    {
      assert k in ids + [n] <==> k in ids || k == n;
    }
  }

  /** Setting the user's unread notifications read is setting all the user's ones read. */
  lemma ReadAmongUnread(notes: map<int, Notification>, ids: seq<int>, userId: int)
    requires forall k :: k in ids <==> k in notes && notes[k].userId == userId && !notes[k].read
    ensures ReadAmong(notes, ids) == AllRead(notes, userId)
  {
    var a := ReadAmong(notes, ids);
    var b := AllRead(notes, userId);
    forall k | k in a
      ensures a[k] == b[k]
    {
      if notes[k].userId == userId && notes[k].read {
        assert notes[k].(read := true) == notes[k];
      }
    }
  }

  /** `n.setRead(true)` on one loaded notification, flushed with the transaction. */
  method SetRead(f: Forum, n: int)
    requires f.Valid() && n in f.notifications
    modifies f`notifications
    ensures f.Valid()
    ensures f.notifications == old(f.notifications)[n := old(f.notifications[n]).(read := true)]
  {
    f.notifications := f.notifications[n := f.notifications[n].(read := true)];
  }

  /** markAllAsRead: loads the user's unread notifications and sets each one read. */
  method MarkAllAsRead(f: Forum, userId: int)
    requires f.Valid()
    modifies f`notifications
    ensures f.Valid()
    ensures f.notifications == AllRead(old(f.notifications), userId)
  {
    var unread := UnreadNotifications(f, userId);
    ReadAmongUnread(f.notifications, unread, userId);
    assert forall j | 0 <= j < |unread| :: unread[j] in unread;
    f.notifications := ReadEach(f.notifications, unread);
  }

  /** The loop of markAllAsRead: `setRead(true)` on each loaded notification in turn. */
  method ReadEach(notes: map<int, Notification>, ids: seq<int>) returns (m: map<int, Notification>)
    requires forall j | 0 <= j < |ids| :: ids[j] in notes
    ensures m == ReadAmong(notes, ids)
  {
    m := notes;
    var i := 0;
    assert m == ReadAmong(notes, ids[..0]);
    while i < |ids|
      invariant 0 <= i <= |ids|
      invariant m == ReadAmong(notes, ids[..i])
    {
      var n := ids[i];
      ReadAmongStep(notes, ids[..i], n);
      assert ids[..i + 1] == ids[..i] + [n];
      m := m[n := m[n].(read := true)];
      i := i + 1;
    }
    assert ids[..i] == ids;
  }

  /** deleteNotification: only the owner may delete. */
  method DeleteNotification(f: Forum, notificationId: int, userId: int) returns (err: Option<Thrown>)
    requires f.Valid()
    modifies f`notifications
    ensures f.Valid()
    ensures notificationId !in old(f.notifications) ==>
      err == Some(Fail("Notification not found")) && f.notifications == old(f.notifications)
    ensures notificationId in old(f.notifications) && old(f.notifications[notificationId]).userId != userId ==>
      err == Some(Fail("Unauthorized")) && f.notifications == old(f.notifications)
    ensures notificationId in old(f.notifications) && old(f.notifications[notificationId]).userId == userId ==>
      err.None? && f.notifications == old(f.notifications) - {notificationId}
  {
    if notificationId !in f.notifications {
      return Some(Fail("Notification not found"));
    }
    if f.notifications[notificationId].userId != userId {
      return Some(Fail("Unauthorized"));
    }
    f.notifications := f.notifications - {notificationId};
    err := None;
  }

  /** `existsByUserIdAndThreadId`. */
  predicate Subscribed(subs: map<int, Subscription>, userId: int, threadId: int)
  {
    exists k | k in subs :: subs[k].userId == userId && subs[k].threadId == threadId
  }

  /** subscribeToThread. The service checks the user and an existing pair; a thread
      that does not exist is caught only by the `thread_id` foreign key when the row
      is saved. */
  method Subscribe(f: Forum, threadId: int, userId: int, now: nat) returns (err: Option<Thrown>)
    requires f.Valid()
    modifies f`subscriptions, f`nextSubscriptionId
    ensures f.Valid()
    ensures userId !in f.users ==> err == Some(Fail("User not found")) && f.subscriptions == old(f.subscriptions)
    ensures userId in f.users && Subscribed(old(f.subscriptions), userId, threadId) ==>
      err == Some(Fail("Already subscribed to this thread")) && f.subscriptions == old(f.subscriptions)
    ensures userId in f.users && !Subscribed(old(f.subscriptions), userId, threadId) && threadId !in f.threads ==>
      err == Some(Thrown(DataIntegrityViolationException, None)) && f.subscriptions == old(f.subscriptions)
    ensures userId in f.users && !Subscribed(old(f.subscriptions), userId, threadId) && threadId in f.threads ==>
      err.None? && old(f.nextSubscriptionId) !in old(f.subscriptions) &&
      f.subscriptions == old(f.subscriptions)[old(f.nextSubscriptionId) := Subscription(userId, threadId, now)]
    ensures Subscribed(f.subscriptions, userId, threadId) <==> err.None? || Subscribed(old(f.subscriptions), userId, threadId)
  {
    if userId !in f.users {
      return Some(Fail("User not found"));
    }
    if Subscribed(f.subscriptions, userId, threadId) {
      return Some(Fail("Already subscribed to this thread"));
    }
    if threadId !in f.threads {
      return Some(Thrown(DataIntegrityViolationException, None));
    }
    var id := f.nextSubscriptionId;
    f.subscriptions, f.nextSubscriptionId := f.subscriptions[id := Subscription(userId, threadId, now)], id + 1;
    assert f.subscriptions[id].userId == userId && f.subscriptions[id].threadId == threadId;
    err := None;
  }

  /** unsubscribeFromThread: removes exactly the one row of the pair. */
  method Unsubscribe(f: Forum, threadId: int, userId: int) returns (err: Option<Thrown>)
    requires f.Valid()
    modifies f`subscriptions
    ensures f.Valid()
    ensures !Subscribed(old(f.subscriptions), userId, threadId) ==>
      err == Some(Fail("Not subscribed to this thread")) && f.subscriptions == old(f.subscriptions)
    ensures Subscribed(old(f.subscriptions), userId, threadId) ==>
      err.None? && !Subscribed(f.subscriptions, userId, threadId) &&
      exists k | k in old(f.subscriptions) && old(f.subscriptions[k]).userId == userId && old(f.subscriptions[k]).threadId == threadId ::
        f.subscriptions == old(f.subscriptions) - {k}
  {
    if !Subscribed(f.subscriptions, userId, threadId) {
      return Some(Fail("Not subscribed to this thread"));
    }
    var k :| k in f.subscriptions && f.subscriptions[k].userId == userId && f.subscriptions[k].threadId == threadId;
    f.subscriptions := f.subscriptions - {k};
    err := None;
  }

  const NewReplyPrefix := "New reply in thread: "

  /** The notification notifyThreadSubscribers builds for one subscriber. */
  function NewReplyNote(userId: int, threadId: int, title: string, now: nat): Notification
  {
    Notification(userId, NewReply, NewReplyPrefix + title, Some(threadId), false, now)
  }

  /** The users the fan-out notifies, in the order of the subscription scan: the
      subscribers of `threadId` other than `author`. */
  function Recipients(scan: seq<int>, subs: map<int, Subscription>, threadId: int, author: int): (r: seq<int>)
    requires forall k | k in scan :: k in subs
    decreases |scan|
  {
    if scan == [] then []
    else
      var last := scan[|scan| - 1];
      var prev := Recipients(scan[..|scan| - 1], subs, threadId, author);
      if subs[last].threadId == threadId && subs[last].userId != author then prev + [subs[last].userId] else prev
  }

  /** The recipients are exactly the subscribers of the thread met by the scan, the
      author excepted. */
  lemma {:induction false} RecipientsMembers(scan: seq<int>, subs: map<int, Subscription>, threadId: int, author: int, u: int)
    requires forall k | k in scan :: k in subs
    ensures u in Recipients(scan, subs, threadId, author) <==>
      u != author && exists k | k in scan :: subs[k].threadId == threadId && subs[k].userId == u
    decreases |scan|
  {
    if scan != [] {
      var init := scan[..|scan| - 1];
      var last := scan[|scan| - 1];
      assert last in scan;
      assert forall k | k in scan :: k in init || k == last;
      RecipientsMembers(init, subs, threadId, author, u);
    }
  }

  /** No element occurs twice. */
  predicate Distinct(s: seq<int>)
  {
    forall i, j | 0 <= i < j < |s| :: s[i] != s[j]
  }

  /** No subscriber is notified twice: the scan meets each row once and a user
      subscribes to a thread at most once. */
  lemma {:induction false} RecipientsDistinct(scan: seq<int>, subs: map<int, Subscription>, threadId: int, author: int)
    requires forall k | k in scan :: k in subs
    requires Distinct(scan)
    requires UniquePairs(subs)
    ensures Distinct(Recipients(scan, subs, threadId, author))
    decreases |scan|
  {
    if scan != [] {
      var init := scan[..|scan| - 1];
      var last := scan[|scan| - 1];
      RecipientsDistinct(init, subs, threadId, author);
      var prev := Recipients(init, subs, threadId, author);
      if subs[last].threadId == threadId && subs[last].userId != author {
        forall k | k in init && subs[k].threadId == threadId
          ensures subs[k].userId != subs[last].userId
        {
          var i :| 0 <= i < |init| && init[i] == k;
          assert scan[i] == k && k != last;
        }
        RecipientsMembers(init, subs, threadId, author, subs[last].userId);
        assert subs[last].userId !in prev;
        var r := prev + [subs[last].userId];
        assert Recipients(scan, subs, threadId, author) == r;
        forall i, j | 0 <= i < j < |r|
          ensures r[i] != r[j]
        {
          assert r[i] == prev[i];
          if j == |prev| {
            assert r[i] in prev;
          } else {
            assert r[j] == prev[j];
          }
        }
      } else {
        assert Recipients(scan, subs, threadId, author) == prev;
      }
    }
  }

  /** The notifications the fan-out inserts, one per recipient, under consecutive ids
      from `base`. */
  function Fanout(base: int, users: seq<int>, threadId: int, title: string, now: nat): (m: map<int, Notification>)
    ensures forall n :: n in m <==> base <= n < base + |users|
    ensures forall n | n in m :: m[n] == NewReplyNote(users[n - base], threadId, title, now)
    decreases |users|
  {
    if users == [] then map[]
    else
      var prev := Fanout(base, users[..|users| - 1], threadId, title, now);
      prev[base + |users| - 1 := NewReplyNote(users[|users| - 1], threadId, title, now)]
  }

  /** The fan-out takes ids from the counter up, so every id stays below the advanced
      counter. */
  lemma FanoutBelow(notes: map<int, Notification>, base: int, users: seq<int>, threadId: int, title: string, now: nat)
    requires Below(notes, base)
    ensures Below(notes + Fanout(base, users, threadId, title, now), base + |users|)
  {
  }

  /** The scan of one more subscription row adds at most one recipient. */
  lemma RecipientsStep(scan: seq<int>, i: int, subs: map<int, Subscription>, threadId: int, author: int)
    requires 0 <= i < |scan| && forall k | k in scan :: k in subs
    ensures Recipients(scan[..i + 1], subs, threadId, author) ==
      Recipients(scan[..i], subs, threadId, author) +
      (if subs[scan[i]].threadId == threadId && subs[scan[i]].userId != author then [subs[scan[i]].userId] else [])
  {
    assert scan[..i + 1][..i] == scan[..i];
  }

  /** The recipients after one more scanned row, in the form the fan-out loop keeps. */
  lemma RecipientsNext(scan: seq<int>, i: int, subs: map<int, Subscription>, threadId: int, author: int, done: seq<int>)
    requires 0 <= i < |scan| && forall k | k in scan :: k in subs
    requires scan[i] in subs
    requires done == Recipients(scan[..i], subs, threadId, author)
    ensures subs[scan[i]].threadId == threadId && subs[scan[i]].userId != author ==>
      done + [subs[scan[i]].userId] == Recipients(scan[..i + 1], subs, threadId, author)
    ensures !(subs[scan[i]].threadId == threadId && subs[scan[i]].userId != author) ==>
      done == Recipients(scan[..i + 1], subs, threadId, author)
  {
    RecipientsStep(scan, i, subs, threadId, author);
    assert done + [] == done;
  }

  /** Inserting the next recipient's notification extends the fan-out by one id. */
  lemma FanoutStep(notes: map<int, Notification>, base: int, prev: seq<int>, u: int, threadId: int, title: string, now: nat)
    ensures notes + Fanout(base, prev + [u], threadId, title, now) ==
      (notes + Fanout(base, prev, threadId, title, now))[base + |prev| := NewReplyNote(u, threadId, title, now)]
  {
    assert (prev + [u])[..|prev|] == prev;
    var a := notes + Fanout(base, prev + [u], threadId, title, now);
    var b := (notes + Fanout(base, prev, threadId, title, now))[base + |prev| := NewReplyNote(u, threadId, title, now)];
    assert a.Keys == b.Keys;
    forall n | n in a
      ensures a[n] == b[n]
    {
    }
  }

  /** The loop of notifyThreadSubscribers over the subscription rows `scan`: every row
      for the thread whose user is not the reply's author saves one notification under
      the next id of `notes`. */
  method SaveFanout(notes: map<int, Notification>, next: int, subs: map<int, Subscription>, scan: seq<int>,
                    threadId: int, title: string, replyAuthorId: int, now: nat)
    returns (saved: map<int, Notification>, after: int)
    requires forall k | k in scan :: k in subs
    requires forall j | 0 <= j < |scan| :: scan[j] in subs
    ensures var r := Recipients(scan, subs, threadId, replyAuthorId);
      after == next + |r| && saved == notes + Fanout(next, r, threadId, title, now)
  {
    saved, after := notes, next;
    ghost var done: seq<int> := [];
    var i := 0;
    while i < |scan|
      invariant 0 <= i <= |scan|
      invariant done == Recipients(scan[..i], subs, threadId, replyAuthorId)
      invariant after == next + |done|
      invariant saved == SavedInOrder(notes, next, done, threadId, title, now)
    {
      var sub := subs[scan[i]];
      RecipientsNext(scan, i, subs, threadId, replyAuthorId, done);
      if sub.threadId == threadId && sub.userId != replyAuthorId {
        SavedNext(notes, next, done, sub.userId, threadId, title, now);
        saved, after := saved[after := NewReplyNote(sub.userId, threadId, title, now)], after + 1;
        done := done + [sub.userId];
      }
      i := i + 1;
    }
    assert scan[..i] == scan;
    SavedInOrderIsFanout(notes, next, done, threadId, title, now);
  }

  /** `notes` after saving the notification of each of `users` in turn, each under the
      next id from `next`. */
  function SavedInOrder(notes: map<int, Notification>, next: int, users: seq<int>,
                        threadId: int, title: string, now: nat): map<int, Notification>
    decreases |users|
  {
    if users == [] then notes
    else
      SavedInOrder(notes, next, users[..|users| - 1], threadId, title, now)
        [next + |users| - 1 := NewReplyNote(users[|users| - 1], threadId, title, now)]
  }

  /** Saving one more notification extends the saved table by one entry. */
  lemma SavedNext(notes: map<int, Notification>, next: int, done: seq<int>, u: int,
                  threadId: int, title: string, now: nat)
    ensures SavedInOrder(notes, next, done + [u], threadId, title, now) ==
      SavedInOrder(notes, next, done, threadId, title, now)[next + |done| := NewReplyNote(u, threadId, title, now)]
  {
    assert (done + [u])[..|done|] == done;
  }

  /** Saving the notifications one at a time adds exactly the fan-out. */
  lemma {:induction false} SavedInOrderIsFanout(notes: map<int, Notification>, next: int, users: seq<int>,
                                                threadId: int, title: string, now: nat)
    ensures SavedInOrder(notes, next, users, threadId, title, now) == notes + Fanout(next, users, threadId, title, now)
    decreases |users|
  {
    if users != [] {
      var prev := users[..|users| - 1];
      SavedInOrderIsFanout(notes, next, prev, threadId, title, now);
      FanoutStep(notes, next, prev, users[|users| - 1], threadId, title, now);
      assert prev + [users[|users| - 1]] == users;
    }
  }

  /** notifyThreadSubscribers: one unread NEW_REPLY notification, pointing at the thread,
      for every subscriber of the thread but the reply's author. The saves of one call
      belong to one transaction and are stored together. */
  method NotifyThreadSubscribers(f: Forum, threadId: int, title: string, replyAuthorId: int, now: nat)
    requires f.Valid()
    modifies f`notifications, f`nextNotificationId
    ensures f.Valid()
    ensures var r := Recipients(KeysBelow(f.subscriptions, f.nextSubscriptionId), f.subscriptions, threadId, replyAuthorId);
      f.nextNotificationId == old(f.nextNotificationId) + |r| &&
      f.notifications == old(f.notifications) + Fanout(old(f.nextNotificationId), r, threadId, title, now)
  {
    var scan := KeysBelow(f.subscriptions, f.nextSubscriptionId);
    ghost var r := Recipients(scan, f.subscriptions, threadId, replyAuthorId);
    FanoutBelow(f.notifications, f.nextNotificationId, r, threadId, title, now);
    f.notifications, f.nextNotificationId :=
      SaveFanout(f.notifications, f.nextNotificationId, f.subscriptions, scan, threadId, title, replyAuthorId, now);
  }

  /** Some notification of `m` is addressed to `userId`. */
  predicate Notified(m: map<int, Notification>, userId: int)
  {
    exists n | n in m :: m[n].userId == userId
  }

  /** Every subscriber of the thread but the author is among the recipients. */
  lemma FanoutReachesEvery(subs: map<int, Subscription>, next: int, base: int, threadId: int,
                           title: string, author: int, now: nat, userId: int)
    requires Below(subs, next)
    requires Subscribed(subs, userId, threadId) && userId != author
    ensures Notified(Fanout(base, Recipients(KeysBelow(subs, next), subs, threadId, author), threadId, title, now), userId)
  {
    var scan := KeysBelow(subs, next);
    RecipientsMembers(scan, subs, threadId, author, userId);
    var k :| k in subs && subs[k].userId == userId && subs[k].threadId == threadId;
    assert k in scan;
    FanoutNotifiesEach(base, Recipients(scan, subs, threadId, author), threadId, title, now, userId);
  }

  /** Each user on the list gets a notification of the fan-out. */
  lemma FanoutNotifiesEach(base: int, users: seq<int>, threadId: int, title: string, now: nat, userId: int)
    requires userId in users
    ensures Notified(Fanout(base, users, threadId, title, now), userId)
  {
    var m := Fanout(base, users, threadId, title, now);
    var i :| 0 <= i < |users| && users[i] == userId;
    assert base + i in m && m[base + i].userId == userId;
  }

  /** Nobody but a subscriber of the thread other than the author is notified. */
  lemma FanoutReachesOnly(scan: seq<int>, subs: map<int, Subscription>, base: int, threadId: int,
                          title: string, author: int, now: nat, userId: int)
    requires forall k | k in scan :: k in subs
    requires Notified(Fanout(base, Recipients(scan, subs, threadId, author), threadId, title, now), userId)
    ensures Subscribed(subs, userId, threadId) && userId != author
  {
    var r := Recipients(scan, subs, threadId, author);
    var m := Fanout(base, r, threadId, title, now);
    RecipientsMembers(scan, subs, threadId, author, userId);
    var n :| n in m && m[n].userId == userId;
    assert r[n - base] in r;
    var k :| k in scan && subs[k].threadId == threadId && subs[k].userId == userId;
    assert k in subs;
  }

  /** A user receives one of the new notifications iff they subscribe to the thread
      and did not write the reply. */
  lemma FanoutReachesSubscribers(subs: map<int, Subscription>, next: int, base: int, threadId: int,
                                 title: string, author: int, now: nat, userId: int)
    requires Below(subs, next)
    ensures Subscribed(subs, userId, threadId) && userId != author <==>
      Notified(Fanout(base, Recipients(KeysBelow(subs, next), subs, threadId, author), threadId, title, now), userId)
  {
    if Subscribed(subs, userId, threadId) && userId != author {
      FanoutReachesEvery(subs, next, base, threadId, title, author, now, userId);
    }
    if Notified(Fanout(base, Recipients(KeysBelow(subs, next), subs, threadId, author), threadId, title, now), userId) {
      FanoutReachesOnly(KeysBelow(subs, next), subs, base, threadId, title, author, now, userId);
    }
  }

  /** No user receives two of the new notifications. */
  lemma FanoutOncePerUser(subs: map<int, Subscription>, next: int, base: int, threadId: int,
                          title: string, author: int, now: nat)
    requires UniquePairs(subs)
    ensures var m := Fanout(base, Recipients(KeysBelow(subs, next), subs, threadId, author), threadId, title, now);
      forall n1, n2 | n1 in m && n2 in m && n1 != n2 :: m[n1].userId != m[n2].userId
  {
    var scan := KeysBelow(subs, next);
    assert Distinct(scan);
    RecipientsDistinct(scan, subs, threadId, author);
    var r := Recipients(scan, subs, threadId, author);
    var m := Fanout(base, r, threadId, title, now);
    forall n1, n2 | n1 in m && n2 in m && n1 != n2
      ensures m[n1].userId != m[n2].userId
    {
      if n1 < n2 {
        assert r[n1 - base] != r[n2 - base];
      } else {
        assert r[n2 - base] != r[n1 - base];
      }
    }
  }
}
