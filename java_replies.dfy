/** ReplyService of the Spring backend (service/ReplyService.java): listing a thread's
    replies, replying, and deleting a reply. */
module JavaReplies {
  import opened Options
  import opened JavaErrors
  import opened JavaModel
  import opened JavaStore

  /** What convertToDTO copies out of a reply; the author appears by id. */
  datatype ReplyView = ReplyView(id: int, content: string, authorId: int, createdAt: nat, updatedAt: nat)

  function ReplyViewOf(id: int, r: Reply): ReplyView
  {
    ReplyView(id, r.content, r.authorId, r.createdAt, r.updatedAt)
  }

  /** The ids in the ascending `scan` whose reply belongs to `threadId`, in scan order. */
  function OfThread(scan: seq<int>, replies: map<int, Reply>, threadId: int): (r: seq<int>)
    requires forall k | k in scan :: k in replies
    requires forall i, j | 0 <= i < j < |scan| :: scan[i] < scan[j]
    ensures forall k :: k in r <==> k in scan && replies[k].threadId == threadId
    ensures forall i, j | 0 <= i < j < |r| :: r[i] < r[j]
    decreases |scan|
  {
    if scan == [] then []
    else
      assert scan[0] in scan;
      var rest := OfThread(scan[1..], replies, threadId);
      if replies[scan[0]].threadId == threadId then
        assert forall i | 0 <= i < |rest| :: rest[i] in scan[1..];
        assert forall i | 0 <= i < |rest| :: scan[0] < rest[i];
        [scan[0]] + rest
      else rest
  }

  /** The views of the replies `ids` names, in the same order. */
  function Views(ids: seq<int>, replies: map<int, Reply>): (r: seq<ReplyView>)
    requires forall k | k in ids :: k in replies
    ensures |r| == |ids|
    ensures forall i | 0 <= i < |r| :: r[i] == ReplyViewOf(ids[i], replies[ids[i]])
  {
    seq(|ids|, i requires 0 <= i < |ids| => ReplyViewOf(ids[i], replies[ids[i]]))
  }

  /** getRepliesByThread: exactly the replies of the thread, in id order (the derived
      query names no order; the model scans by id). A missing thread gives an empty
      list, not an error. */
  function RepliesByThread(f: Forum, threadId: int): (r: seq<ReplyView>)
    requires f.Valid()
    reads f
    ensures forall i | 0 <= i < |r| ::
      r[i].id in f.replies && f.replies[r[i].id].threadId == threadId && r[i] == ReplyViewOf(r[i].id, f.replies[r[i].id])
    ensures forall k | k in f.replies && f.replies[k].threadId == threadId :: exists i :: 0 <= i < |r| && r[i].id == k
    ensures forall i, j | 0 <= i < j < |r| :: r[i].id < r[j].id
  {
    var ids := OfThread(KeysBelow(f.replies, f.nextReplyId), f.replies, threadId);
    assert forall i | 0 <= i < |ids| :: ids[i] in ids;
    Views(ids, f.replies)
  }

  /** createReply. The thread and the author must exist; whether the thread is locked
      is never consulted. Saving the thread stamps `lastReplyAt` and, through
      `@UpdateTimestamp`, `updatedAt`. */
  method CreateReply(f: Forum, threadId: int, content: string, userId: int, now: nat)
    returns (out: Outcome<ReplyView>)
    requires f.Valid()
    modifies f`replies, f`nextReplyId, if threadId in f.threads then {f.threads[threadId]} else {}
    ensures f.Valid()
    ensures threadId !in f.threads ==> out == Threw(Fail("Thread not found")) && f.replies == old(f.replies)
    ensures threadId in f.threads && userId !in f.users ==>
      out == Threw(Fail("User not found")) && f.replies == old(f.replies) &&
      f.threads[threadId].Fields() == old(f.threads[threadId].Fields())
    ensures threadId in f.threads && userId in f.users ==>
      var id := old(f.nextReplyId);
      var reply := Reply(content, threadId, userId, false, now, now);
      id !in old(f.replies) && f.replies == old(f.replies)[id := reply] &&
      out == Ok(ReplyViewOf(id, reply)) &&
      f.threads[threadId].Fields() == old(f.threads[threadId].Fields()).(lastReplyAt := Some(now), updatedAt := now)
  {
    if threadId !in f.threads {
      return Threw(Fail("Thread not found"));
    }
    if userId !in f.users {
      return Threw(Fail("User not found"));
    }
    var reply := Reply(content, threadId, userId, false, now, now);
    var id := f.nextReplyId;
    f.replies, f.nextReplyId := f.replies[id := reply], f.nextReplyId + 1;
    var t := f.threads[threadId];
    t.lastReplyAt, t.updatedAt := Some(now), now;
    out := Ok(ReplyViewOf(id, reply));
  }

  /** deleteReply: only the author or staff may delete. */
  method DeleteReply(f: Forum, replyId: int, userId: int, userRole: string) returns (err: Option<Thrown>)
    requires f.Valid()
    modifies f`replies
    ensures f.Valid()
    ensures replyId !in old(f.replies) ==> err == Some(Fail("Reply not found")) && f.replies == old(f.replies)
    ensures replyId in old(f.replies) ==>
      if AuthorOrStaff(old(f.replies[replyId]).authorId, userId, userRole) then
        err.None? && f.replies == old(f.replies) - {replyId}
      else
        err == Some(Fail("Unauthorized to delete this reply")) && f.replies == old(f.replies)
  {
    if replyId !in f.replies {
      return Some(Fail("Reply not found"));
    }
    if !AuthorOrStaff(f.replies[replyId].authorId, userId, userRole) {
      return Some(Fail("Unauthorized to delete this reply"));
    }
    f.replies := f.replies - {replyId};
    err := None;
  }
}
