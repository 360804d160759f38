/** The topic routes of the Express backend (src/routes/topics.js). Every handler takes
    the claims `authenticateToken` put in `req.user` where the route requires a login;
    `now` is CURRENT_TIMESTAMP. */
module NodeTopics {
  import opened Options
  import opened Roles
  import opened Tables
  import opened Ordering
  import opened NodeSchema
  import opened NodeHttp
  import opened NodeMiddleware

  // ---------------------------------------------------------------------------
  // Pagination of GET /

  /** `parseInt(q) || d`, where `q` is the parsed query parameter and None stands for
      an absent or non-numeric one (NaN). Zero and NaN are falsy, so both give way to
      the default; a negative number is truthy and is kept. */
  function OrDefault(q: Option<int>, d: int): (r: int)
    ensures q.None? || q.value == 0 ==> r == d
    ensures q.Some? && q.value != 0 ==> r == q.value
    ensures d != 0 ==> r != 0
  {
    if q.Some? && q.value != 0 then q.value else d
  }

  /** `Math.ceil(total / limit)` for a non-zero limit. */
  function TotalPages(total: nat, limit: int): (pages: int)
    requires limit != 0
    ensures limit > 0 ==> (pages - 1) * limit < total <= pages * limit
    ensures limit < 0 ==> pages * limit <= total < (pages - 1) * limit
  {
    if limit > 0 then
      var q, r := total / limit, total % limit;
      assert total == q * limit + r;
      if r == 0 then q
      else
        assert (q + 1) * limit == q * limit + limit;
        q + 1
    else
      var n := -limit;
      var q := total / n;
      assert total == q * n + total % n;
      assert -q * limit == q * n;
      assert (-q - 1) * limit == q * n + n;
      -q
  }

  /** For a positive limit, `totalPages` pages of `limit` rows hold all `total` rows and
      one page fewer does not; no topics means no pages. */
  lemma PagesCoverTotal(total: nat, limit: int)
    requires limit > 0
    ensures total == 0 <==> TotalPages(total, limit) == 0
    ensures total > 0 ==> TotalPages(total, limit) >= 1
    ensures TotalPages(total, limit) * limit - total < limit
  {
    var p := TotalPages(total, limit);
    assert p >= 1 ==> (p - 1) * limit >= 0;
    assert p <= 0 ==> p * limit <= 0;
  }

  /** GET /: one page of topics, pinned first and then most recently updated first, with
      `total` counting every topic. */
  method ListTopics(db: Db, qPage: Option<int>, qLimit: Option<int>) returns (resp: Response)
    ensures resp.status == 200 && resp.body.TopicPage?
    ensures resp.body.page == OrDefault(qPage, 1) && resp.body.limit == OrDefault(qLimit, 20)
    ensures resp.body.total == |db.topics|
    ensures resp.body.totalPages == TotalPages(|db.topics|, resp.body.limit)
    ensures SortedBy(resp.body.topics, TopicBefore)
    ensures resp.body.limit > 0 ==> |resp.body.topics| <= resp.body.limit
    ensures forall t :: t in resp.body.topics ==>
      t in db.topics && t.userId in Keys(db.users, UserId) && t.categoryId in Keys(db.categories, CategoryId)
    ensures var listed := SortBy(Joined(db.topics, Keys(db.users, UserId), Keys(db.categories, CategoryId)), TopicBefore);
      resp.body.topics == Window(listed, resp.body.limit, (resp.body.page - 1) * resp.body.limit)
  {
    var page := OrDefault(qPage, 1);
    var limit := OrDefault(qLimit, 20);
    var offset := (page - 1) * limit;
    OrdersArePreorders();
    var listed := SortBy(Joined(db.topics, Keys(db.users, UserId), Keys(db.categories, CategoryId)), TopicBefore);
    var rows := Window(listed, limit, offset);
    forall t | t in rows
      ensures t in db.topics && t.userId in Keys(db.users, UserId) && t.categoryId in Keys(db.categories, CategoryId)
    {
      var i :| 0 <= i < |rows| && rows[i] == t;
      assert t in multiset(listed);
    }
    WindowKeepsSorted(listed, TopicBefore, limit, offset);
    resp := Response(200, TopicPage(rows, page, limit, |db.topics|, TotalPages(|db.topics|, limit)));
  }

  // ---------------------------------------------------------------------------
  // GET /:id

  /** The topic row after `view_count = view_count + 1`. */
  function Viewed(t: TopicRow): (r: TopicRow)
    ensures r.viewCount == t.viewCount + 1
    ensures r.(viewCount := t.viewCount) == t
  {
    t.(viewCount := t.viewCount + 1)
  }

  /** `UPDATE topics SET view_count = view_count + 1 WHERE id = ?`. */
  method CountView(db: Db, id: int)
    requires db.Valid()
    modifies db
    ensures db.Valid()
    ensures var found := Find(old(db.topics), TopicId, id);
      if found.None? then db.State() == old(db.State())
      else db.State() == old(db.State()).(topics := Replace(old(db.topics), TopicId, id, Viewed(found.value)))
    ensures var found := Find(old(db.topics), TopicId, id);
      Find(db.topics, TopicId, id) == if found.None? then None else Some(Viewed(found.value))
  {
    var found := Find(db.topics, TopicId, id);
    if found.Some? {
      var t := Viewed(found.value);
      UpdateTopicKeeps(db.State(), found.value, t);
      ReplaceMembers(db.topics, TopicId, id, t);
      ReplaceKeepsKeys(db.topics, TopicId, id, t);
      db.Commit(db.State().(topics := Replace(db.topics, TopicId, id, t)));
      FindMember(db.topics, TopicId, t);
    }
  }

  /** GET /:id. The view counter goes up first, whether or not the topic then turns out
      to be missing; an unknown id changes nothing and gives 404, as does a topic whose
      author or category row is gone (the inner JOIN drops it). */
  method GetTopic(db: Db, id: int) returns (resp: Response)
    requires db.Valid()
    modifies db
    ensures db.Valid()
    ensures var found := Find(old(db.topics), TopicId, id);
      if found.None? then db.State() == old(db.State())
      else db.State() == old(db.State()).(topics := Replace(old(db.topics), TopicId, id, Viewed(found.value)))
    ensures var found := Find(old(db.topics), TopicId, id);
      resp.status == 404 <==>
        found.None? || found.value.userId !in Keys(db.users, UserId) ||
        found.value.categoryId !in Keys(db.categories, CategoryId)
    ensures resp.status == 404 ==> resp.body == Failure("Topic not found")
    ensures resp.status != 404 ==>
      resp.status == 200 && resp.body.TopicDetail? &&
      resp.body.topic == Viewed(Find(old(db.topics), TopicId, id).value)
    ensures resp.status != 404 ==>
      SortedBy(resp.body.posts, PostBefore) &&
      multiset(resp.body.posts) == multiset(WithAuthors(Select(db.posts, PostTopic, id), Keys(db.users, UserId)))
    ensures resp.status != 404 ==>
      forall p :: p in resp.body.posts <==> p in db.posts && p.topicId == id && p.userId in Keys(db.users, UserId)
  {
    CountView(db, id);
    var topic := Find(db.topics, TopicId, id);
    if topic.None? || topic.value.userId !in Keys(db.users, UserId) ||
       topic.value.categoryId !in Keys(db.categories, CategoryId) {
      return Error(404, "Topic not found");
    }
    resp := Response(200, TopicDetail(topic.value, TopicPosts(db.posts, db.users, id)));
  }

  /** The posts of GET /:id: those of the topic whose author row exists, oldest first. */
  function TopicPosts(posts: seq<PostRow>, users: seq<UserRow>, id: int): (r: seq<PostRow>)
    ensures SortedBy(r, PostBefore)
    ensures multiset(r) == multiset(WithAuthors(Select(posts, PostTopic, id), Keys(users, UserId)))
    ensures forall p :: p in r <==> p in posts && p.topicId == id && p.userId in Keys(users, UserId)
  {
    OrdersArePreorders();
    var r := SortBy(WithAuthors(Select(posts, PostTopic, id), Keys(users, UserId)), PostBefore);
    assert forall p :: p in r <==> p in multiset(r);
    r
  }

  // ---------------------------------------------------------------------------
  // POST /

  /** The fields express-validator rejects for a new topic, in validator order. */
  function NewTopicErrors(title: Option<string>, content: Option<string>, categoryId: Option<int>): (errs: seq<string>)
    ensures errs == [] <==> 5 <= Len(title) <= 200 && Len(content) >= 10 && categoryId.Some?
    ensures "title" in errs <==> !(5 <= Len(title) <= 200)
    ensures "content" in errs <==> Len(content) < 10
    ensures "category_id" in errs <==> categoryId.None?
  {
    (if 5 <= Len(title) <= 200 then [] else ["title"]) +
    (if Len(content) >= 10 then [] else ["content"]) +
    (if categoryId.Some? then [] else ["category_id"])
  }

  /** POST /: a topic and its first post. `firstPostFails` stands for a failure of the
      second INSERT, after which the handler deletes the topic again. */
  method CreateTopic(db: Db, caller: Claims, title: Option<string>, content: Option<string>,
                     categoryId: Option<int>, now: int, firstPostFails: bool) returns (resp: Response)
    requires db.Valid()
    modifies db
    ensures db.Valid()
    ensures NewTopicErrors(title, content, categoryId) != [] ==>
      resp == Response(400, Invalid(NewTopicErrors(title, content, categoryId))) && db.State() == old(db.State())
    ensures NewTopicErrors(title, content, categoryId) == [] &&
            categoryId.value !in Keys(old(db.categories), CategoryId) ==>
      resp == Error(400, "Category not found") && db.State() == old(db.State())
    ensures NewTopicErrors(title, content, categoryId) == [] &&
            categoryId.value in Keys(old(db.categories), CategoryId) && firstPostFails ==>
      resp == Error(500, "Failed to create post") &&
      db.State() == old(db.State()).(nextTopicId := old(db.nextTopicId) + 1)
    ensures NewTopicErrors(title, content, categoryId) == [] &&
            categoryId.value in Keys(old(db.categories), CategoryId) && !firstPostFails ==>
      resp == Response(201, TopicCreated(old(db.nextTopicId), old(db.nextPostId))) &&
      db.State() == old(db.State()).(
        topics := old(db.topics) + [NewTopic(old(db.nextTopicId), title.value, categoryId.value, caller.id, now)],
        posts := old(db.posts) + [NewPost(old(db.nextPostId), old(db.nextTopicId), caller.id, content.value, true, now)],
        nextTopicId := old(db.nextTopicId) + 1,
        nextPostId := old(db.nextPostId) + 1)
  {
    var errs := NewTopicErrors(title, content, categoryId);
    if errs != [] {
      return Response(400, Invalid(errs));
    }
    if Find(db.categories, CategoryId, categoryId.value).None? {
      return Error(400, "Category not found");
    }
    resp := InsertTopic(db, title.value, categoryId.value, caller.id, content.value, now, firstPostFails);
  }

  /** The two INSERTs of POST /, and the compensating DELETE when the second fails. */
  method InsertTopic(db: Db, title: string, categoryId: int, userId: int, content: string,
                     now: int, firstPostFails: bool) returns (resp: Response)
    requires db.Valid() && categoryId in Keys(db.categories, CategoryId)
    modifies db
    ensures db.Valid()
    ensures firstPostFails ==>
      resp == Error(500, "Failed to create post") &&
      db.State() == old(db.State()).(nextTopicId := old(db.nextTopicId) + 1)
    ensures !firstPostFails ==>
      resp == Response(201, TopicCreated(old(db.nextTopicId), old(db.nextPostId))) &&
      db.State() == old(db.State()).(
        topics := old(db.topics) + [NewTopic(old(db.nextTopicId), title, categoryId, userId, now)],
        posts := old(db.posts) + [NewPost(old(db.nextPostId), old(db.nextTopicId), userId, content, true, now)],
        nextTopicId := old(db.nextTopicId) + 1,
        nextPostId := old(db.nextPostId) + 1)
  {
    var s := db.State();
    var topicId := s.nextTopicId;
    var topic := NewTopic(topicId, title, categoryId, userId, now);
    var inserted := s.(topics := s.topics + [topic], nextTopicId := s.nextTopicId + 1);
    db.Commit(inserted);
    if firstPostFails {
      RollbackRestores(s, topic);
      db.Commit(DeleteTopic(inserted, topicId));
      return Error(500, "Failed to create post");
    }
    var post := NewPost(s.nextPostId, topicId, userId, content, true, now);
    InsertTopicKeeps(s, topic, post);
    db.Commit(inserted.(posts := s.posts + [post], nextPostId := s.nextPostId + 1));
    resp := Response(201, TopicCreated(topicId, post.id));
  }

  /** A successful create leaves exactly one first post in the new topic. */
  lemma CreatedTopicHasOneFirstPost(s: Store, t: TopicRow, p: PostRow)
    requires Consistent(s)
    requires t.id == s.nextTopicId && t.categoryId in Keys(s.categories, CategoryId)
    requires p.id == s.nextPostId && p.topicId == t.id && p.isFirstPost
    ensures var r := s.(topics := s.topics + [t], posts := s.posts + [p],
                        nextTopicId := s.nextTopicId + 1, nextPostId := s.nextPostId + 1);
      forall q :: q in r.posts && q.topicId == t.id && q.isFirstPost <==> q == p
  {
    InsertTopicKeeps(s, t, p);
    var r := s.(topics := s.topics + [t], posts := s.posts + [p],
                nextTopicId := s.nextTopicId + 1, nextPostId := s.nextPostId + 1);
    assert p in r.posts;
  }

  // ---------------------------------------------------------------------------
  // PUT /:id and DELETE /:id

  /** PUT /:id. An absent title is bound as NULL, which the NOT NULL column refuses. */
  method UpdateTopic(db: Db, caller: Claims, id: int, title: Option<string>, now: int) returns (resp: Response)
    requires db.Valid()
    modifies db
    ensures db.Valid()
    ensures title.Some? && !(5 <= |title.value| <= 200) ==>
      resp == Response(400, Invalid(["title"])) && db.State() == old(db.State())
    ensures title.None? || 5 <= |title.value| <= 200 ==>
      var found := Find(old(db.topics), TopicId, id);
      if found.None? then resp == Error(404, "Topic not found") && db.State() == old(db.State())
      else if !OwnerOrStaff(caller, found.value.userId) then
        resp == Error(403, "Not authorized") && db.State() == old(db.State())
      else if title.None? then
        resp == Error(500, "Failed to update topic") && db.State() == old(db.State())
      else
        resp == Response(200, Done("Topic updated")) &&
        db.State() == old(db.State()).(topics := Replace(old(db.topics), TopicId, id,
                                                         found.value.(title := title.value, updatedAt := now)))
  {
    if title.Some? && !(5 <= |title.value| <= 200) {
      return Response(400, Invalid(["title"]));
    }
    var found := Find(db.topics, TopicId, id);
    if found.None? {
      return Error(404, "Topic not found");
    }
    if !OwnerOrStaff(caller, found.value.userId) {
      return Error(403, "Not authorized");
    }
    if title.None? {
      return Error(500, "Failed to update topic");
    }
    var t := found.value.(title := title.value, updatedAt := now);
    UpdateTopicKeeps(db.State(), found.value, t);
    db.Commit(db.State().(topics := Replace(db.topics, TopicId, id, t)));
    resp := Response(200, Done("Topic updated"));
  }

  /** DELETE /:id, with the declared cascade to the topic's posts. */
  method DeleteTopicRoute(db: Db, caller: Claims, id: int) returns (resp: Response)
    requires db.Valid()
    modifies db
    ensures db.Valid()
    ensures var found := Find(old(db.topics), TopicId, id);
      if found.None? then resp == Error(404, "Topic not found") && db.State() == old(db.State())
      else if !OwnerOrStaff(caller, found.value.userId) then
        resp == Error(403, "Not authorized") && db.State() == old(db.State())
      else
        resp == Response(200, Done("Topic deleted")) && db.State() == DeleteTopic(old(db.State()), id)
  {
    var found := Find(db.topics, TopicId, id);
    if found.None? {
      return Error(404, "Topic not found");
    }
    if !OwnerOrStaff(caller, found.value.userId) {
      return Error(403, "Not authorized");
    }
    DeleteTopicKeeps(db.State(), id);
    db.Commit(DeleteTopic(db.State(), id));
    resp := Response(200, Done("Topic deleted"));
  }

  // ---------------------------------------------------------------------------
  // PATCH /:id/pin and PATCH /:id/lock

  /** `UPDATE topics SET is_pinned = ? WHERE id = ?`. */
  function SetPinned(topics: seq<TopicRow>, id: int, flag: bool): seq<TopicRow>
  {
    match Find(topics, TopicId, id)
    case None => topics
    case Some(t) => Replace(topics, TopicId, id, t.(isPinned := flag))
  }

  /** `UPDATE topics SET is_locked = ? WHERE id = ?`. */
  function SetLocked(topics: seq<TopicRow>, id: int, flag: bool): seq<TopicRow>
  {
    match Find(topics, TopicId, id)
    case None => topics
    case Some(t) => Replace(topics, TopicId, id, t.(isLocked := flag))
  }

  /** Setting the flag is idempotent: a repeated request changes nothing more. Only the
      flag of that one topic changes. */
  lemma SetFlagIdempotent(topics: seq<TopicRow>, id: int, flag: bool)
    requires Ascending(topics, TopicId)
    ensures SetPinned(SetPinned(topics, id, flag), id, flag) == SetPinned(topics, id, flag)
    ensures SetLocked(SetLocked(topics, id, flag), id, flag) == SetLocked(topics, id, flag)
    ensures var found := Find(topics, TopicId, id);
      found.Some? ==> Find(SetPinned(topics, id, flag), TopicId, id) == Some(found.value.(isPinned := flag)) &&
                      Find(SetLocked(topics, id, flag), TopicId, id) == Some(found.value.(isLocked := flag))
  {
    var found := Find(topics, TopicId, id);
    if found.Some? {
      var p := found.value.(isPinned := flag);
      var l := found.value.(isLocked := flag);
      ReplaceKeepsKeys(topics, TopicId, id, p);
      ReplaceKeepsKeys(topics, TopicId, id, l);
      ReplaceMembers(topics, TopicId, id, p);
      ReplaceMembers(topics, TopicId, id, l);
      FindMember(Replace(topics, TopicId, id, p), TopicId, p);
      FindMember(Replace(topics, TopicId, id, l), TopicId, l);
      ReplaceTwice(topics, TopicId, id, p);
      ReplaceTwice(topics, TopicId, id, l);
    }
  }

  /** PATCH /:id/pin, behind isModerator. `isPinned` is the truthiness of the body's
      `is_pinned`. */
  method PinTopic(db: Db, caller: Claims, id: int, isPinned: bool) returns (resp: Response)
    requires db.Valid()
    modifies db
    ensures db.Valid()
    ensures !IsStaff(caller.role) ==>
      resp == Error(403, "Moderator access required") && db.State() == old(db.State())
    ensures IsStaff(caller.role) && id !in Keys(old(db.topics), TopicId) ==>
      resp == Error(404, "Topic not found") && db.State() == old(db.State())
    ensures IsStaff(caller.role) && id in Keys(old(db.topics), TopicId) ==>
      resp == Response(200, Done(if isPinned then "Topic pinned" else "Topic unpinned")) &&
      db.State() == old(db.State()).(topics := SetPinned(old(db.topics), id, isPinned))
  {
    var gate := IsModerator(Some(caller));
    if gate.Stop? {
      return gate.response;
    }
    var found := Find(db.topics, TopicId, id);
    if found.None? {
      return Error(404, "Topic not found");
    }
    UpdateTopicKeeps(db.State(), found.value, found.value.(isPinned := isPinned));
    db.Commit(db.State().(topics := SetPinned(db.topics, id, isPinned)));
    resp := Response(200, Done(if isPinned then "Topic pinned" else "Topic unpinned"));
  }

  /** PATCH /:id/lock, behind isModerator. */
  method LockTopic(db: Db, caller: Claims, id: int, isLocked: bool) returns (resp: Response)
    requires db.Valid()
    modifies db
    ensures db.Valid()
    ensures !IsStaff(caller.role) ==>
      resp == Error(403, "Moderator access required") && db.State() == old(db.State())
    ensures IsStaff(caller.role) && id !in Keys(old(db.topics), TopicId) ==>
      resp == Error(404, "Topic not found") && db.State() == old(db.State())
    ensures IsStaff(caller.role) && id in Keys(old(db.topics), TopicId) ==>
      resp == Response(200, Done(if isLocked then "Topic locked" else "Topic unlocked")) &&
      db.State() == old(db.State()).(topics := SetLocked(old(db.topics), id, isLocked))
  {
    var gate := IsModerator(Some(caller));
    if gate.Stop? {
      return gate.response;
    }
    var found := Find(db.topics, TopicId, id);
    if found.None? {
      return Error(404, "Topic not found");
    }
    UpdateTopicKeeps(db.State(), found.value, found.value.(isLocked := isLocked));
    db.Commit(db.State().(topics := SetLocked(db.topics, id, isLocked)));
    resp := Response(200, Done(if isLocked then "Topic locked" else "Topic unlocked"));
  }
}
