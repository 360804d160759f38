/** The post routes of the Express backend (src/routes/posts.js): replying to a topic,
    editing a post and deleting one. `caller` is `req.user`; `now` is CURRENT_TIMESTAMP. */
module NodePosts {
  import opened Options
  import opened Roles
  import opened Tables
  import opened NodeSchema
  import opened NodeHttp

  /** The fields express-validator rejects for a reply, in validator order. */
  function NewPostErrors(topicId: Option<int>, content: Option<string>): (errs: seq<string>)
    ensures errs == [] <==> topicId.Some? && Len(content) >= 1
    ensures "topic_id" in errs <==> topicId.None?
    ensures "content" in errs <==> Len(content) < 1
  {
    (if topicId.Some? then [] else ["topic_id"]) + (if Len(content) >= 1 then [] else ["content"])
  }

  /** POST /. A locked topic takes replies from moderators and admins only. */
  method CreatePost(db: Db, caller: Claims, topicId: Option<int>, content: Option<string>, now: int)
    returns (resp: Response)
    requires db.Valid()
    modifies db
    ensures db.Valid()
    ensures NewPostErrors(topicId, content) != [] ==>
      resp == Response(400, Invalid(NewPostErrors(topicId, content))) && db.State() == old(db.State())
    ensures NewPostErrors(topicId, content) == [] ==>
      var found := Find(old(db.topics), TopicId, topicId.value);
      if found.None? then resp == Error(400, "Topic not found") && db.State() == old(db.State())
      else if found.value.isLocked && !IsStaff(caller.role) then
        resp == Error(403, "Topic is locked") && db.State() == old(db.State())
      else
        resp == Response(201, PostCreated(old(db.nextPostId))) &&
        db.State() == old(db.State()).(
          posts := old(db.posts) + [NewPost(old(db.nextPostId), topicId.value, caller.id, content.value, false, now)],
          nextPostId := old(db.nextPostId) + 1,
          topics := Replace(old(db.topics), TopicId, topicId.value, found.value.(updatedAt := now)))
  {
    var errs := NewPostErrors(topicId, content);
    if errs != [] {
      return Response(400, Invalid(errs));
    }
    var found := Find(db.topics, TopicId, topicId.value);
    if found.None? {
      return Error(400, "Topic not found");
    }
    if found.value.isLocked && !IsStaff(caller.role) {
      return Error(403, "Topic is locked");
    }
    resp := InsertReply(db, found.value, caller.id, content.value, now);
  }

  /** The INSERT of a reply and the UPDATE of its topic's `updated_at`. */
  method InsertReply(db: Db, topic: TopicRow, userId: int, content: string, now: int) returns (resp: Response)
    requires db.Valid() && topic in db.topics
    modifies db
    ensures db.Valid()
    ensures resp == Response(201, PostCreated(old(db.nextPostId)))
    ensures db.State() == old(db.State()).(
      posts := old(db.posts) + [NewPost(old(db.nextPostId), topic.id, userId, content, false, now)],
      nextPostId := old(db.nextPostId) + 1,
      topics := Replace(old(db.topics), TopicId, topic.id, topic.(updatedAt := now)))
  {
    var s := db.State();
    var post := NewPost(s.nextPostId, topic.id, userId, content, false, now);
    InsertPostKeeps(s, post);
    var inserted := s.(posts := s.posts + [post], nextPostId := s.nextPostId + 1);
    db.Commit(inserted);
    UpdateTopicKeeps(inserted, topic, topic.(updatedAt := now));
    db.Commit(inserted.(topics := Replace(s.topics, TopicId, topic.id, topic.(updatedAt := now))));
    resp := Response(201, PostCreated(post.id));
  }

  /** PUT /:id: only the content and `updated_at` of the post change. */
  method UpdatePost(db: Db, caller: Claims, id: int, content: Option<string>, now: int) returns (resp: Response)
    requires db.Valid()
    modifies db
    ensures db.Valid()
    ensures Len(content) < 1 ==> resp == Response(400, Invalid(["content"])) && db.State() == old(db.State())
    ensures Len(content) >= 1 ==>
      var found := Find(old(db.posts), PostId, id);
      if found.None? then resp == Error(404, "Post not found") && db.State() == old(db.State())
      else if !OwnerOrStaff(caller, found.value.userId) then
        resp == Error(403, "Not authorized") && db.State() == old(db.State())
      else
        resp == Response(200, Done("Post updated")) &&
        db.State() == old(db.State()).(posts := Replace(old(db.posts), PostId, id,
                                                       found.value.(content := content.value, updatedAt := now)))
  {
    if Len(content) < 1 {
      return Response(400, Invalid(["content"]));
    }
    var found := Find(db.posts, PostId, id);
    if found.None? {
      return Error(404, "Post not found");
    }
    if !OwnerOrStaff(caller, found.value.userId) {
      return Error(403, "Not authorized");
    }
    var p := found.value.(content := content.value, updatedAt := now);
    UpdatePostKeeps(db.State(), found.value, p);
    db.Commit(db.State().(posts := Replace(db.posts, PostId, id, p)));
    resp := Response(200, Done("Post updated"));
  }

  /** DELETE /:id. The checks run in the order: missing, not allowed, first post. */
  method DeletePost(db: Db, caller: Claims, id: int) returns (resp: Response)
    requires db.Valid()
    modifies db
    ensures db.Valid()
    ensures var found := Find(old(db.posts), PostId, id);
      if found.None? then resp == Error(404, "Post not found") && db.State() == old(db.State())
      else if !OwnerOrStaff(caller, found.value.userId) then
        resp == Error(403, "Not authorized") && db.State() == old(db.State())
      else if found.value.isFirstPost then
        resp == Error(400, "Cannot delete the first post. Delete the topic instead.") &&
        db.State() == old(db.State())
      else
        resp == Response(200, Done("Post deleted")) &&
        db.State() == old(db.State()).(posts := DeleteIn(old(db.posts), PostId, {id}))
    ensures forall p :: p in old(db.posts) && p.isFirstPost ==> p in db.posts
  {
    var found := Find(db.posts, PostId, id);
    if found.None? {
      return Error(404, "Post not found");
    }
    if !OwnerOrStaff(caller, found.value.userId) {
      return Error(403, "Not authorized");
    }
    if found.value.isFirstPost {
      return Error(400, "Cannot delete the first post. Delete the topic instead.");
    }
    DeletePostKeeps(db.State(), found.value);
    forall p | p in db.posts && p.isFirstPost ensures p.id != id {
      KeyDetermines(db.posts, PostId, p, found.value);
    }
    db.Commit(db.State().(posts := DeleteIn(db.posts, PostId, {id})));
    resp := Response(200, Done("Post deleted"));
  }
}
