/** The SQLite store of the Express backend (src/models/database.js): four tables kept
    as sequences of rows in rowid order, the AUTOINCREMENT counters, the constraints
    the schema declares, and the ON DELETE CASCADE rules it declares. */
module NodeSchema {
  import opened Options
  import opened Roles
  import opened Tables
  import opened Ordering

  datatype UserRow = UserRow(id: int, username: string, email: string, password: string,
                             role: Role, createdAt: int, updatedAt: int)

  /** `description` and `display_order` are nullable columns. */
  datatype CategoryRow = CategoryRow(id: int, name: string, description: Option<string>,
                                     displayOrder: Option<int>, createdAt: int)

  /** `is_pinned` and `is_locked` only ever hold 0 or 1, written here as booleans. */
  datatype TopicRow = TopicRow(id: int, title: string, categoryId: int, userId: int,
                               isPinned: bool, isLocked: bool, viewCount: int,
                               createdAt: int, updatedAt: int)

  datatype PostRow = PostRow(id: int, topicId: int, userId: int, content: string,
                             isFirstPost: bool, createdAt: int, updatedAt: int)

  // Column projections, passed by name to the table functions.
  function UserId(u: UserRow): int { u.id }
  function UserName(u: UserRow): string { u.username }
  function UserEmail(u: UserRow): string { u.email }
  function CategoryId(c: CategoryRow): int { c.id }
  function CategoryName(c: CategoryRow): string { c.name }
  function TopicId(t: TopicRow): int { t.id }
  function TopicCategory(t: TopicRow): int { t.categoryId }
  function PostId(p: PostRow): int { p.id }
  function PostTopic(p: PostRow): int { p.topicId }

  /** A topic row as `INSERT INTO topics (title, category_id, user_id)` creates it: the
      omitted columns take their declared defaults. */
  function NewTopic(id: int, title: string, categoryId: int, userId: int, now: int): (t: TopicRow)
    ensures t.id == id && t.title == title && t.categoryId == categoryId && t.userId == userId
    ensures !t.isPinned && !t.isLocked && t.viewCount == 0
    ensures t.createdAt == now && t.updatedAt == now
  {
    TopicRow(id, title, categoryId, userId, false, false, 0, now, now)
  }

  /** A post row as an INSERT that omits `is_first_post` creates it, or one that sets it. */
  function NewPost(id: int, topicId: int, userId: int, content: string, first: bool, now: int): (p: PostRow)
    ensures p.id == id && p.topicId == topicId && p.userId == userId && p.content == content
    ensures p.isFirstPost == first
    ensures p.createdAt == now && p.updatedAt == now
  {
    PostRow(id, topicId, userId, content, first, now, now)
  }

  /** A user row as `INSERT INTO users (username, email, password)` creates it. */
  function NewUser(id: int, username: string, email: string, hash: string, now: int): (u: UserRow)
    ensures u.id == id && u.username == username && u.email == email && u.password == hash
    ensures u.role == User
    ensures u.createdAt == now && u.updatedAt == now
  {
    UserRow(id, username, email, hash, User, now, now)
  }

  /** The whole database: the four tables and the next rowid of each. */
  datatype Store = Store(users: seq<UserRow>, categories: seq<CategoryRow>,
                         topics: seq<TopicRow>, posts: seq<PostRow>,
                         nextUserId: int, nextCategoryId: int, nextTopicId: int, nextPostId: int)

  /** INTEGER PRIMARY KEY AUTOINCREMENT: ids increase in rowid order and stay below the counter. */
  ghost predicate IdsOk(s: Store)
  {
    Ascending(s.users, UserId) && Below(s.users, UserId, s.nextUserId) &&
    Ascending(s.categories, CategoryId) && Below(s.categories, CategoryId, s.nextCategoryId) &&
    Ascending(s.topics, TopicId) && Below(s.topics, TopicId, s.nextTopicId) &&
    Ascending(s.posts, PostId) && Below(s.posts, PostId, s.nextPostId)
  }

  /** The UNIQUE columns: users.username, users.email, categories.name. */
  ghost predicate UniqueOk(s: Store)
  {
    UniqueBy(s.users, UserName) && UniqueBy(s.users, UserEmail) && UniqueBy(s.categories, CategoryName)
  }

  /** topics.category_id REFERENCES categories(id). */
  ghost predicate TopicsInCategories(s: Store)
  {
    forall t :: t in s.topics ==> t.categoryId in Keys(s.categories, CategoryId)
  }

  /** posts.topic_id REFERENCES topics(id). */
  ghost predicate PostsInTopics(s: Store)
  {
    forall p :: p in s.posts ==> p.topicId in Keys(s.topics, TopicId)
  }

  ghost predicate HasFirstPost(posts: seq<PostRow>, topicId: int)
  {
    exists p :: p in posts && p.topicId == topicId && p.isFirstPost
  }

  ghost predicate AtMostOneFirstPost(posts: seq<PostRow>)
  {
    forall p, q :: p in posts && q in posts && p.isFirstPost && q.isFirstPost && p.topicId == q.topicId ==> p == q
  }

  /** Every topic keeps the post it was opened with. */
  ghost predicate FirstPostsOk(s: Store)
  {
    AtMostOneFirstPost(s.posts) && forall t :: t in s.topics ==> HasFirstPost(s.posts, t.id)
  }

  /** What the schema and the route handlers together keep true of the database. */
  ghost predicate Consistent(s: Store)
  {
    IdsOk(s) && UniqueOk(s) && TopicsInCategories(s) && PostsInTopics(s) && FirstPostsOk(s)
  }

  /** In a consistent database every topic has exactly one first post. */
  lemma ExactlyOneFirstPost(s: Store, t: TopicRow)
    requires Consistent(s) && t in s.topics
    ensures exists i :: 0 <= i < |s.posts| && s.posts[i].topicId == t.id && s.posts[i].isFirstPost
    ensures forall i, j ::
      (0 <= i < |s.posts| && 0 <= j < |s.posts| &&
       s.posts[i].topicId == t.id && s.posts[i].isFirstPost &&
       s.posts[j].topicId == t.id && s.posts[j].isFirstPost) ==> i == j
  {
    var p :| p in s.posts && p.topicId == t.id && p.isFirstPost;
    var k :| 0 <= k < |s.posts| && s.posts[k] == p;
    forall i, j | 0 <= i < |s.posts| && 0 <= j < |s.posts| &&
      s.posts[i].topicId == t.id && s.posts[i].isFirstPost &&
      s.posts[j].topicId == t.id && s.posts[j].isFirstPost
      ensures i == j
    {
      assert s.posts[i] in s.posts && s.posts[j] in s.posts;
      assert s.posts[i] == s.posts[j];
    }
  }

  // ---------------------------------------------------------------------------
  // Joins and orders used by the SELECT statements.

  /** The topics an inner JOIN with users and categories keeps: those whose author and
      category rows are present. */
  function Joined(topics: seq<TopicRow>, userIds: set<int>, categoryIds: set<int>): (r: seq<TopicRow>)
    ensures |r| <= |topics|
    ensures forall t :: t in r <==> t in topics && t.userId in userIds && t.categoryId in categoryIds
  {
    if |topics| == 0 then []
    else
      var rest := Joined(topics[1..], userIds, categoryIds);
      assert forall t :: t in topics <==> t == topics[0] || t in topics[1..];
      if topics[0].userId in userIds && topics[0].categoryId in categoryIds then [topics[0]] + rest else rest
  }

  /** The posts an inner JOIN with users keeps: those whose author row is present. */
  function WithAuthors(posts: seq<PostRow>, userIds: set<int>): (r: seq<PostRow>)
    ensures |r| <= |posts|
    ensures forall p :: p in r <==> p in posts && p.userId in userIds
  {
    if |posts| == 0 then []
    else
      var rest := WithAuthors(posts[1..], userIds);
      assert forall p :: p in posts <==> p == posts[0] || p in posts[1..];
      if posts[0].userId in userIds then [posts[0]] + rest else rest
  }

  /** ORDER BY is_pinned DESC, updated_at DESC. */
  predicate TopicBefore(a: TopicRow, b: TopicRow)
  {
    (a.isPinned && !b.isPinned) || (a.isPinned == b.isPinned && a.updatedAt >= b.updatedAt)
  }

  /** ORDER BY created_at ASC. */
  predicate PostBefore(a: PostRow, b: PostRow)
  {
    a.createdAt <= b.createdAt
  }

  /** ORDER BY display_order, id, where SQLite puts NULL before every number. */
  predicate CategoryBefore(a: CategoryRow, b: CategoryRow)
  {
    match (a.displayOrder, b.displayOrder)
    case (None, None) => a.id <= b.id
    case (None, Some(_)) => true
    case (Some(_), None) => false
    case (Some(x), Some(y)) => x < y || (x == y && a.id <= b.id)
  }

  lemma OrdersArePreorders()
    ensures TotalPreorder(TopicBefore)
    ensures TotalPreorder(PostBefore)
    ensures TotalPreorder(CategoryBefore)
  {
  }

  /** In the topic order every pinned topic comes before every unpinned one. */
  lemma PinnedFirst(s: seq<TopicRow>, i: int, j: int)
    requires SortedBy(s, TopicBefore) && 0 <= i < j < |s|
    ensures s[j].isPinned ==> s[i].isPinned
    ensures s[i].isPinned == s[j].isPinned ==> s[i].updatedAt >= s[j].updatedAt
  {
    assert TopicBefore(s[i], s[j]);
  }

  /** Ordered by (display_order, id), the categories of a table with distinct ids come in
      exactly one order: the sorted list is determined by its members. */
  lemma CategoryOrderStrict(a: CategoryRow, b: CategoryRow)
    requires CategoryBefore(a, b) && CategoryBefore(b, a)
    ensures a.id == b.id && a.displayOrder == b.displayOrder
  {
  }

  // ---------------------------------------------------------------------------
  // Deletion. The schema declares ON DELETE CASCADE from categories to topics and
  // from topics to posts; the functions below delete along those references.

  /** The ids of the topics in a category. */
  function TopicIdsIn(topics: seq<TopicRow>, categoryId: int): set<int>
  {
    Keys(Select(topics, TopicCategory, categoryId), TopicId)
  }

  /** DELETE FROM topics WHERE id = ?, with the declared cascade to posts. */
  function DeleteTopic(s: Store, id: int): (r: Store)
    ensures r.users == s.users && r.categories == s.categories
    ensures forall t :: t in r.topics <==> t in s.topics && t.id != id
    ensures forall p :: p in r.posts <==> p in s.posts && p.topicId != id
    ensures r.nextUserId == s.nextUserId && r.nextCategoryId == s.nextCategoryId
    ensures r.nextTopicId == s.nextTopicId && r.nextPostId == s.nextPostId
  {
    s.(topics := DeleteIn(s.topics, TopicId, {id}), posts := DeleteIn(s.posts, PostTopic, {id}))
  }

  /** DELETE FROM categories WHERE id = ?, with the declared cascade to its topics and
      their posts. */
  function DeleteCategory(s: Store, id: int): (r: Store)
    ensures r.users == s.users
    ensures forall c :: c in r.categories <==> c in s.categories && c.id != id
    ensures forall t :: t in r.topics <==> t in s.topics && t.categoryId != id
    ensures forall p :: p in r.posts <==> p in s.posts && p.topicId !in TopicIdsIn(s.topics, id)
    ensures r.nextUserId == s.nextUserId && r.nextCategoryId == s.nextCategoryId
    ensures r.nextTopicId == s.nextTopicId && r.nextPostId == s.nextPostId
  {
    s.(categories := DeleteIn(s.categories, CategoryId, {id}),
       topics := DeleteIn(s.topics, TopicCategory, {id}),
       posts := DeleteIn(s.posts, PostTopic, TopicIdsIn(s.topics, id)))
  }

  /** The same DELETE as SQLite runs it here: the connection never turns on
      `PRAGMA foreign_keys`, so the declared cascade does not fire. */
  function DeleteTopicUnenforced(s: Store, id: int): (r: Store)
    ensures r.posts == s.posts
    ensures forall t :: t in r.topics <==> t in s.topics && t.id != id
  {
    s.(topics := DeleteIn(s.topics, TopicId, {id}))
  }

  /** Without enforcement, deleting a topic that has posts leaves posts that point at no
      topic: the database after the DELETE is not consistent. */
  lemma UnenforcedDeleteOrphansPosts()
    ensures var t := NewTopic(1, "Hello", 1, 1, 0);
            var s := Store([], [CategoryRow(1, "General", None, Some(0), 0)], [t],
                           [NewPost(1, 1, 1, "First post", true, 0)], 1, 2, 2, 2);
            Consistent(s) && !Consistent(DeleteTopicUnenforced(s, 1))
  {
    var t := NewTopic(1, "Hello", 1, 1, 0);
    var c := CategoryRow(1, "General", None, Some(0), 0);
    var p := NewPost(1, 1, 1, "First post", true, 0);
    var s := Store([], [c], [t], [p], 1, 2, 2, 2);
    assert c in s.categories;
    assert t in s.topics;
    assert Keys(s.topics, TopicId) == {1};
    assert HasFirstPost(s.posts, t.id) by { assert p in s.posts; }
    var r := DeleteTopicUnenforced(s, 1);
    assert p in r.posts && p.topicId !in Keys(r.topics, TopicId);
  }

  // ---------------------------------------------------------------------------
  // Each change a route handler makes keeps the database consistent.

  lemma InsertUserKeeps(s: Store, u: UserRow)
    requires Consistent(s)
    requires u.id == s.nextUserId
    requires forall x :: x in s.users ==> x.username != u.username && x.email != u.email
    ensures Consistent(s.(users := s.users + [u], nextUserId := s.nextUserId + 1))
  {
    AppendKeepsAscending(s.users, UserId, u, s.nextUserId);
    AppendKeepsUnique(s.users, UserName, u);
    AppendKeepsUnique(s.users, UserEmail, u);
  }

  lemma InsertCategoryKeeps(s: Store, c: CategoryRow)
    requires Consistent(s)
    requires c.id == s.nextCategoryId
    requires forall x :: x in s.categories ==> x.name != c.name
    ensures Consistent(s.(categories := s.categories + [c], nextCategoryId := s.nextCategoryId + 1))
  {
    var r := s.(categories := s.categories + [c], nextCategoryId := s.nextCategoryId + 1);
    AppendKeepsAscending(s.categories, CategoryId, c, s.nextCategoryId);
    AppendKeepsUnique(s.categories, CategoryName, c);
    assert TopicsInCategories(r) by {
      forall t | t in r.topics ensures t.categoryId in Keys(r.categories, CategoryId) {
        var x :| x in s.categories && x.id == t.categoryId;
        assert x in r.categories;
      }
    }
  }

  /** An UPDATE of a category row that keeps its id and leaves every name unique. */
  lemma UpdateCategoryKeeps(s: Store, c: CategoryRow)
    requires Consistent(s)
    requires c.id in Keys(s.categories, CategoryId)
    requires forall x :: x in s.categories && x.id != c.id ==> x.name != c.name
    ensures Consistent(s.(categories := Replace(s.categories, CategoryId, c.id, c)))
  {
    var cs := Replace(s.categories, CategoryId, c.id, c);
    var r := s.(categories := cs);
    ReplaceKeepsKeys(s.categories, CategoryId, c.id, c);
    ReplaceMembers(s.categories, CategoryId, c.id, c);
    assert Below(cs, CategoryId, s.nextCategoryId) by {
      var x :| x in s.categories && x.id == c.id;
    }
    assert UniqueBy(cs, CategoryName) by {
      forall i, j | 0 <= i < j < |cs| ensures cs[i].name != cs[j].name {
        assert s.categories[i] in s.categories && s.categories[j] in s.categories;
        assert s.categories[i].id < s.categories[j].id;
      }
    }
    assert TopicsInCategories(r) by {
      assert Keys(cs, CategoryId) == Keys(s.categories, CategoryId);
    }
  }

  lemma DeleteCategoryKeeps(s: Store, id: int)
    requires Consistent(s)
    ensures Consistent(DeleteCategory(s, id))
  {
    var r := DeleteCategory(s, id);
    var gone := TopicIdsIn(s.topics, id);
    DeleteInKeepsAscending(s.categories, CategoryId, {id}, CategoryId);
    DeleteInKeepsAscending(s.topics, TopicCategory, {id}, TopicId);
    DeleteInKeepsAscending(s.posts, PostTopic, gone, PostId);
    DeleteInKeepsUnique(s.categories, CategoryId, {id}, CategoryName);
    assert TopicsInCategories(r) by {
      forall t | t in r.topics ensures t.categoryId in Keys(r.categories, CategoryId) {
        var c :| c in s.categories && c.id == t.categoryId;
        assert c in r.categories;
      }
    }
    assert PostsInTopics(r) by {
      forall p | p in r.posts ensures p.topicId in Keys(r.topics, TopicId) {
        var t :| t in s.topics && t.id == p.topicId;
        assert t !in Select(s.topics, TopicCategory, id);
        assert t in r.topics;
      }
    }
    assert FirstPostsOk(r) by {
      forall t | t in r.topics ensures HasFirstPost(r.posts, t.id) {
        var p :| p in s.posts && p.topicId == t.id && p.isFirstPost;
        forall t' | t' in Select(s.topics, TopicCategory, id) ensures t'.id != t.id {
          KeyDetermines(s.topics, TopicId, t, t');
        }
        assert p in r.posts;
      }
    }
  }

  lemma DeleteTopicKeeps(s: Store, id: int)
    requires Consistent(s)
    ensures Consistent(DeleteTopic(s, id))
  {
    var r := DeleteTopic(s, id);
    DeleteInKeepsAscending(s.topics, TopicId, {id}, TopicId);
    DeleteInKeepsAscending(s.posts, PostTopic, {id}, PostId);
    assert PostsInTopics(r) by {
      forall p | p in r.posts ensures p.topicId in Keys(r.topics, TopicId) {
        var t :| t in s.topics && t.id == p.topicId;
        assert t in r.topics;
      }
    }
    assert FirstPostsOk(r) by {
      forall t | t in r.topics ensures HasFirstPost(r.posts, t.id) {
        var p :| p in s.posts && p.topicId == t.id && p.isFirstPost;
        assert p in r.posts;
      }
    }
  }

  /** INSERT INTO topics followed by INSERT INTO posts of its first post. */
  lemma InsertTopicKeeps(s: Store, t: TopicRow, p: PostRow)
    requires Consistent(s)
    requires t.id == s.nextTopicId && t.categoryId in Keys(s.categories, CategoryId)
    requires p.id == s.nextPostId && p.topicId == t.id && p.isFirstPost
    ensures Consistent(s.(topics := s.topics + [t], posts := s.posts + [p],
                          nextTopicId := s.nextTopicId + 1, nextPostId := s.nextPostId + 1))
  {
    var r := s.(topics := s.topics + [t], posts := s.posts + [p],
                nextTopicId := s.nextTopicId + 1, nextPostId := s.nextPostId + 1);
    AppendKeepsAscending(s.topics, TopicId, t, s.nextTopicId);
    AppendKeepsAscending(s.posts, PostId, p, s.nextPostId);
    AppendTopicLinks(s.topics, s.posts, t, p);
    AppendFirstPost(s.topics, s.posts, t, p);
  }

  /** A topic appended with its own post keeps every post pointing at a stored topic. */
  lemma AppendTopicLinks(topics: seq<TopicRow>, posts: seq<PostRow>, t: TopicRow, p: PostRow)
    requires forall q :: q in posts ==> q.topicId in Keys(topics, TopicId)
    requires p.topicId == t.id
    ensures forall q :: q in posts + [p] ==> q.topicId in Keys(topics + [t], TopicId)
  {
    forall q | q in posts + [p] ensures q.topicId in Keys(topics + [t], TopicId) {
      if q == p { assert t in topics + [t]; } else {
        var x :| x in topics && x.id == q.topicId;
        assert x in topics + [t];
      }
    }
  }

  /** A new topic appended with its first post: the new post is the only first post of
      the new topic, and every other topic keeps the first post it had. */
  lemma AppendFirstPost(topics: seq<TopicRow>, posts: seq<PostRow>, t: TopicRow, p: PostRow)
    requires AtMostOneFirstPost(posts) && forall x :: x in topics ==> HasFirstPost(posts, x.id)
    requires forall q :: q in posts ==> q.topicId in Keys(topics, TopicId)
    requires forall x :: x in topics ==> x.id < t.id
    requires p.topicId == t.id && p.isFirstPost
    ensures AtMostOneFirstPost(posts + [p])
    ensures forall x :: x in topics + [t] ==> HasFirstPost(posts + [p], x.id)
  {
    forall q | q in posts && q.isFirstPost ensures q.topicId != p.topicId {
      var x :| x in topics && x.id == q.topicId;
    }
    forall x | x in topics + [t] ensures HasFirstPost(posts + [p], x.id) {
      if x == t { assert p in posts + [p]; } else {
        var q :| q in posts && q.topicId == x.id && q.isFirstPost;
        assert q in posts + [p];
      }
    }
  }

  /** The compensating DELETE after a failed first-post INSERT puts the topics and posts
      back as they were; only the AUTOINCREMENT counter has moved on. */
  lemma RollbackRestores(s: Store, t: TopicRow)
    requires Consistent(s) && t.id == s.nextTopicId
    ensures DeleteTopic(s.(topics := s.topics + [t], nextTopicId := s.nextTopicId + 1), t.id)
            == s.(nextTopicId := s.nextTopicId + 1)
  {
    DeleteInUnmatched(s.topics, TopicId, {t.id});
    DeleteInUnmatched(s.posts, PostTopic, {t.id});
    DeleteInUnmatched(s.topics + [t], TopicId, {t.id});
  }

  /** DELETE of rows none of which match changes nothing; a DELETE that matches only
      the appended last row removes just that row. */
  lemma {:induction false} DeleteInUnmatched<T(!new)>(rows: seq<T>, key: T -> int, ks: set<int>)
    ensures (forall x :: x in rows ==> key(x) !in ks) ==> DeleteIn(rows, key, ks) == rows
    ensures |rows| > 0 && key(rows[|rows| - 1]) in ks &&
            (forall x :: x in rows[..|rows| - 1] ==> key(x) !in ks) ==>
            DeleteIn(rows, key, ks) == rows[..|rows| - 1]
  {
    if |rows| > 0 {
      DeleteInUnmatched(rows[1..], key, ks);
      assert forall x :: x in rows[1..] ==> x in rows;
      if |rows| > 1 {
        var init := rows[..|rows| - 1];
        assert rows[1..][..|rows[1..]| - 1] == init[1..];
        assert forall x :: x in init[1..] ==> x in init;
        assert init == [rows[0]] + init[1..];
      }
      assert rows == [rows[0]] + rows[1..];
    }
  }

  /** An UPDATE of a topic row that keeps its id and category. */
  lemma UpdateTopicKeeps(s: Store, prev: TopicRow, t: TopicRow)
    requires Consistent(s) && prev in s.topics
    requires t.id == prev.id && t.categoryId == prev.categoryId
    ensures Consistent(s.(topics := Replace(s.topics, TopicId, t.id, t)))
  {
    var ts := Replace(s.topics, TopicId, t.id, t);
    var r := s.(topics := ts);
    ReplaceKeepsKeys(s.topics, TopicId, t.id, t);
    ReplaceMembers(s.topics, TopicId, t.id, t);
    assert Keys(ts, TopicId) == Keys(s.topics, TopicId);
    assert FirstPostsOk(r) by {
      forall x | x in ts ensures HasFirstPost(s.posts, x.id) {
        if x == t { assert prev in s.topics; }
      }
    }
  }

  /** INSERT INTO posts of a reply (not a first post) to an existing topic. */
  lemma InsertPostKeeps(s: Store, p: PostRow)
    requires Consistent(s)
    requires p.id == s.nextPostId && p.topicId in Keys(s.topics, TopicId) && !p.isFirstPost
    ensures Consistent(s.(posts := s.posts + [p], nextPostId := s.nextPostId + 1))
  {
    var r := s.(posts := s.posts + [p], nextPostId := s.nextPostId + 1);
    AppendKeepsAscending(s.posts, PostId, p, s.nextPostId);
    assert FirstPostsOk(r) by {
      forall x | x in r.topics ensures HasFirstPost(r.posts, x.id) {
        var q :| q in s.posts && q.topicId == x.id && q.isFirstPost;
        assert q in r.posts;
      }
    }
  }

  /** An UPDATE of a post row that keeps its id, topic and first-post flag. */
  lemma UpdatePostKeeps(s: Store, prev: PostRow, p: PostRow)
    requires Consistent(s) && prev in s.posts
    requires p.id == prev.id && p.topicId == prev.topicId && p.isFirstPost == prev.isFirstPost
    ensures Consistent(s.(posts := Replace(s.posts, PostId, p.id, p)))
  {
    var ps := Replace(s.posts, PostId, p.id, p);
    var r := s.(posts := ps);
    ReplaceKeepsKeys(s.posts, PostId, p.id, p);
    ReplaceMembers(s.posts, PostId, p.id, p);
    assert p in ps by { assert p.id in Keys(s.posts, PostId) by { assert prev in s.posts; } }
    ReplacePostFirstPosts(s.topics, s.posts, prev, p);
  }

  /** Rewriting a post in place, with its id, topic and first-post flag kept, leaves
      every topic its first post and no topic two. */
  lemma ReplacePostFirstPosts(topics: seq<TopicRow>, posts: seq<PostRow>, prev: PostRow, p: PostRow)
    requires Ascending(posts, PostId) && prev in posts
    requires AtMostOneFirstPost(posts) && forall x :: x in topics ==> HasFirstPost(posts, x.id)
    requires p.id == prev.id && p.topicId == prev.topicId && p.isFirstPost == prev.isFirstPost
    requires p in Replace(posts, PostId, p.id, p)
    requires forall x :: x in Replace(posts, PostId, p.id, p) ==> x == p || (x in posts && x.id != p.id)
    ensures AtMostOneFirstPost(Replace(posts, PostId, p.id, p))
    ensures forall x :: x in topics ==> HasFirstPost(Replace(posts, PostId, p.id, p), x.id)
  {
    var ps := Replace(posts, PostId, p.id, p);
    forall x | x in topics ensures HasFirstPost(ps, x.id) {
      var q :| q in posts && q.topicId == x.id && q.isFirstPost;
      if q.id == p.id {
        KeyDetermines(posts, PostId, q, prev);
      } else {
        var i :| 0 <= i < |posts| && posts[i] == q;
        assert ps[i] == q;
      }
    }
  }

  /** DELETE FROM posts WHERE id = ? of a post that is not a first post. */
  lemma DeletePostKeeps(s: Store, prev: PostRow)
    requires Consistent(s) && prev in s.posts && !prev.isFirstPost
    ensures Consistent(s.(posts := DeleteIn(s.posts, PostId, {prev.id})))
  {
    var ps := DeleteIn(s.posts, PostId, {prev.id});
    var r := s.(posts := ps);
    DeleteInKeepsAscending(s.posts, PostId, {prev.id}, PostId);
    assert FirstPostsOk(r) by {
      forall x | x in r.topics ensures HasFirstPost(ps, x.id) {
        var q :| q in s.posts && q.topicId == x.id && q.isFirstPost;
        if q.id == prev.id {
          KeyDetermines(s.posts, PostId, q, prev);
        }
        assert q in ps;
      }
    }
  }

  /** The database object the route handlers share. */
  class Db {
    var users: seq<UserRow>
    var categories: seq<CategoryRow>
    var topics: seq<TopicRow>
    var posts: seq<PostRow>
    var nextUserId: int
    var nextCategoryId: int
    var nextTopicId: int
    var nextPostId: int

    function State(): Store
      reads this
    {
      Store(users, categories, topics, posts, nextUserId, nextCategoryId, nextTopicId, nextPostId)
    }

    ghost predicate Valid()
      reads this
    {
      Consistent(State())
    }

    /** A freshly created forum.db: empty tables, every counter at 1. */
    constructor ()
      ensures Valid()
      ensures State() == Store([], [], [], [], 1, 1, 1, 1)
    {
      users, categories, topics, posts := [], [], [], [];
      nextUserId, nextCategoryId, nextTopicId, nextPostId := 1, 1, 1, 1;
    }

    /** Writes back the tables and counters of `s`, as one statement or one transaction
        leaves them. */
    method Commit(s: Store)
      modifies this
      ensures State() == s
    {
      users, categories, topics, posts := s.users, s.categories, s.topics, s.posts;
      nextUserId, nextCategoryId, nextTopicId, nextPostId := s.nextUserId, s.nextCategoryId, s.nextTopicId, s.nextPostId;
    }
  }
}
