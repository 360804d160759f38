# School forum: a verified model of its two backends

The repository is a school forum with two independent server implementations of the same
store: users, categories, topics (threads), posts (replies), thread subscriptions and
notifications. Each request handler makes a short sequential decision, then mutates the
store. This project models both backends in Dafny and proves what each handler promises.

* **Express/SQLite backend** (`src/`). The SQLite database is the class `NodeSchema.Db`:
  one sequence of rows per table, in rowid order, plus the AUTOINCREMENT counters. Its
  `Valid()` holds what the CREATE TABLE statements declare:
  * ascending keys;
  * unique usernames, emails and category names;
  * topics point at categories and posts at topics;
  * each topic has exactly one first post.

  The route handlers of `src/routes/*.js` are methods over the database. For every outcome
  they give the status code and body, and they state the whole new store. The token
  middleware of `src/middleware/auth.js` works on a `Request` object whose `user` it sets.
  Pagination, ORDER BY and LIMIT/OFFSET are functions with their own lemmas.
* **Spring backend** (`pj-forum/back/`). The JPA database is the class `JavaStore.Forum`:
  one map per table, keyed by IDENTITY id, with one counter per table. A `Thread`, which
  the services change through its setters, is a class of its own. The store is used by:
  * the services ThreadService, ReplyService, NotificationService, AuthService and
    ScheduledTaskService;
  * the decision logic of UserController and AdminController.

  Thrown exceptions are values, and `JavaErrors.Handle` maps them to HTTP bodies the way
  GlobalExceptionHandler does.

The two backends share only the role enumeration (`Roles.Role`) and an `Option` type. Where
they differ, each is modelled as written:

| rule | Express | Spring |
|---|---|---|
| reply to a locked topic | refused for ordinary users | not checked |
| pin and lock | set the flag | toggle it |
| password rule | at least 6 characters | at least 8, with upper-case, lower-case and digit |
| login key | username | email |
| banned accounts | none | refused at login |

Everything outside the process is a parameter of the member that uses it:
* the clock, as `now`, a natural number of seconds;
* bcrypt hashing and comparison;
* JWT verification;
* validator.js's `isEmail` and sanitisers;
* the properties file's contents and I/O failures.

Files, one module each:
* `common.dfy`: Options, Roles.
* `tables.dfy`: SQL row-level helpers.
* `ordering.dfy`: ORDER BY and LIMIT/OFFSET.
* Express backend: `node_schema.dfy`, `node_http.dfy`, `node_middleware.dfy`,
  `node_topics.dfy`, `node_posts.dfy`, `node_categories.dfy`, `node_auth.dfy`.
* Spring backend: `java_errors.dfy`, `java_model.dfy`, `java_store.dfy`,
  `java_threads.dfy`, `java_replies.dfy`, `java_users.dfy`, `java_notifications.dfy`,
  `java_auth.dfy`, `java_admin.dfy`, `java_scheduled.dfy`.

## Model

| member | source | states |
|---|---|---|
| Ordering.SortBy | src/routes/topics.js:22 | an ORDER BY returns a permutation of the rows in which the ordering holds between every earlier and later row |
| Ordering.Insert | src/routes/topics.js:22 | placing one row into sorted rows keeps them sorted and adds exactly that row |
| Ordering.FirstBelowAll | src/routes/topics.js:22 | a row that sorts before the head of sorted rows sorts before every one of them |
| Ordering.ConsSorted | src/routes/topics.js:22 | a row placed before sorted rows that all sort after it keeps them sorted |
| Ordering.RestAbove | src/routes/topics.js:22 | when a row goes after the head, every row of the rest, the new one included, sorts after the head |
| Ordering.Window | src/routes/topics.js:23 | LIMIT/OFFSET keeps a contiguous run of the rows starting at the offset (a negative one read as 0), of the limit's length (a negative one read as no limit) or up to the end, and nothing past the end |
| Ordering.WindowKeepsSorted | src/routes/topics.js:22-23 | a LIMIT/OFFSET page cut from rows in ORDER BY order is itself in that order |
| Tables.Find | src/routes/posts.js:74 | `SELECT ... WHERE id = ?` gives a row carrying the key, and nothing exactly when no row carries it |
| Tables.FindAt | src/models/database.js:54 | under AUTOINCREMENT keys the lookup by a row's key gives that very row |
| Tables.FindMember | src/models/database.js:54 | the same, for any stored row |
| Tables.KeyDetermines | src/models/database.js:54 | two stored rows with the same primary key are the same row |
| Tables.Replace | src/routes/posts.js:88 | an UPDATE by key keeps the number of rows and rewrites exactly the rows with that key |
| Tables.ReplaceTwice | src/routes/posts.js:88 | running the same UPDATE twice is running it once |
| Tables.ReplaceMembers | src/routes/posts.js:88 | after an UPDATE every row is the new row or an untouched row with another key, and the new row is present when the key was |
| Tables.ReplaceKeepsKeys | src/routes/posts.js:88 | an UPDATE that keeps the key changes no key and keeps the keys ascending |
| Tables.DeleteIn | src/routes/posts.js:123 | a DELETE keeps exactly the rows whose key is outside the deleted set |
| Tables.KeysOfDeleteIn | src/routes/posts.js:123 | the keys left are the old keys minus the deleted ones |
| Tables.DeleteInKeepsAscending | src/routes/posts.js:123 | a DELETE keeps any order the rows had |
| Tables.DeleteInKeepsUnique | src/routes/posts.js:123 | a DELETE keeps a UNIQUE column unique |
| Tables.Select | src/routes/topics.js:77 | `WHERE topic_id = ?` returns exactly the rows carrying that key |
| Tables.AppendKeepsAscending | src/models/database.js:54 | an INSERT under a key at or past the generator's next value keeps the keys ascending |
| Tables.AppendKeepsUnique | src/models/database.js:14-15 | an INSERT of a new value keeps a UNIQUE column unique |
| NodeSchema.DeleteInUnmatched | src/routes/topics.js:134 | a DELETE that matches no row changes nothing, and one that matches only the last inserted row removes just that row |
| JavaStore.KeysBelow | pj-forum/back/src/main/java/com/schoolforum/dao/ThreadSubscriptionDAO.java:18 | a scan by primary key meets exactly the stored ids below the generator's next value, in ascending order |
| JavaStore.UserWithEmail | pj-forum/back/src/main/java/com/schoolforum/dao/UserDAO.java:23 | the user `findByEmail` finds carries that email |
| NodeSchema.NewUser | src/models/database.js:11-21 | a new user row carries the given username, email and hash, role `user` by default, and both timestamps set to now |
| NodeSchema.NewTopic | src/models/database.js:35-49 | a new topic row is unpinned, unlocked, with view count 0 and both timestamps set to now |
| NodeSchema.NewPost | src/models/database.js:52-64 | a new post row keeps its topic, author and content; `is_first_post` is what the INSERT sets, 0 when omitted |
| NodeSchema.Db.constructor | src/models/database.js:8-74 | a fresh database has four empty tables, every rowid counter at 1, and satisfies the schema invariant |
| NodeSchema.ExactlyOneFirstPost | src/models/database.js:52-64 | in a consistent database every topic has a first post, and no two first posts share a topic |
| NodeSchema.InsertUserKeeps | src/models/database.js:11-21 | inserting a user whose username and email are both new, at the next rowid, keeps the schema invariant (UNIQUE username and email) |
| NodeSchema.InsertCategoryKeeps | src/models/database.js:24-32 | inserting a category with a new name at the next rowid keeps the invariant (UNIQUE name) |
| NodeSchema.UpdateCategoryKeeps | src/models/database.js:27 | rewriting a category in place, under a name no other category has, keeps the invariant |
| NodeSchema.DeleteTopic | src/models/database.js:61 | deleting a topic removes exactly that topic and, by the declared cascade, exactly its posts; users, categories and counters stay |
| NodeSchema.DeleteCategory | src/models/database.js:46-61 | deleting a category removes exactly it, its topics and those topics' posts; users and counters stay |
| NodeSchema.DeleteTopicKeeps | src/models/database.js:61 | the cascading topic delete keeps the invariant: no post is left pointing at a missing topic |
| NodeSchema.DeleteCategoryKeeps | src/models/database.js:46 | the cascading category delete keeps the invariant: no topic or post is left dangling |
| NodeSchema.DeleteTopicUnenforced | src/models/database.js:61 | as SQLite runs it without `PRAGMA foreign_keys`: the topic goes and the posts table is left as it was |
| NodeSchema.UnenforcedDeleteOrphansPosts | src/models/database.js:61 | on a database with one topic and its first post, the unenforced delete leaves a post whose topic no longer exists |
| NodeSchema.InsertTopicKeeps | src/routes/topics.js:117-131 | inserting a topic into an existing category together with its first post keeps the invariant |
| NodeSchema.AppendTopicLinks | src/routes/topics.js:117-131 | a topic appended with its own post leaves every post pointing at a stored topic |
| NodeSchema.AppendFirstPost | src/routes/topics.js:117-131 | a new topic appended with its first post: at most one first post per topic, and every topic, the new one included, has one |
| NodeSchema.RollbackRestores | src/routes/topics.js:132-135 | deleting a just-inserted topic that has no posts gives back the topics and posts as they were, with the topic counter still advanced |
| NodeSchema.UpdateTopicKeeps | src/routes/topics.js:179-181 | rewriting a topic in place with the same id and category keeps the invariant |
| NodeSchema.InsertPostKeeps | src/routes/posts.js:37-39 | inserting a reply (not a first post) to an existing topic keeps the invariant |
| NodeSchema.UpdatePostKeeps | src/routes/posts.js:87-89 | rewriting a post in place with the same id, topic and first-post flag keeps the invariant |
| NodeSchema.ReplacePostFirstPosts | src/routes/posts.js:87-89 | rewriting a post in place with its id, topic and first-post flag kept leaves every topic its one first post |
| NodeSchema.DeletePostKeeps | src/routes/posts.js:118-123 | deleting a post that is not a first post keeps the invariant, so every topic keeps its first post |
| NodeSchema.Joined | src/routes/topics.js:17-19 | the inner JOINs keep exactly the topics whose author and category rows exist, and never add rows |
| NodeSchema.WithAuthors | src/routes/topics.js:73-75 | the inner JOIN with users keeps exactly the posts whose author row exists |
| NodeSchema.OrdersArePreorders | src/routes/topics.js:22 | the three ORDER BY clauses (topics, posts, categories) are total preorders, so sorting by them is well defined |
| NodeSchema.PinnedFirst | src/routes/topics.js:22 | in a list sorted by the topic order every pinned topic precedes every unpinned one, and within the same pin state `updated_at` descends |
| NodeSchema.CategoryOrderStrict | src/routes/categories.js:18 | two categories that each sort before the other have the same id and display order, so ordering by (display_order, id) is strict on distinct ids |
| NodeMiddleware.Split | src/middleware/auth.js:16 | `split(sep)` gives at least one field and no field contains the separator |
| NodeMiddleware.JoinSplit | src/middleware/auth.js:16 | joining the fields of a split with the separator gives back the string |
| NodeMiddleware.SplitAfter | src/middleware/auth.js:16 | a separator-free prefix followed by the separator is the first field of the split |
| NodeMiddleware.SplitWhole | src/middleware/auth.js:16 | a string without the separator splits into itself alone |
| NodeMiddleware.BearerTokenIff | src/middleware/auth.js:15-16 | a header "scheme token rest", with a space-free scheme and token, yields exactly that token |
| NodeMiddleware.BearerTokenShape | src/middleware/auth.js:15-18 | every token the header yields is non-empty, space-free, and is the second space-separated field of the header |
| NodeMiddleware.Request.constructor | src/middleware/auth.js:15 | a request starts with its Authorization header and no `req.user` |
| NodeMiddleware.AuthenticateToken | src/middleware/auth.js:14-29 | no token gives 401 "Access token required"; a token that fails verification gives 403 "Invalid or expired token"; otherwise `req.user` becomes the verified claims and the next handler runs |
| NodeMiddleware.IsModerator | src/middleware/auth.js:32-38 | passes iff a user is present with role moderator or admin, and otherwise answers 403 "Moderator access required" |
| NodeMiddleware.IsAdmin | src/middleware/auth.js:41-47 | passes iff a user is present with role admin, and otherwise answers 403 "Admin access required" |
| NodeMiddleware.AdminGateNarrower | src/middleware/auth.js:33-42 | every caller the admin gate admits, the moderator gate admits too; the moderator gate admits exactly the staff roles |
| NodeTopics.OrDefault | src/routes/topics.js:10-11 | `parseInt(q) \|\| d` is the default when the query value is missing, non-numeric or 0, and the value itself otherwise; it is never 0 when the default is not |
| NodeTopics.TotalPages | src/routes/topics.js:41 | `Math.ceil(total / limit)`: for a positive limit, (pages - 1) * limit < total <= pages * limit, and the mirror bound for a negative limit |
| NodeTopics.PagesCoverTotal | src/routes/topics.js:41 | for a positive limit there are no pages iff there are no rows, at least one page otherwise, and the last page is never empty |
| NodeTopics.ListTopics | src/routes/topics.js:9-47 | page and limit take their defaults, total counts every topic, totalPages is its ceiling, and the page is the window at `(page - 1) * limit` of the joined topics sorted pinned first and then by `updated_at` descending |
| NodeTopics.Viewed | src/routes/topics.js:54 | the view count goes up by exactly one and nothing else in the row changes |
| NodeTopics.CountView | src/routes/topics.js:54 | the UPDATE bumps the view count of the topic with that id and changes nothing when no row has it |
| NodeTopics.GetTopic | src/routes/topics.js:50-88 | the view count is bumped before the lookup; 404 "Topic not found" iff the id is missing (no row changed) or the JOIN drops the topic; otherwise the answer is the bumped topic and exactly its posts with existing authors, oldest first |
| NodeTopics.TopicPosts | src/routes/topics.js:72-78 | the posts listed are exactly those of the topic whose author exists, sorted by `created_at` ascending, a permutation of the joined selection |
| NodeTopics.NewTopicErrors | src/routes/topics.js:93-102 | no error iff the title is 5-200 characters, the content at least 10 and `category_id` an integer; each field is reported iff its own rule fails |
| NodeTopics.CreateTopic | src/routes/topics.js:91-148 | validation errors give 400 with nothing stored; a missing category gives 400 "Category not found"; a failed first-post insert leaves only the advanced topic counter; otherwise one topic and its one first post are added, answered by 201 |
| NodeTopics.InsertTopic | src/routes/topics.js:117-143 | the two INSERTs add the new topic and its first post; when the second fails the compensating DELETE removes the topic again |
| NodeTopics.CreatedTopicHasOneFirstPost | src/routes/topics.js:128-131 | after a successful create the new topic has exactly one post marked as first post |
| NodeTopics.UpdateTopic | src/routes/topics.js:151-191 | an invalid title gives 400; then a missing topic 404, a caller who is neither owner nor staff 403, an absent title a NOT NULL failure (500); otherwise only title and `updated_at` of that topic change |
| NodeTopics.DeleteTopicRoute | src/routes/topics.js:234-257 | a missing topic gives 404, a caller who is neither owner nor staff 403; otherwise the topic and, by the declared cascade, its posts are removed |
| NodeTopics.SetFlagIdempotent | src/routes/topics.js:198-200 | setting pin or lock to a value twice is the same as setting it once, and the topic with that id ends up equal to itself with only that flag replaced |
| NodeTopics.PinTopic | src/routes/topics.js:194-211 | a non-staff caller gets 403; a missing id gives 404 with no change; otherwise `is_pinned` becomes the requested truthiness and the message says pinned or unpinned |
| NodeTopics.LockTopic | src/routes/topics.js:214-231 | a non-staff caller gets 403; a missing id gives 404 with no change; otherwise `is_locked` becomes the requested truthiness and the message says locked or unlocked |
| NodePosts.NewPostErrors | src/routes/posts.js:11-19 | no error iff `topic_id` is an integer and the content has at least one character; each field is reported iff its own rule fails |
| NodePosts.CreatePost | src/routes/posts.js:9-56 | validation errors give 400; a missing topic gives 400 "Topic not found"; a locked topic gives 403 "Topic is locked" unless the caller is moderator or admin; otherwise one post with `is_first_post` 0 is added and the topic's `updated_at` becomes now |
| NodePosts.InsertReply | src/routes/posts.js:37-51 | the INSERT adds the reply at the next post id and the UPDATE bumps only its topic's `updated_at` |
| NodePosts.UpdatePost | src/routes/posts.js:59-99 | empty content gives 400; a missing post 404; a caller who is neither owner nor staff 403; otherwise only the content and `updated_at` of that post change |
| NodePosts.DeletePost | src/routes/posts.js:102-130 | the checks run in the order missing (404), not allowed (403), first post (400); only a passing request removes exactly that post, and no first post is ever removed |
| NodeCategories.ListCategories | src/routes/categories.js:9-26 | the list is a permutation of all categories sorted by display order, then id |
| NodeCategories.GetCategory | src/routes/categories.js:29-60 | a missing id gives 404 "Category not found" iff no such category; otherwise the category and a permutation of exactly its topics with existing authors, each once, pinned first then `updated_at` descending |
| NodeCategories.OrderOrZero | src/routes/categories.js:80 | an absent display order is stored as 0, a given one as itself |
| NodeCategories.CreateCategory | src/routes/categories.js:63-92 | a non-admin gets 403; an empty name 400; a taken name 400 "Category already exists" with nothing stored; otherwise one category with display order defaulting to 0 is added, answered by 201 |
| NodeCategories.Patched | src/routes/categories.js:114-125 | the name changes only for a non-empty string, description and display order only when present (null clears them); id and creation time never change |
| NodeCategories.ApplyAppend | src/routes/categories.js:111-125 | running a SET list with one more assignment is running the shorter list and then that assignment |
| NodeCategories.ApplySteps | src/routes/categories.js:111-125 | the SET list built by the three `push` steps has exactly the effect of Patched |
| NodeCategories.UpdateCategory | src/routes/categories.js:95-147 | a non-admin gets 403; an empty name 400; no field 400 "No fields to update" with nothing changed; a missing id 404; a name another category has fails the UNIQUE constraint (500); otherwise the row becomes its Patched form |
| NodeCategories.RunUpdate | src/routes/categories.js:131-145 | the UPDATE rewrites the row with that id to its Patched form, or reports 404 when no row has the id |
| NodeCategories.FindUniqueName | src/models/database.js:27 | under the UNIQUE name column two categories with the same name are the same row |
| NodeCategories.DeleteCategoryRoute | src/routes/categories.js:150-162 | a non-admin gets 403; a missing id 404; otherwise the category, its topics and their posts go, by the declared cascade |
| NodeCategories.CascadeCategory | src/routes/categories.js:153 | the DELETE statement leaves the database as DeleteCategory describes and keeps the invariant |
| NodeAuth.RegisterErrors | src/routes/auth.js:12-21 | no error iff the username has at least 3 characters, the email passes `isEmail` and the password has at least 6; each field is reported iff its own rule fails |
| NodeAuth.TakenMeans | src/routes/auth.js:27 | the duplicate lookup finds a row iff some user has the same username or the same email |
| NodeAuth.Register | src/routes/auth.js:11-54 | validation errors give 400; a taken username or email gives 400 "User already exists" with nothing stored; otherwise one user with role `user` and the hash (never the plaintext) is added, answered by 201 with the new id |
| NodeAuth.Login | src/routes/auth.js:57-105 | an unknown username and a wrong password give the same 401 "Invalid credentials"; success returns a 24-hour token carrying exactly id, username and role, and a `user` object with only those three fields |
| JavaErrors.Superclass | pj-forum/back/src/main/java/com/schoolforum/config/GlobalExceptionHandler.java:25-119 | every exception class but `Exception` has a direct superclass one step nearer the root, so the handler search ends |
| JavaErrors.HandlerFor | pj-forum/back/src/main/java/com/schoolforum/config/GlobalExceptionHandler.java:25-119 | the handler selected for a class is one the class declares an `@ExceptionHandler` for, and the class is that handler's class or a subclass of it |
| JavaErrors.HandlerIsNearest | pj-forum/back/src/main/java/com/schoolforum/config/GlobalExceptionHandler.java:25-119 | every other handler that could take the class is at or above the selected one, so the most specific handler wins |
| JavaErrors.Fail | pj-forum/back/src/main/java/com/schoolforum/service/ThreadService.java:94 | `new RuntimeException(message)` is a RuntimeException carrying exactly that message |
| JavaErrors.HandleMatchesTable | pj-forum/back/src/main/java/com/schoolforum/config/GlobalExceptionHandler.java:25-133 | ResourceNotFoundException gives 404 with its message, AccessDeniedException 403 with the fixed text, BadCredentialsException 401 "Invalid email or password", IllegalArgumentException and any other RuntimeException 400 with the message, NullPointerException 500 "Required data is missing", anything else 500 "An unexpected error occurred"; every body has `success = false` |
| JavaErrors.ServerErrorsAreUnchecked | pj-forum/back/src/main/java/com/schoolforum/config/GlobalExceptionHandler.java:101-133 | the status is 500 iff the exception is a NullPointerException or not a RuntimeException at all |
| JavaModel.ParseRole | pj-forum/back/src/main/java/com/schoolforum/model/User.java:71-73 | `Role.valueOf` succeeds iff the name is exactly USER, MODERATOR or ADMIN |
| JavaModel.ParseRoleName | pj-forum/back/src/main/java/com/schoolforum/model/User.java:71-73 | `valueOf(r.name())` is r, and a name that parses to r is r's name |
| JavaModel.AuthorOrStaffByRole | pj-forum/back/src/main/java/com/schoolforum/service/ThreadService.java:136-140 | the author-or-staff test on the role string passes iff the caller is the author or the role is MODERATOR or ADMIN |
| JavaModel.NewUser | pj-forum/back/src/main/java/com/schoolforum/model/User.java:38-61 | a new user has role USER, status ACTIVE, the given credentials, no bio, avatar or last login, and both timestamps set to now |
| JavaModel.NullSafe | pj-forum/back/src/main/java/com/schoolforum/model/Thread.java:82-88 | `isPinned()`/`isLocked()` is true iff the field holds true, so a null flag reads as false |
| JavaModel.OrZero | pj-forum/back/src/main/java/com/schoolforum/model/Thread.java:99-101 | `getViewCount()` is 0 when `views` is null and `views` otherwise |
| JavaModel.ToggleFlips | pj-forum/back/src/main/java/com/schoolforum/service/ThreadService.java:178-196 | a toggle flips what its getter reports and leaves the other flag as it was |
| JavaModel.ToggleTwice | pj-forum/back/src/main/java/com/schoolforum/service/ThreadService.java:178-196 | toggling twice restores the thread apart from the save's timestamp (a null flag comes back as false) |
| JavaModel.Thread.constructor | pj-forum/back/src/main/java/com/schoolforum/model/Thread.java:35-56 | a new thread is not anonymous, unpinned, unlocked, with 0 views and no last reply |
| JavaModel.Thread.IsPinned | pj-forum/back/src/main/java/com/schoolforum/model/Thread.java:86-88 | true iff the field is non-null and true |
| JavaModel.Thread.IsLocked | pj-forum/back/src/main/java/com/schoolforum/model/Thread.java:82-84 | true iff the field is non-null and true |
| JavaModel.Thread.ViewCount | pj-forum/back/src/main/java/com/schoolforum/model/Thread.java:99-101 | 0 when `views` is null, else `views` |
| JavaModel.Thread.SetPinned | pj-forum/back/src/main/java/com/schoolforum/model/Thread.java:90-92 | only `isPinned` changes, and the getter then reports the value given |
| JavaModel.Thread.SetLocked | pj-forum/back/src/main/java/com/schoolforum/model/Thread.java:94-96 | only `isLocked` changes, and the getter then reports the value given |
| JavaModel.Thread.SetViewCount | pj-forum/back/src/main/java/com/schoolforum/model/Thread.java:103-105 | only `views` changes, and `getViewCount()` then reports the value given, or 0 for null |
| JavaStore.EmailDetermines | pj-forum/back/src/main/java/com/schoolforum/model/User.java:32-33 | under the unique email column the user `findByEmail` finds is the one row with that email |
| JavaThreads.Incremented | pj-forum/back/src/main/java/com/schoolforum/dao/ThreadDAO.java:25-27 | the native `views = views + 1` adds one to a set counter and leaves NULL as NULL |
| JavaThreads.IncrementCounts | pj-forum/back/src/main/java/com/schoolforum/dao/ThreadDAO.java:25-27 | on a set counter one increment raises the reported view count by exactly one |
| JavaThreads.GetThreadById | pj-forum/back/src/main/java/com/schoolforum/service/ThreadService.java:74-86 | a missing id throws ResourceNotFoundException; otherwise the view is the thread as loaded, and the counter goes up once unless the increment fails, which is swallowed |
| JavaThreads.ResolveTags | pj-forum/back/src/main/java/com/schoolforum/service/ThreadService.java:111-121 | each requested name resolves, position by position, to the tag of that name: the existing row, or one newly saved; old tags are kept and every new tag has a requested name no old tag had |
| JavaThreads.ResolveIn | pj-forum/back/src/main/java/com/schoolforum/service/ThreadService.java:112-119 | over the tag table and its counter: each name resolves to a tag of that name, old tags are kept, new tags carry requested names no old tag had, and names stay unique |
| JavaThreads.SaveThread | pj-forum/back/src/main/java/com/schoolforum/service/ThreadService.java:123 | saving a new entity gives it the next id, which was free, and adds only it |
| JavaThreads.NewThread | pj-forum/back/src/main/java/com/schoolforum/service/ThreadService.java:99-121 | the unsaved entity has the given title, content, author and category, is unpinned, unlocked, with 0 views and no reply, and its tag ids resolve to the requested names |
| JavaThreads.CreateThread | pj-forum/back/src/main/java/com/schoolforum/service/ThreadService.java:92-125 | a missing author throws "User not found", a missing category "Category not found", neither changing the store; otherwise one new thread, unpinned, unlocked, with 0 views, its tags resolved, is added under the next id |
| JavaThreads.UpdateThread | pj-forum/back/src/main/java/com/schoolforum/service/ThreadService.java:131-154 | a missing thread throws "Thread not found"; a caller who is neither author nor staff "Unauthorized to edit this thread"; an unknown supplied category "Category not found", each leaving the thread as it was; otherwise title and content are overwritten and the category changes only when supplied |
| JavaThreads.Outside | pj-forum/back/src/main/java/com/schoolforum/model/Thread.java:67-79 | the replies or subscriptions left after deleting the threads in a set are exactly those belonging to other threads, unchanged |
| JavaThreads.DeleteThreadsKeeps | pj-forum/back/src/main/java/com/schoolforum/model/Thread.java:67-79 | deleting threads together with their cascaded replies and subscriptions keeps the store consistent: no reply is left pointing at a deleted thread |
| JavaThreads.DropThreads | pj-forum/back/src/main/java/com/schoolforum/service/ThreadService.java:171 | deleting a set of threads removes exactly them, their replies and their subscriptions, and keeps the store consistent |
| JavaThreads.DeleteThread | pj-forum/back/src/main/java/com/schoolforum/service/ThreadService.java:160-172 | a missing thread throws "Thread not found"; a caller who is neither author nor staff "Unauthorized to delete this thread" with nothing removed; otherwise exactly that thread, its replies and its subscriptions go |
| JavaThreads.TogglePin | pj-forum/back/src/main/java/com/schoolforum/service/ThreadService.java:178-184 | a missing thread throws "Thread not found"; otherwise the thread becomes its pin-toggled form, every other field but the save's timestamp unchanged |
| JavaThreads.ToggleLock | pj-forum/back/src/main/java/com/schoolforum/service/ThreadService.java:190-196 | a missing thread throws "Thread not found"; otherwise the thread becomes its lock-toggled form, every other field but the save's timestamp unchanged |
| JavaThreads.ThreadsByCategory | pj-forum/back/src/main/java/com/schoolforum/service/ThreadService.java:53-59 | at most 100 distinct threads, all of that category, and every thread of the category when fewer than 100 come back |
| JavaThreads.InCategory | pj-forum/back/src/main/java/com/schoolforum/service/ThreadService.java:53-59 | from a scan, exactly the threads of the category, in the scan's ascending order |
| JavaThreads.CategoryOf | pj-forum/back/src/main/java/com/schoolforum/service/ThreadService.java:53-59 | the category of exactly the stored threads |
| JavaReplies.OfThread | pj-forum/back/src/main/java/com/schoolforum/service/ReplyService.java:39 | from an ascending scan, exactly the ids whose reply belongs to the thread, still ascending |
| JavaReplies.Views | pj-forum/back/src/main/java/com/schoolforum/service/ReplyService.java:40-42 | one DTO per reply, in the same order, each the conversion of that reply |
| JavaReplies.RepliesByThread | pj-forum/back/src/main/java/com/schoolforum/service/ReplyService.java:38-43 | the list holds exactly the replies of the thread, each once in id order, each converted from its row; a missing thread gives an empty list |
| JavaReplies.CreateReply | pj-forum/back/src/main/java/com/schoolforum/service/ReplyService.java:49-70 | a missing thread throws "Thread not found", a missing user "User not found", with nothing saved; otherwise one reply is added under the next id and the thread's `lastReplyAt` becomes now, whether or not the thread is locked |
| JavaReplies.DeleteReply | pj-forum/back/src/main/java/com/schoolforum/service/ReplyService.java:75-87 | a missing reply throws "Reply not found"; a caller who is neither author nor staff "Unauthorized to delete this reply" with nothing removed; otherwise exactly that reply goes |
| JavaScheduled.Expired | pj-forum/back/src/main/java/com/schoolforum/service/ScheduledTaskService.java:35-45 | a thread is selected iff auto-delete is on (days > 0) and the thread was created strictly before now minus that many days |
| JavaScheduled.ExpiredShrinks | pj-forum/back/src/main/java/com/schoolforum/service/ScheduledTaskService.java:40 | a longer retention selects a subset of what a shorter positive one selects |
| JavaScheduled.CreationTimes | pj-forum/back/src/main/java/com/schoolforum/service/ScheduledTaskService.java:45 | the creation time of exactly the stored threads |
| JavaScheduled.ScheduledTaskService.constructor | pj-forum/back/src/main/java/com/schoolforum/service/ScheduledTaskService.java:25-26 | the service keeps the configured number of days |
| JavaScheduled.ScheduledTaskService.DeleteOldThreads | pj-forum/back/src/main/java/com/schoolforum/service/ScheduledTaskService.java:34-56 | with days <= 0 nothing changes; otherwise exactly the threads created before the cutoff go, with their replies and subscriptions, every survivor is at or after the cutoff, and the store stays consistent |
| JavaScheduled.ScheduledTaskService.CleanOldNotifications | pj-forum/back/src/main/java/com/schoolforum/service/ScheduledTaskService.java:62-68 | the store is left exactly as it was |
| JavaUsers.PatchedChangesOnlyGivenKeys | pj-forum/back/src/main/java/com/schoolforum/controller/UserController.java:88-105 | only the keys present in the body (`username`, `avatar`, `bio`) change, each to the value given; email, password, role, status and the other timestamps stay; applying the same update again changes nothing more |
| JavaUsers.UpdateProfile | pj-forum/back/src/main/java/com/schoolforum/controller/UserController.java:62-114 | an unknown caller or target gives 400 with the update prefix; a caller who is neither the target nor ADMIN gets 403; a supplied username outside 3-50 characters gives 400; a row the table refuses gives 400 with the driver's message; each of these saves nothing; otherwise the target becomes its patched form and 200 |
| JavaUsers.BanUser | pj-forum/back/src/main/java/com/schoolforum/controller/UserController.java:119-140 | a missing target gives 400 "User not found" after the ban prefix; an ADMIN target gives 400 with its status unchanged; otherwise only status (BANNED) and `updatedAt` change |
| JavaUsers.UnbanUser | pj-forum/back/src/main/java/com/schoolforum/controller/UserController.java:145-160 | a missing target gives 400; otherwise the status becomes ACTIVE from whatever it was, SUSPENDED included |
| JavaUsers.ChangeUserRole | pj-forum/back/src/main/java/com/schoolforum/controller/UserController.java:165-200 | a missing `role` key gives 400 with "Name is null"; an unknown role name 400 "Vai trò không hợp lệ"; a missing target 400; an ADMIN target may only be set to ADMIN; otherwise only role and `updatedAt` change, to the parsed role |
| JavaNotifications.OwnedBy | pj-forum/back/src/main/java/com/schoolforum/service/NotificationService.java:35-44 | from an ascending scan, exactly the user's notifications (only the unread ones when asked), still ascending |
| JavaNotifications.UserNotifications | pj-forum/back/src/main/java/com/schoolforum/service/NotificationService.java:35-37 | exactly the ids of the user's notifications, ascending |
| JavaNotifications.UnreadNotifications | pj-forum/back/src/main/java/com/schoolforum/service/NotificationService.java:42-44 | exactly the ids of the user's notifications whose `read` is false, ascending |
| JavaNotifications.MarkAsRead | pj-forum/back/src/main/java/com/schoolforum/service/NotificationService.java:50-61 | a missing notification throws "Notification not found", another user's "Unauthorized", neither changing anything; otherwise only its `read` becomes true, so marking again changes nothing |
| JavaNotifications.AllReadMeans | pj-forum/back/src/main/java/com/schoolforum/service/NotificationService.java:67-71 | after marking all read the user has no unread notification, no notification is added or removed, other users' ones are untouched, and only `read` changes |
| JavaNotifications.ReadAmong | pj-forum/back/src/main/java/com/schoolforum/service/NotificationService.java:69 | setting a list of notifications read keeps the table's ids |
| JavaNotifications.ReadAmongStep | pj-forum/back/src/main/java/com/schoolforum/service/NotificationService.java:69 | setting one more notification read is one more single-row update |
| JavaNotifications.ReadAmongUnread | pj-forum/back/src/main/java/com/schoolforum/service/NotificationService.java:68-70 | setting the user's unread notifications read gives the same table as setting all of the user's notifications read |
| JavaNotifications.SetRead | pj-forum/back/src/main/java/com/schoolforum/service/NotificationService.java:59-60 | only that notification's `read` becomes true |
| JavaNotifications.MarkAllAsRead | pj-forum/back/src/main/java/com/schoolforum/service/NotificationService.java:67-71 | setting each of the user's unread notifications read leaves the table as AllRead describes |
| JavaNotifications.ReadEach | pj-forum/back/src/main/java/com/schoolforum/service/NotificationService.java:69 | setting a list of notifications read one after the other gives ReadAmong of that list |
| JavaNotifications.DeleteNotification | pj-forum/back/src/main/java/com/schoolforum/service/NotificationService.java:77-87 | a missing notification throws "Notification not found", another user's "Unauthorized", neither changing anything; otherwise exactly that notification is removed |
| JavaNotifications.Subscribe | pj-forum/back/src/main/java/com/schoolforum/service/NotificationService.java:93-109 | a missing user throws "User not found"; an existing pair "Already subscribed to this thread"; a missing thread fails at the foreign key; otherwise one row for the pair is added; afterwards the pair is subscribed iff it succeeded or already was, so pairs stay unique |
| JavaNotifications.Unsubscribe | pj-forum/back/src/main/java/com/schoolforum/service/NotificationService.java:115-120 | no row for the pair throws "Not subscribed to this thread"; otherwise exactly that one row goes and the pair is no longer subscribed |
| JavaNotifications.RecipientsMembers | pj-forum/back/src/main/java/com/schoolforum/service/NotificationService.java:127-133 | a user is a recipient iff some scanned subscription ties them to the thread and they are not the reply's author |
| JavaNotifications.RecipientsDistinct | pj-forum/back/src/main/java/com/schoolforum/service/NotificationService.java:127-133 | under unique (user, thread) pairs no recipient appears twice |
| JavaNotifications.Fanout | pj-forum/back/src/main/java/com/schoolforum/service/NotificationService.java:135-143 | one notification per recipient under consecutive new ids: unread, NEW_REPLY, addressed to the recipient, pointing at the thread, with message "New reply in thread: " + title |
| JavaNotifications.RecipientsStep | pj-forum/back/src/main/java/com/schoolforum/service/NotificationService.java:129-133 | scanning one more subscription adds its user when it is for the thread and not the author, and nothing otherwise |
| JavaNotifications.FanoutStep | pj-forum/back/src/main/java/com/schoolforum/service/NotificationService.java:135-143 | inserting the next recipient's notification extends the fan-out by exactly one id |
| JavaNotifications.RecipientsNext | pj-forum/back/src/main/java/com/schoolforum/service/NotificationService.java:129-133 | the recipient list after one more scanned subscription, in both cases of the test |
| JavaNotifications.SavedNext | pj-forum/back/src/main/java/com/schoolforum/service/NotificationService.java:135-143 | saving the next recipient's notification puts it under the next id |
| JavaNotifications.SavedInOrderIsFanout | pj-forum/back/src/main/java/com/schoolforum/service/NotificationService.java:135-143 | saving the recipients' notifications one by one gives the existing ones plus the fan-out |
| JavaNotifications.SaveFanout | pj-forum/back/src/main/java/com/schoolforum/service/NotificationService.java:129-143 | the loop over the scanned subscriptions saves exactly the fan-out of the recipients and advances the counter by their number |
| JavaNotifications.FanoutBelow | pj-forum/back/src/main/java/com/schoolforum/service/NotificationService.java:135-143 | after the fan-out every notification id stays below the advanced counter |
| JavaNotifications.NotifyThreadSubscribers | pj-forum/back/src/main/java/com/schoolforum/service/NotificationService.java:126-145 | the notifications gain exactly the fan-out of the thread's recipients, and the id counter advances by their number |
| JavaNotifications.FanoutReachesEvery | pj-forum/back/src/main/java/com/schoolforum/service/NotificationService.java:127-143 | every subscriber of the thread other than the reply's author receives a notification |
| JavaNotifications.FanoutNotifiesEach | pj-forum/back/src/main/java/com/schoolforum/service/NotificationService.java:135-143 | every user on the recipient list receives a notification |
| JavaNotifications.FanoutReachesOnly | pj-forum/back/src/main/java/com/schoolforum/service/NotificationService.java:127-143 | nobody else receives one |
| JavaNotifications.FanoutReachesSubscribers | pj-forum/back/src/main/java/com/schoolforum/service/NotificationService.java:127-143 | a user receives a notification iff they subscribe to the thread and did not write the reply |
| JavaNotifications.FanoutOncePerUser | pj-forum/back/src/main/java/com/schoolforum/service/NotificationService.java:127-143 | no user receives two of the new notifications |
| JavaAuth.FirstIndex | pj-forum/back/src/main/java/com/schoolforum/service/AuthService.java:40 | the first position of a character, or -1 when it does not occur |
| JavaAuth.LastIndex | pj-forum/back/src/main/java/com/schoolforum/service/AuthService.java:40 | the last position of a character, or -1 when it does not occur |
| JavaAuth.ValidEmailIsShape | pj-forum/back/src/main/java/com/schoolforum/service/AuthService.java:40 | the scan accepts an address iff it is a non-empty local part over `[A-Za-z0-9+_.-]`, `@`, a non-empty domain over `[A-Za-z0-9.-]`, `.`, and at least two ASCII letters at the end |
| JavaAuth.AtIsFirst | pj-forum/back/src/main/java/com/schoolforum/service/AuthService.java:40 | an `@` preceded only by local-part characters is the first `@` |
| JavaAuth.DotIsLast | pj-forum/back/src/main/java/com/schoolforum/service/AuthService.java:40 | a `.` followed only by letters is the last `.` |
| JavaAuth.ShapeHasOneAt | pj-forum/back/src/main/java/com/schoolforum/service/AuthService.java:40 | every address the pattern accepts holds exactly one `@` |
| JavaAuth.RegisterRejection | pj-forum/back/src/main/java/com/schoolforum/service/AuthService.java:38-67 | the refusal is the first failing check, in the order: email shape, at least 8 characters, an upper-case, a lower-case and a digit (none past a line terminator, since `.` does not match one), username taken, email taken; none iff all pass |
| JavaAuth.ViewOf | pj-forum/back/src/main/java/com/schoolforum/service/AuthService.java:130-138 | the DTO carries the id, username and email, a role name that parses back to the user's role, the status's name, and the user's bio and avatar; it has no password field |
| JavaAuth.Register | pj-forum/back/src/main/java/com/schoolforum/service/AuthService.java:37-81 | a refusal (see RegisterRejection) saves nothing; a row the columns cannot hold makes the save throw; otherwise exactly one new user, holding the encoded password, is added under an unused id and the reply is "Đăng ký thành công" with no token |
| JavaAuth.Login | pj-forum/back/src/main/java/com/schoolforum/service/AuthService.java:86-141 | an unknown email and a wrong password get the same "Invalid email or password"; a stored hash shorter than 20 characters throws at the debug line; a BANNED user is refused before the password is checked; success changes only that user's `lastLoginAt` and `updatedAt` and returns claims of username, id and role name with the user's DTO |
| JavaAuth.CurrentUser | pj-forum/back/src/main/java/com/schoolforum/service/AuthService.java:146-160 | succeeds iff the user exists, with that user's DTO (`ViewOf`: id, username, email, role, status, bio, avatar); otherwise throws "User not found" |
| JavaAdmin.NatToString | pj-forum/back/src/main/java/com/schoolforum/controller/AdminController.java:57 | `days.toString()` of a non-negative number is a non-empty run of digits, with no leading zero from 10 on |
| JavaAdmin.NatToStringRoundTrip | pj-forum/back/src/main/java/com/schoolforum/controller/AdminController.java:57 | reading the digits back gives the number |
| JavaAdmin.TrimStart | pj-forum/back/src/main/java/com/schoolforum/controller/AdminController.java:86 | the front of `trim()` is no longer and starts with a character above U+0020 |
| JavaAdmin.TrimEnd | pj-forum/back/src/main/java/com/schoolforum/controller/AdminController.java:86 | the back of `trim()` is no longer and ends with a character above U+0020 |
| JavaAdmin.TrimStartDropsBlanks | pj-forum/back/src/main/java/com/schoolforum/controller/AdminController.java:86 | trimming the front drops only characters up to U+0020 and keeps the rest as it was |
| JavaAdmin.TrimEndDropsBlanks | pj-forum/back/src/main/java/com/schoolforum/controller/AdminController.java:86 | trimming the back drops only characters up to U+0020 and keeps the rest as it was |
| JavaAdmin.TrimKeeps | pj-forum/back/src/main/java/com/schoolforum/controller/AdminController.java:86 | a string with no blank at either end trims to itself |
| JavaAdmin.SetsAssignment | pj-forum/back/src/main/java/com/schoolforum/controller/AdminController.java:87-88 | a written `key=value` line is recognised as setting the key and reads back as the value |
| JavaAdmin.FirstMatch | pj-forum/back/src/main/java/com/schoolforum/controller/AdminController.java:85-87 | the index of the first line whose trimmed text starts with `key=`, or none when no line does |
| JavaAdmin.UpdatePropertyLines | pj-forum/back/src/main/java/com/schoolforum/controller/AdminController.java:84-97 | as written: only the first matching line becomes `key=value`, the length and every other line stay; with no match the assignment is appended |
| JavaAdmin.FirstReplacedLosesUpdate | pj-forum/back/src/main/java/com/schoolforum/controller/AdminController.java:84-92 | with the key set on two lines, the update as written leaves the second in force, so the new value never takes effect |
| JavaAdmin.UpdateAllPropertyLines | pj-forum/back/src/main/java/com/schoolforum/controller/AdminController.java:84-97 | corrected: every line that sets the key becomes `key=value`, or the assignment is appended when none does |
| JavaAdmin.ReplaceSetters | pj-forum/back/src/main/java/com/schoolforum/controller/AdminController.java:84-92 | corrected loop without the break: it reports whether any line set the key, and then every such line is `key=value`; otherwise the lines are unchanged |
| JavaAdmin.AllReplacedTakesEffect | pj-forum/back/src/main/java/com/schoolforum/controller/AdminController.java:84-97 | after the corrected update the key reads back as the new value, whatever the file held |
| JavaAdmin.SameSettersRead | pj-forum/back/src/main/java/com/schoolforum/controller/AdminController.java:84-97 | when every line that sets the key is one and the same assignment, and some line sets it, the loaded file reads the key as that assignment's value |
| JavaAdmin.DaysMessage | pj-forum/back/src/main/java/com/schoolforum/controller/AdminController.java:61-63 | the message is "Auto-delete disabled" iff days is 0 |
| JavaAdmin.AdminController.constructor | pj-forum/back/src/main/java/com/schoolforum/controller/AdminController.java:25-26 | the controller keeps the configured number of days |
| JavaAdmin.AdminController.GetSettings | pj-forum/back/src/main/java/com/schoolforum/controller/AdminController.java:33-39 | reports the configured days, and auto-delete as enabled iff they are positive |
| JavaAdmin.AdminController.UpdateAutoDeleteDays | pj-forum/back/src/main/java/com/schoolforum/controller/AdminController.java:49-72 | null or negative days throw IllegalArgumentException and write nothing; a read or write failure throws with the update-failed prefix; otherwise the reply has success, the days message, the days and `requiresRestart`; the file is rewritten by the corrected update, not the source's first-match loop (see Findings and Left out), so it reads back the new value; the running setting is unchanged |
| JavaAdmin.NegativeDaysAreBadRequest | pj-forum/back/src/main/java/com/schoolforum/config/GlobalExceptionHandler.java:86-96 | the refusal of a bad day count reaches the client as 400 with its own message |

## Left out

- Wall clock: `CURRENT_TIMESTAMP` and `LocalDateTime.now()` are the parameter `now`. Dates are whole seconds, and a day is 86400 of them.
- Password crypto and tokens: bcrypt, `PasswordEncoder`, jsonwebtoken and JwtUtil are outside the model. Hashing, matching and verification are function parameters, and a token is its claims record. The 24h expiry appears only as the constant written into the token.
- express-validator sanitisers in NodeAuth: `trim`, `escape` and `normalizeEmail`, and validator.js's `isEmail`, are function parameters of NodeAuth.Register and NodeAuth.Login. Their internals are not modelled.
- NodeTopics.CreateTopic: stores the raw title and content. The route trims them after validation, so surrounding blanks are stored here and dropped there.
- NodeTopics.UpdateTopic: stores the raw title. The route trims it after validation.
- NodePosts.CreatePost: stores the raw content. The route trims it after validation.
- NodePosts.UpdatePost: stores the raw content. The route trims it after validation.
- NodeCategories.CreateCategory: stores the raw name and description, and checks the UNIQUE name against the raw name. The route trims both and HTML-escapes the name after validation, so a name differing from a stored one only by surrounding blanks is refused there and accepted here.
- NodeCategories.UpdateCategory: applies the raw name and description. The route trims both and HTML-escapes the name after validation, so a name of only blanks is skipped there and stored here.
- SQLite failures other than the constraint violations the model names (the failed first-post INSERT, the NOT NULL title and the UNIQUE category name): the routes' other "Database error" and "Failed to …" 500 answers are not modelled, and each statement is taken to succeed.
- User deletion: no Express route deletes a user, so the declared `user_id … ON DELETE CASCADE` of topics and posts is not modelled.
- Java regex engine: the email pattern and the password character classes are written out as predicates.
- Spring's authority matching (`hasAnyAuthority` against `ROLE_`-prefixed authorities): the endpoint gates of UserController and AdminController are preconditions on the caller's role.
- JwtAuthenticationFilter: not part of this model. UserController.updateProfile receives the token subject and looks it up as an email, as the controller does.
- Request DTO validation (`@Valid` on RegisterRequest, LoginRequest and the thread and reply requests): not part of this model. Each service is modelled from the values it receives.
- Forwarding controllers (ThreadController, ReplyController, CategoryController, NotificationController, AuthController) and TestController: each only calls a service.
- Reply editing: the reply controller calls a `replyService.updateReply` that ReplyService does not define, so no Java reply edit is modelled.
- Notification trigger: ReplyService never calls `notifyThreadSubscribers`. The fan-out is modelled on its own, not as part of creating a reply.
- `ResourceNotFoundException` message formats: that class is not part of this model, so its message is `None`.
- DataIntegrityViolationException messages: driver-generated text is `None`, or a `dbError` parameter where the controller echoes it.
- DTO joins: author and category names in the Java DTOs are not modelled, and the author appears by id. `UserDTO.createdAt` is left null by the source and omitted.
- Row order of unordered queries: Spring Data derived queries that name no order are modelled as a scan in ascending id order.
- Tie order under ORDER BY: SQLite's order among rows with equal sort keys is unspecified. The model proves only sortedness and permutation.
- String lengths: lengths count Dafny characters. Java and JavaScript count UTF-16 code units, which differ outside the Basic Multilingual Plane.
- JavaAdmin.AdminController.UpdateAutoDeleteDays: writes the file with the corrected rewrite, which replaces every line setting the key. The source replaces only the first such line and stops, so with two setter lines it writes the new value into the first one only, and the later line still decides the value read back (see Findings). The reply it returns is the source's.
- File I/O of AdminController: reading and writing the properties file are the parameters `file` and `writeOk`. A partially written file is not modelled.
- JavaAdmin.EffectiveValue: reads only lines of the `key=value` form, without the other separators and escapes of the properties format.
- JSON number binding: the `days` field is an `Int32` (`Integer`). Values outside 32 bits, which fail deserialization before the controller runs, are not modelled.
- Missing DAO method: ScheduledTaskService calls `findByCreatedAtBefore`, while ThreadDAO declares only `findByUpdatedAtBefore`. The model filters by creation time, as the service's call intends.
- JavaScheduled.ScheduledTaskService.CleanOldNotifications: the source body is a placeholder, so the model changes nothing.
- Subscription thread reference: `JavaStore.Forum.Valid` does not require subscriptions to point at threads. A subscribe to a missing thread is refused with the foreign-key violation, as the database does.
- ThreadService.getAllThreads and getThreadsByCategoryPaged: Spring `Page` sorting by a caller-chosen property is not modelled. Only the fixed-size `getThreadsByCategory` is.
- Concurrency: each handler is one atomic step. The Express callbacks are not transactional, but interleavings between requests are not modelled.
- Server plumbing: rate limiting, CORS, static files, logging and the React and public/js front ends are not modelled.

## Findings

| source | as written | input that shows it | evidently intended | confidence | as-written member | corrected member |
|---|---|---|---|---|---|---|
| src/models/database.js:46-47 | the schema declares `ON DELETE CASCADE`, but the connection never runs `PRAGMA foreign_keys = ON`, so SQLite ignores the cascade | delete a topic that has a post: the post stays, pointing at a topic that no longer exists | deleting a topic (or category) removes its posts (and topics) | not executed | NodeSchema.UnenforcedDeleteOrphansPosts | NodeSchema.DeleteTopicKeeps |
| pj-forum/back/src/main/java/com/schoolforum/controller/AdminController.java:84-92 | the update loop replaces only the first line that sets the key and then breaks | a file with `forum.thread.auto-delete-days=90` and then `forum.thread.auto-delete-days=30`, updated with 7: the later line still wins when the file is loaded | the new value takes effect | not executed | JavaAdmin.FirstReplacedLosesUpdate | JavaAdmin.AllReplacedTakesEffect |
