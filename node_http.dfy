/** The JSON responses the Express routes send: a status code and a body. */
module NodeHttp {
  import opened Options
  import opened Roles
  import opened NodeSchema

  /** The payload of a login token, `{ id, username, role }`; once a token verifies,
      this is `req.user`. */
  datatype Claims = Claims(id: int, username: string, role: Role)

  /** The `user` object of the login response. */
  datatype PublicUser = PublicUser(id: int, username: string, role: Role)

  datatype Body =
    | Failure(error: string)
    | Invalid(fields: seq<string>)
    | Done(message: string)
    | TopicCreated(topicId: int, postId: int)
    | PostCreated(postId: int)
    | CategoryCreated(categoryId: int)
    | Registered(userId: int)
    | LoggedIn(token: Claims, expiresIn: string, user: PublicUser)
    | TopicPage(topics: seq<TopicRow>, page: int, limit: int, total: int, totalPages: int)
    | TopicDetail(topic: TopicRow, posts: seq<PostRow>)
    | CategoryList(categories: seq<CategoryRow>)
    | CategoryDetail(category: CategoryRow, topics: seq<TopicRow>)

  datatype Response = Response(status: int, body: Body)

  /** The length express-validator's isLength sees: an absent field reads as "". */
  function Len(field: Option<string>): nat
  {
    if field.None? then 0 else |field.value|
  }

  /** The `isMod` test the topic and post handlers repeat: the caller owns the row or is
      staff. */
  predicate OwnerOrStaff(caller: Claims, ownerId: int)
  {
    ownerId == caller.id || IsStaff(caller.role)
  }

  /** `res.status(code).json({ error })`. */
  function Error(code: int, error: string): Response
  {
    Response(code, Failure(error))
  }
}
