/** Registration and login of the Express backend (src/routes/auth.js). bcrypt and
    validator.js are outside the model and arrive as parameters: `hash` stands for
    `bcrypt.hash(password, 10)`, `matches` for `bcrypt.compare`, `isEmail` for the isEmail
    validator, `clean` for the `trim().escape()` sanitiser chain and `normalize` for
    `normalizeEmail()`. The validators see the raw field; the handler sees the sanitised one. */
module NodeAuth {
  import opened Options
  import opened Roles
  import opened Tables
  import opened NodeSchema
  import opened NodeHttp

  /** The lifetime written into every login token. */
  const TokenLifetime := "24h"

  /** The fields express-validator rejects on registration, in validator order. */
  function RegisterErrors(username: Option<string>, email: Option<string>, password: Option<string>,
                          isEmail: string -> bool): (errs: seq<string>)
    ensures errs == [] <==>
      username.Some? && |username.value| >= 3 && email.Some? && isEmail(email.value) &&
      password.Some? && |password.value| >= 6
    ensures "username" in errs <==> Len(username) < 3
    ensures "email" in errs <==> email.None? || !isEmail(email.value)
    ensures "password" in errs <==> Len(password) < 6
  {
    (if Len(username) >= 3 then [] else ["username"]) +
    (if email.Some? && isEmail(email.value) then [] else ["email"]) +
    (if Len(password) >= 6 then [] else ["password"])
  }

  /** `SELECT * FROM users WHERE username = ? OR email = ?` finds a row. */
  predicate Taken(users: seq<UserRow>, username: string, email: string)
  {
    Find(users, UserName, username).Some? || Find(users, UserEmail, email).Some?
  }

  lemma TakenMeans(users: seq<UserRow>, username: string, email: string)
    ensures Taken(users, username, email) <==> exists u :: u in users && (u.username == username || u.email == email)
  {
    if Find(users, UserName, username).Some? {
      assert Find(users, UserName, username).value in users;
    } else if Find(users, UserEmail, email).Some? {
      assert Find(users, UserEmail, email).value in users;
    }
    if exists u :: u in users && (u.username == username || u.email == email) {
      var u :| u in users && (u.username == username || u.email == email);
      assert u.username in Keys(users, UserName) || u.email in Keys(users, UserEmail);
    }
  }

  /** POST /register. The new user gets the default role and the hash of the password. */
  method Register(db: Db, username: Option<string>, email: Option<string>, password: Option<string>,
                  isEmail: string -> bool, clean: string -> string, normalize: string -> string,
                  hash: string -> string, now: int) returns (resp: Response)
    requires db.Valid()
    modifies db
    ensures db.Valid()
    ensures RegisterErrors(username, email, password, isEmail) != [] ==>
      resp == Response(400, Invalid(RegisterErrors(username, email, password, isEmail))) &&
      db.State() == old(db.State())
    ensures RegisterErrors(username, email, password, isEmail) == [] &&
            Taken(old(db.users), clean(username.value), normalize(email.value)) ==>
      resp == Error(400, "User already exists") && db.State() == old(db.State())
    ensures RegisterErrors(username, email, password, isEmail) == [] &&
            !Taken(old(db.users), clean(username.value), normalize(email.value)) ==>
      resp == Response(201, Registered(old(db.nextUserId))) &&
      db.State() == old(db.State()).(
        users := old(db.users) + [NewUser(old(db.nextUserId), clean(username.value), normalize(email.value),
                                          hash(password.value), now)],
        nextUserId := old(db.nextUserId) + 1)
  {
    var errs := RegisterErrors(username, email, password, isEmail);
    if errs != [] {
      return Response(400, Invalid(errs));
    }
    var name, mail := clean(username.value), normalize(email.value);
    if Taken(db.users, name, mail) {
      return Error(400, "User already exists");
    }
    var u := NewUser(db.nextUserId, name, mail, hash(password.value), now);
    TakenMeans(db.users, name, mail);
    InsertUserKeeps(db.State(), u);
    db.Commit(db.State().(users := db.users + [u], nextUserId := db.nextUserId + 1));
    resp := Response(201, Registered(u.id));
  }

  /** POST /login. An unknown username and a wrong password get the same 401, so the
      response does not tell which one failed. The token and the `user` object carry
      the id, the username and the role, and nothing else. */
  method Login(db: Db, username: Option<string>, password: Option<string>,
               clean: string -> string, matches: (string, string) -> bool) returns (resp: Response)
    ensures password.None? ==> resp == Response(400, Invalid(["password"]))
    ensures password.Some? ==>
      var found := if username.None? then None else Find(db.users, UserName, clean(username.value));
      if found.None? || !matches(password.value, found.value.password) then
        resp == Error(401, "Invalid credentials")
      else
        var u := found.value;
        resp == Response(200, LoggedIn(Claims(u.id, u.username, u.role), TokenLifetime,
                                       PublicUser(u.id, u.username, u.role)))
    ensures resp.status == 200 ==>
      resp.body.LoggedIn? &&
      exists u :: (u in db.users && username.Some? && clean(username.value) == u.username &&
                   resp.body.token == Claims(u.id, u.username, u.role) && matches(password.value, u.password))
  {
    if password.None? {
      return Response(400, Invalid(["password"]));
    }
    if username.None? {
      return Error(401, "Invalid credentials");
    }
    var found := Find(db.users, UserName, clean(username.value));
    if found.None? || !matches(password.value, found.value.password) {
      return Error(401, "Invalid credentials");
    }
    var u := found.value;
    resp := Response(200, LoggedIn(Claims(u.id, u.username, u.role), TokenLifetime,
                                   PublicUser(u.id, u.username, u.role)));
  }
}
