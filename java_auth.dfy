/** AuthService of the Spring backend (service/AuthService.java): registration with its
    validation chain, login, and the current user's profile. The password encoder is a
    pair of functions supplied by the caller; the JWT is modelled by the claims it is
    built from. */
module JavaAuth {
  import opened Options
  import opened Roles
  import opened JavaErrors
  import opened JavaModel
  import opened JavaStore

  // ---- The email pattern ----------------------------------------------------------

  predicate Letter(c: char) { 'A' <= c <= 'Z' || 'a' <= c <= 'z' }
  predicate Digit(c: char) { '0' <= c <= '9' }

  /** `[A-Za-z0-9+_.-]`, the characters before the `@`. */
  predicate LocalChar(c: char) { Letter(c) || Digit(c) || c == '+' || c == '_' || c == '.' || c == '-' }

  /** `[A-Za-z0-9.-]`, the characters of the domain. */
  predicate DomainChar(c: char) { Letter(c) || Digit(c) || c == '.' || c == '-' }

  predicate AllLocal(s: string) { forall k | 0 <= k < |s| :: LocalChar(s[k]) }
  predicate AllDomain(s: string) { forall k | 0 <= k < |s| :: DomainChar(s[k]) }
  predicate AllLetters(s: string) { forall k | 0 <= k < |s| :: Letter(s[k]) }

  /** What `matches("^[A-Za-z0-9+_.-]+@[A-Za-z0-9.-]+\\.[A-Za-z]{2,}$")` accepts, read off
      the pattern: the whole string splits as local part, `@`, domain, `.`, and a
      top-level label of two or more letters. */
  ghost predicate EmailShape(s: string)
  {
    exists at, dot | 0 < at && at + 1 < dot && dot + 3 <= |s| ::
      s[at] == '@' && s[dot] == '.' &&
      AllLocal(s[..at]) && AllDomain(s[at + 1..dot]) && AllLetters(s[dot + 1..])
  }

  /** The first index of `c` in `s`, or -1. */
  function FirstIndex(s: string, c: char): (r: int)
    ensures -1 <= r < |s|
    ensures r >= 0 ==> s[r] == c && forall k | 0 <= k < r :: s[k] != c
    ensures r == -1 ==> forall k | 0 <= k < |s| :: s[k] != c
  {
    if s == [] then -1
    else if s[0] == c then 0
    else
      var r := FirstIndex(s[1..], c);
      if r == -1 then -1 else r + 1
  }

  /** The last index of `c` in `s`, or -1. */
  function LastIndex(s: string, c: char): (r: int)
    ensures -1 <= r < |s|
    ensures r >= 0 ==> s[r] == c && forall k | r < k < |s| :: s[k] != c
    ensures r == -1 ==> forall k | 0 <= k < |s| :: s[k] != c
  {
    if s == [] then -1
    else if s[|s| - 1] == c then |s| - 1
    else LastIndex(s[..|s| - 1], c)
  }

  /** The pattern decided without backtracking: a local character is never `@`, so the
      `@` is the first one; a letter is never `.`, so the separating dot is the last one. */
  function ValidEmail(s: string): bool
  {
    var at := FirstIndex(s, '@');
    var dot := LastIndex(s, '.');
    0 < at && at + 1 < dot && dot + 3 <= |s| &&
    AllLocal(s[..at]) && AllDomain(s[at + 1..dot]) && AllLetters(s[dot + 1..])
  }

  /** The scan accepts exactly the strings the pattern describes. */
  lemma ValidEmailIsShape(s: string)
    ensures ValidEmail(s) <==> EmailShape(s)
  {
    if ValidEmail(s) {
      var at, dot := FirstIndex(s, '@'), LastIndex(s, '.');
      assert s[at] == '@' && s[dot] == '.';
    }
    if EmailShape(s) {
      var at, dot :| 0 < at && at + 1 < dot && dot + 3 <= |s| &&
        s[at] == '@' && s[dot] == '.' &&
        AllLocal(s[..at]) && AllDomain(s[at + 1..dot]) && AllLetters(s[dot + 1..]);
      AtIsFirst(s, at);
      DotIsLast(s, dot);
    }
  }

  /** An `@` preceded only by local characters is the first `@`. */
  lemma AtIsFirst(s: string, at: int)
    requires 0 <= at < |s| && s[at] == '@' && AllLocal(s[..at])
    ensures FirstIndex(s, '@') == at
  {
    forall k | 0 <= k < at
      ensures s[k] != '@'
    {
      assert LocalChar(s[..at][k]);
    }
  }

  /** A `.` followed only by letters is the last `.`. */
  lemma DotIsLast(s: string, dot: int)
    requires 0 <= dot < |s| && s[dot] == '.' && AllLetters(s[dot + 1..])
    ensures LastIndex(s, '.') == dot
  {
    forall k | dot < k < |s|
      ensures s[k] != '.'
    {
      assert Letter(s[dot + 1..][k - dot - 1]);
    }
  }

  // ---- The password rules ---------------------------------------------------------

  /** The characters `.` does not match in a Java pattern without flags. */
  predicate LineTerminator(c: char)
  {
    c == '\n' || c == '\r' || c == '\U{85}' || c == '\U{2028}' || c == '\U{2029}'
  }

  /** `s.matches(".*[lo-hi].*")`: some character lies in the class, and, since `.` must
      cover everything else, no character is a line terminator. */
  predicate MatchesWithClass(s: string, lo: char, hi: char)
  {
    (exists k | 0 <= k < |s| :: lo <= s[k] <= hi) && forall k | 0 <= k < |s| :: !LineTerminator(s[k])
  }

  const InvalidEmailText := "Email không hợp lệ"
  const ShortPasswordText := "Mật khẩu phải có ít nhất 8 ký tự"
  const NoUpperText := "Mật khẩu phải có ít nhất 1 chữ HOA"
  const NoLowerText := "Mật khẩu phải có ít nhất 1 chữ thường"
  const NoDigitText := "Mật khẩu phải có ít nhất 1 chữ số"
  const UsernameTakenText := "Tên đăng nhập đã tồn tại"
  const EmailTakenText := "Email đã được sử dụng"
  const RegisteredText := "Đăng ký thành công"

  /** The first check of register's chain that fails, or None when all pass. Each
      message is returned exactly when every earlier check passed and its own failed. */
  function RegisterRejection(users: map<int, User>, username: string, email: string, password: string): (r: Option<string>)
    ensures r == Some(InvalidEmailText) <==> !EmailShape(email)
    ensures r == Some(ShortPasswordText) <==> EmailShape(email) && |password| < 8
    ensures r == Some(NoUpperText) <==> EmailShape(email) && |password| >= 8 && !MatchesWithClass(password, 'A', 'Z')
    ensures r == Some(NoLowerText) <==>
      EmailShape(email) && |password| >= 8 && MatchesWithClass(password, 'A', 'Z') && !MatchesWithClass(password, 'a', 'z')
    ensures r == Some(NoDigitText) <==>
      EmailShape(email) && |password| >= 8 && MatchesWithClass(password, 'A', 'Z') && MatchesWithClass(password, 'a', 'z') &&
      !MatchesWithClass(password, '0', '9')
    ensures r == Some(UsernameTakenText) <==>
      EmailShape(email) && |password| >= 8 && MatchesWithClass(password, 'A', 'Z') && MatchesWithClass(password, 'a', 'z') &&
      MatchesWithClass(password, '0', '9') && UsernameTaken(users, username)
    ensures r == Some(EmailTakenText) <==>
      EmailShape(email) && |password| >= 8 && MatchesWithClass(password, 'A', 'Z') && MatchesWithClass(password, 'a', 'z') &&
      MatchesWithClass(password, '0', '9') && !UsernameTaken(users, username) && EmailTaken(users, email)
    ensures r.None? <==>
      EmailShape(email) && |password| >= 8 && MatchesWithClass(password, 'A', 'Z') && MatchesWithClass(password, 'a', 'z') &&
      MatchesWithClass(password, '0', '9') && !UsernameTaken(users, username) && !EmailTaken(users, email)
  {
    ValidEmailIsShape(email);
    if !ValidEmail(email) then Some(InvalidEmailText)
    else if |password| < 8 then Some(ShortPasswordText)
    else if !MatchesWithClass(password, 'A', 'Z') then Some(NoUpperText)
    else if !MatchesWithClass(password, 'a', 'z') then Some(NoLowerText)
    else if !MatchesWithClass(password, '0', '9') then Some(NoDigitText)
    else if UsernameTaken(users, username) then Some(UsernameTakenText)
    else if EmailTaken(users, email) then Some(EmailTakenText)
    else None
  }

  // ---- Responses ------------------------------------------------------------------

  /** UserDTO as login and getCurrentUser fill it: no password, and `createdAt`
      left null. */
  datatype UserView = UserView(id: int, username: string, email: string, role: string, status: string,
                               bio: Option<string>, avatar: Option<string>)

  function ViewOf(id: int, u: User): (v: UserView)
    ensures v.id == id && v.username == u.username && v.email == u.email
    ensures ParseRole(v.role) == Some(u.role) && v.status == StatusName(u.status)
    ensures v.bio == u.bio && v.avatar == u.avatar
  {
    ParseRoleName(u.role, "");
    UserView(id, u.username, u.email, RoleName(u.role), StatusName(u.status), u.bio, u.avatar)
  }

  /** The claims `generateToken(username, id, role)` signs. */
  datatype Claims = Claims(username: string, userId: int, role: string)

  datatype AuthResponse = AuthResponse(success: bool, message: string, token: Option<Claims>, user: Option<UserView>)

  function Refusal(message: string): AuthResponse
  {
    AuthResponse(false, message, None, None)
  }

  /** register. The new row gets the encoded password, role USER and status ACTIVE. A
      row the `users` columns cannot hold makes the save throw. */
  method Register(f: Forum, username: string, email: string, password: string,
                  encode: string -> string, now: nat) returns (out: Outcome<AuthResponse>)
    requires f.Valid()
    modifies f`users, f`nextUserId
    ensures f.Valid()
    ensures var rejection := RegisterRejection(old(f.users), username, email, password);
      var user := NewUser(username, email, encode(password), now);
      if rejection.Some? then
        out == Ok(Refusal(rejection.value)) && f.users == old(f.users)
      else if !FitsColumns(user) then
        out == Threw(Thrown(DataIntegrityViolationException, None)) && f.users == old(f.users)
      else
        out == Ok(AuthResponse(true, RegisteredText, None, None)) &&
        old(f.nextUserId) !in old(f.users) && f.users == old(f.users)[old(f.nextUserId) := user]
  {
    var rejection := RegisterRejection(f.users, username, email, password);
    if rejection.Some? {
      return Ok(Refusal(rejection.value));
    }
    var user := NewUser(username, email, encode(password), now);
    if !FitsColumns(user) {
      return Threw(Thrown(DataIntegrityViolationException, None));
    }
    var id := f.nextUserId;
    f.users, f.nextUserId := f.users[id := user], id + 1;
    out := Ok(AuthResponse(true, RegisteredText, None, None));
  }

  const BadLoginText := "Invalid email or password"
  const BannedText := "Your account has been banned"
  const LoggedInText := "Login successful"

  /** login. The user is looked up by email. The debug line that prints the first 20
      characters of the stored hash runs before the status and password checks. A
      BANNED account is refused before its password is checked. An unknown email and a
      wrong password get the same answer. Success stamps `lastLoginAt` and, through
      `@UpdateTimestamp`, `updatedAt`. */
  method Login(f: Forum, email: string, password: string, matches: (string, string) -> bool, now: nat)
    returns (out: Outcome<AuthResponse>)
    requires f.Valid()
    modifies f`users
    ensures f.Valid()
    ensures !EmailTaken(old(f.users), email) ==> out == Ok(Refusal(BadLoginText)) && f.users == old(f.users)
    ensures EmailTaken(old(f.users), email) ==>
      var id := UserWithEmail(old(f.users), email);
      var u := old(f.users)[id];
      if |u.password| < 20 then
        out == Threw(Thrown(StringIndexOutOfBoundsException, None)) && f.users == old(f.users)
      else if u.status == Banned then
        out == Ok(Refusal(BannedText)) && f.users == old(f.users)
      else if !matches(password, u.password) then
        out == Ok(Refusal(BadLoginText)) && f.users == old(f.users)
      else
        var after := u.(lastLoginAt := Some(now), updatedAt := now);
        f.users == old(f.users)[id := after] &&
        out == Ok(AuthResponse(true, LoggedInText, Some(Claims(u.username, id, RoleName(u.role))), Some(ViewOf(id, after))))
  {
    if !EmailTaken(f.users, email) {
      return Ok(Refusal(BadLoginText));
    }
    var id :| id in f.users && f.users[id].email == email;
    EmailDetermines(f.users, email, id);
    var u := f.users[id];
    if |u.password| < 20 {
      return Threw(Thrown(StringIndexOutOfBoundsException, None));
    }
    if u.status == Banned {
      return Ok(Refusal(BannedText));
    }
    if !matches(password, u.password) {
      return Ok(Refusal(BadLoginText));
    }
    var after := u.(lastLoginAt := Some(now), updatedAt := now);
    f.users := f.users[id := after];
    out := Ok(AuthResponse(true, LoggedInText, Some(Claims(u.username, id, RoleName(u.role))), Some(ViewOf(id, after))));
  }

  /** getCurrentUser: the profile of an existing user, else "User not found". */
  function CurrentUser(f: Forum, userId: int): (r: Outcome<UserView>)
    reads f
    ensures r.Ok? <==> userId in f.users
    ensures r.Threw? ==> r.ex == Fail("User not found")
    ensures r.Ok? ==>
      r.value.id == userId && r.value.email == f.users[userId].email &&
      r.value.username == f.users[userId].username && ParseRole(r.value.role) == Some(f.users[userId].role)
    ensures r.Ok? ==> r.value == ViewOf(userId, f.users[userId])
  {
    if userId in f.users then Ok(ViewOf(userId, f.users[userId])) else Threw(Fail("User not found"))
  }

  /** Every address the pattern accepts holds exactly one `@`. */
  lemma ShapeHasOneAt(s: string)
    requires EmailShape(s)
    ensures exists at | 0 <= at < |s| :: s[at] == '@' && forall k | 0 <= k < |s| && k != at :: s[k] != '@'
  {
    var at, dot :| 0 < at && at + 1 < dot && dot + 3 <= |s| &&
      s[at] == '@' && s[dot] == '.' &&
      AllLocal(s[..at]) && AllDomain(s[at + 1..dot]) && AllLetters(s[dot + 1..]);
    forall k | 0 <= k < |s| && k != at
      ensures s[k] != '@'
    {
      if k < at {
        assert LocalChar(s[..at][k]);
      } else if k < dot {
        assert DomainChar(s[at + 1..dot][k - at - 1]);
      } else if k > dot {
        assert Letter(s[dot + 1..][k - dot - 1]);
      }
    }
  }
}
