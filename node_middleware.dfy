/** The Express middleware of src/middleware/auth.js: reading the bearer token from the
    Authorization header, and the two role gates. */
module NodeMiddleware {
  import opened Options
  import opened Roles
  import opened NodeHttp

  /** What a middleware does with a request: hand it to the next handler, or answer it. */
  datatype Gate = Next | Stop(response: Response)

  /** `s.split(sep)`: the fields between separators, empty ones included. */
  function Split(s: string, sep: char): (r: seq<string>)
    ensures |r| >= 1
    ensures forall i :: 0 <= i < |r| ==> sep !in r[i]
  {
    if |s| == 0 then [""]
    else
      var rest := Split(s[1..], sep);
      if s[0] == sep then [""] + rest
      else [[s[0]] + rest[0]] + rest[1..]
  }

  /** `parts.join(sep)`, the inverse of Split. */
  function Join(parts: seq<string>, sep: char): string
    requires |parts| >= 1
  {
    if |parts| == 1 then parts[0] else parts[0] + [sep] + Join(parts[1..], sep)
  }

  lemma {:induction false} JoinSplit(s: string, sep: char)
    ensures Join(Split(s, sep), sep) == s
  {
    if |s| > 0 {
      JoinSplit(s[1..], sep);
      var rest := Split(s[1..], sep);
      if s[0] != sep && |rest| > 1 {
        assert rest == [rest[0]] + rest[1..];
      }
      assert s == [s[0]] + s[1..];
    }
  }

  /** Splitting after a separator-free prefix and a separator yields that prefix first. */
  lemma {:induction false} SplitAfter(a: string, sep: char, b: string)
    requires sep !in a
    ensures Split(a + [sep] + b, sep) == [a] + Split(b, sep)
  {
    if |a| > 0 {
      assert (a + [sep] + b)[1..] == a[1..] + [sep] + b;
      SplitAfter(a[1..], sep, b);
      assert [a[0]] + a[1..] == a;
    } else {
      assert (a + [sep] + b)[1..] == b;
    }
  }

  lemma {:induction false} SplitWhole(a: string, sep: char)
    requires sep !in a
    ensures Split(a, sep) == [a]
  {
    if |a| > 0 {
      SplitWhole(a[1..], sep);
      assert [a[0]] + a[1..] == a;
    }
  }

  /** `authHeader && authHeader.split(' ')[1]`, kept only when it is a non-empty string:
      an absent or empty header, a header without a space, and an empty second field
      all leave no token. */
  function BearerToken(header: Option<string>): Option<string>
  {
    if header.None? || header.value == "" then None
    else
      var parts := Split(header.value, ' ');
      if |parts| >= 2 && parts[1] != "" then Some(parts[1]) else None
  }

  /** The header yields `token` exactly when it reads: a space-free scheme, one space,
      the non-empty space-free token, then nothing or a space and anything. */
  lemma BearerTokenIff(scheme: string, token: string, rest: string)
    requires ' ' !in scheme && ' ' !in token && token != ""
    requires rest == "" || rest[0] == ' '
    ensures BearerToken(Some(scheme + " " + token + rest)) == Some(token)
  {
    var h := scheme + " " + token + rest;
    assert h == scheme + [' '] + (token + rest);
    SplitAfter(scheme, ' ', token + rest);
    if rest == "" {
      assert token + rest == token;
      SplitWhole(token, ' ');
    } else {
      assert token + rest == token + [' '] + rest[1..];
      SplitAfter(token, ' ', rest[1..]);
    }
  }

  lemma BearerTokenShape(h: string)
    requires BearerToken(Some(h)).Some?
    ensures exists scheme, rest ::
      (' ' !in scheme && (rest == "" || rest[0] == ' ') &&
       h == scheme + " " + BearerToken(Some(h)).value + rest)
    ensures ' ' !in BearerToken(Some(h)).value && BearerToken(Some(h)).value != ""
  {
    var parts := Split(h, ' ');
    JoinSplit(h, ' ');
    var tail := parts[1..];
    assert Join(parts, ' ') == parts[0] + [' '] + Join(tail, ' ');
    var rest: string := if |tail| == 1 then "" else [' '] + Join(tail[1..], ' ');
    assert Join(tail, ' ') == parts[1] + rest;
    assert h == parts[0] + " " + parts[1] + rest;
    assert BearerToken(Some(h)).value == parts[1];
    assert ' ' !in parts[0] && (rest == "" || rest[0] == ' ');
  }

  /** The request object as far as the middleware sees it. */
  class Request {
    const authorization: Option<string>
    var user: Option<Claims>

    constructor (authorization: Option<string>)
      ensures this.authorization == authorization && user == None
    {
      this.authorization := authorization;
      user := None;
    }
  }

  /** authenticateToken. `verify` stands for jwt.verify with the server secret: it gives
      the token's claims, or nothing for a bad signature or an expired token. */
  method AuthenticateToken(req: Request, verify: string -> Option<Claims>) returns (g: Gate)
    modifies req
    ensures BearerToken(req.authorization).None? ==>
      g == Stop(Error(401, "Access token required")) && req.user == old(req.user)
    ensures BearerToken(req.authorization).Some? && verify(BearerToken(req.authorization).value).None? ==>
      g == Stop(Error(403, "Invalid or expired token")) && req.user == old(req.user)
    ensures BearerToken(req.authorization).Some? && verify(BearerToken(req.authorization).value).Some? ==>
      g == Next && req.user == verify(BearerToken(req.authorization).value)
  {
    var token := BearerToken(req.authorization);
    if token.None? {
      return Stop(Error(401, "Access token required"));
    }
    var user := verify(token.value);
    if user.None? {
      return Stop(Error(403, "Invalid or expired token"));
    }
    req.user := user;
    g := Next;
  }

  /** isModerator: only a user whose role is moderator or admin gets through. */
  function IsModerator(user: Option<Claims>): (g: Gate)
    ensures g == Next || g == Stop(Error(403, "Moderator access required"))
    ensures g == Next <==> user.Some? && (user.value.role == Moderator || user.value.role == Admin)
  {
    if user.Some? && IsStaff(user.value.role) then Next
    else Stop(Error(403, "Moderator access required"))
  }

  /** isAdmin: only a user whose role is admin gets through. */
  function IsAdmin(user: Option<Claims>): (g: Gate)
    ensures g == Next || g == Stop(Error(403, "Admin access required"))
    ensures g == Next <==> user.Some? && user.value.role == Admin
  {
    if user.Some? && user.value.role == Admin then Next
    else Stop(Error(403, "Admin access required"))
  }

  /** Every user the admin gate lets through, the moderator gate lets through too, and
      the moderator gate admits exactly the staff roles. */
  lemma AdminGateNarrower(user: Option<Claims>)
    ensures IsAdmin(user) == Next ==> IsModerator(user) == Next
    ensures IsModerator(user) == Next <==> user.Some? && IsStaff(user.value.role)
  {
  }
}
