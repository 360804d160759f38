/** The decisions of UserController (controller/UserController.java): profile update,
    ban, unban and role change. Each endpoint catches every exception itself and
    answers 400 with its own prefix before the exception's message, so none of them
    reaches the global handler. The `@PreAuthorize` gates are preconditions. */
module JavaUsers {
  import opened Options
  import opened Roles
  import opened JavaModel
  import opened JavaStore

  /** A `ResponseEntity` whose body is `{"message": ...}`. */
  datatype Answer = Answer(status: int, message: string)

  const UpdatePrefix := "Không thể cập nhật: "
  const BanPrefix := "Không thể cấm người dùng: "
  const UnbanPrefix := "Không thể bỏ cấm: "
  const RolePrefix := "Không thể cập nhật vai trò: "

  /** The body keys a profile update reads. */
  function Patched(u: User, updates: map<string, string>, now: nat): (r: User)
  {
    u.(username := if "username" in updates then updates["username"] else u.username,
       avatar := if "avatar" in updates then Some(updates["avatar"]) else u.avatar,
       bio := if "bio" in updates then Some(updates["bio"]) else u.bio,
       updatedAt := now)
  }

  /** Only the keys present in the body change, each to the value given; a second
      identical update changes nothing more. */
  lemma PatchedChangesOnlyGivenKeys(u: User, updates: map<string, string>, now: nat)
    ensures var r := Patched(u, updates, now);
      r.email == u.email && r.password == u.password && r.role == u.role && r.status == u.status &&
      r.createdAt == u.createdAt && r.lastLoginAt == u.lastLoginAt &&
      (r.username == u.username || ("username" in updates && r.username == updates["username"])) &&
      ("username" !in updates ==> r.username == u.username) &&
      ("avatar" !in updates ==> r.avatar == u.avatar) && ("bio" !in updates ==> r.bio == u.bio) &&
      ("avatar" in updates ==> r.avatar == Some(updates["avatar"])) &&
      ("bio" in updates ==> r.bio == Some(updates["bio"]))
    ensures Patched(Patched(u, updates, now), updates, now) == Patched(u, updates, now)
  {
  }

  /** The saved row breaks a constraint of the `users` table, so the save throws. */
  predicate Rejected(users: map<int, User>, id: int, u: User)
  {
    !FitsColumns(u) || exists k | k in users && k != id :: users[k].username == u.username
  }

  /** PUT /api/users/{id}. The caller is found by the subject the token carries, which
      the controller looks up as an email; `dbError` is the driver's message when the
      save is rejected. */
  method UpdateProfile(f: Forum, id: int, updates: map<string, string>, callerEmail: string,
                       dbError: string, now: nat) returns (a: Answer)
    requires f.Valid()
    modifies f`users
    ensures f.Valid()
    ensures !EmailTaken(old(f.users), callerEmail) ==>
      a == Answer(400, UpdatePrefix + "Current user not found") && f.users == old(f.users)
    ensures EmailTaken(old(f.users), callerEmail) && id !in old(f.users) ==>
      a == Answer(400, UpdatePrefix + "User not found") && f.users == old(f.users)
    ensures EmailTaken(old(f.users), callerEmail) && id in old(f.users) ==>
      var caller := UserWithEmail(old(f.users), callerEmail);
      var after := Patched(old(f.users[id]), updates, now);
      if caller != id && old(f.users[caller]).role != Admin then
        a == Answer(403, "Bạn không có quyền cập nhật người dùng này") && f.users == old(f.users)
      else if "username" in updates && !(3 <= |updates["username"]| <= 50) then
        a == Answer(400, "Tên người dùng phải từ 3-50 ký tự") && f.users == old(f.users)
      else if Rejected(old(f.users), id, after) then
        a == Answer(400, UpdatePrefix + dbError) && f.users == old(f.users)
      else
        a == Answer(200, "Cập nhật thành công") && f.users == old(f.users)[id := after]
  {
    if !EmailTaken(f.users, callerEmail) {
      return Answer(400, UpdatePrefix + "Current user not found");
    }
    var caller :| caller in f.users && f.users[caller].email == callerEmail;
    EmailDetermines(f.users, callerEmail, caller);
    if id !in f.users {
      return Answer(400, UpdatePrefix + "User not found");
    }
    if caller != id && f.users[caller].role != Admin {
      return Answer(403, "Bạn không có quyền cập nhật người dùng này");
    }
    if "username" in updates && !(3 <= |updates["username"]| <= 50) {
      return Answer(400, "Tên người dùng phải từ 3-50 ký tự");
    }
    var after := Patched(f.users[id], updates, now);
    if Rejected(f.users, id, after) {
      return Answer(400, UpdatePrefix + dbError);
    }
    f.users := f.users[id := after];
    a := Answer(200, "Cập nhật thành công");
  }

  /** PUT /api/users/{id}/ban, behind `hasAnyAuthority('ADMIN', 'MODERATOR')`. */
  method BanUser(f: Forum, id: int, caller: Role, now: nat) returns (a: Answer)
    requires IsStaff(caller)
    requires f.Valid()
    modifies f`users
    ensures f.Valid()
    ensures id !in old(f.users) ==> a == Answer(400, BanPrefix + "User not found") && f.users == old(f.users)
    ensures id in old(f.users) && old(f.users[id]).role == Admin ==>
      a == Answer(400, "Không thể cấm tài khoản ADMIN") && f.users == old(f.users)
    ensures id in old(f.users) && old(f.users[id]).role != Admin ==>
      a == Answer(200, "Đã cấm người dùng") &&
      f.users == old(f.users)[id := old(f.users[id]).(status := Banned, updatedAt := now)]
  {
    if id !in f.users {
      return Answer(400, BanPrefix + "User not found");
    }
    if f.users[id].role == Admin {
      return Answer(400, "Không thể cấm tài khoản ADMIN");
    }
    f.users := f.users[id := f.users[id].(status := Banned, updatedAt := now)];
    a := Answer(200, "Đã cấm người dùng");
  }

  /** PUT /api/users/{id}/unban: ACTIVE from any status, SUSPENDED included. */
  method UnbanUser(f: Forum, id: int, caller: Role, now: nat) returns (a: Answer)
    requires IsStaff(caller)
    requires f.Valid()
    modifies f`users
    ensures f.Valid()
    ensures id !in old(f.users) ==> a == Answer(400, UnbanPrefix + "User not found") && f.users == old(f.users)
    ensures id in old(f.users) ==>
      a == Answer(200, "Đã bỏ cấm người dùng") &&
      f.users == old(f.users)[id := old(f.users[id]).(status := Active, updatedAt := now)]
  {
    if id !in f.users {
      return Answer(400, UnbanPrefix + "User not found");
    }
    f.users := f.users[id := f.users[id].(status := Active, updatedAt := now)];
    a := Answer(200, "Đã bỏ cấm người dùng");
  }

  /** PUT /api/users/{id}/role, behind `hasAuthority('ADMIN')`. A missing `role` key
      makes `Role.valueOf(null)` throw a NullPointerException ("Name is null"), which
      the outer catch turns into a 400; an unknown name is rejected before the lookup. */
  method ChangeUserRole(f: Forum, id: int, roleName: Option<string>, caller: Role, now: nat) returns (a: Answer)
    requires caller == Admin
    requires f.Valid()
    modifies f`users
    ensures f.Valid()
    ensures roleName.None? ==> a == Answer(400, RolePrefix + "Name is null") && f.users == old(f.users)
    ensures roleName.Some? && ParseRole(roleName.value).None? ==>
      a == Answer(400, "Vai trò không hợp lệ") && f.users == old(f.users)
    ensures roleName.Some? && ParseRole(roleName.value).Some? ==>
      var r := ParseRole(roleName.value).value;
      if id !in old(f.users) then
        a == Answer(400, RolePrefix + "User not found") && f.users == old(f.users)
      else if old(f.users[id]).role == Admin && r != Admin then
        a == Answer(400, "Không thể hạ cấp ADMIN") && f.users == old(f.users)
      else
        a == Answer(200, "Đã cập nhật vai trò") &&
        f.users == old(f.users)[id := old(f.users[id]).(role := r, updatedAt := now)]
  {
    if roleName.None? {
      return Answer(400, RolePrefix + "Name is null");
    }
    var parsed := ParseRole(roleName.value);
    if parsed.None? {
      return Answer(400, "Vai trò không hợp lệ");
    }
    if id !in f.users {
      return Answer(400, RolePrefix + "User not found");
    }
    if f.users[id].role == Admin && parsed.value != Admin {
      return Answer(400, "Không thể hạ cấp ADMIN");
    }
    f.users := f.users[id := f.users[id].(role := parsed.value, updatedAt := now)];
    a := Answer(200, "Đã cập nhật vai trò");
  }
}
