// Small building blocks shared by both backends of the forum.

module Options {
  /** A value that may be absent: a SQL NULL, a missing JSON field, a Java null. */
  datatype Option<+T> = None | Some(value: T)
}

module Roles {
  /** The three roles of a forum user. The SQLite schema spells them
      'user', 'moderator', 'admin'; the Java enum spells them USER, MODERATOR, ADMIN. */
  datatype Role = User | Moderator | Admin

  /** The "isMod" test both backends repeat before an edit, a delete or a reply to a
      locked topic: the role is moderator or admin. */
  predicate IsStaff(r: Role)
  {
    r == Moderator || r == Admin
  }
}
