/**
 * The role hook: the signed-in user's role list, fetched from the role table,
 * and the predicates the pages gate their affordances on.
 */
module Roles {
  import opened Wrappers

  /** The four roles a user may hold. */
  datatype Role = Admin | Backoffice | Client | Visitor

  type UserId = string

  /** One row of the role table: `user` holds `role`. */
  datatype RoleRow = RoleRow(user: UserId, role: Role)

  /** The role column of the rows that belong to `user`, in table order. */
  function RolesOf(rows: seq<RoleRow>, user: UserId): (r: seq<Role>)
    ensures |r| <= |rows|
    ensures forall role :: role in r <==> RoleRow(user, role) in rows
  {
    if rows == [] then []
    else
      assert rows == [rows[0]] + rows[1..];
      (if rows[0].user == user then [rows[0].role] else []) + RolesOf(rows[1..], user)
  }

  /**
   * The role column grows row by row: a table with no rows gives no role, and a
   * row appended to the table appends its role exactly when it belongs to `user`.
   * Together the two fix the list, order and repetitions included.
   */
  lemma {:induction false} RolesOfAppend(rows: seq<RoleRow>, row: RoleRow, user: UserId)
    ensures RolesOf([], user) == []
    ensures RolesOf(rows + [row], user) == RolesOf(rows, user) + (if row.user == user then [row.role] else [])
  {
    if rows != [] {
      assert (rows + [row])[1..] == rows[1..] + [row];
      RolesOfAppend(rows[1..], row, user);
    }
  }

  /**
   * The role list after the signed-in user changes. Signed out, the list is
   * emptied; signed in, it becomes the roles the table holds for the user, and a
   * failed query (`None`) leaves the previous list in place.
   */
  function RolesAfterUserChange(previous: seq<Role>, user: Option<UserId>,
                                table: Option<seq<RoleRow>>): (r: seq<Role>)
    ensures user.None? ==> r == []
    ensures user.Some? && table.Some? ==>
              forall role :: role in r <==> RoleRow(user.value, role) in table.value
    ensures user.Some? && table.Some? ==> r == RolesOf(table.value, user.value)
    ensures user.Some? && table.None? ==> r == previous
  {
    match user
    case None => []
    case Some(u) =>
      match table
      case None => previous
      case Some(rows) => RolesOf(rows, u)
  }

  predicate HasRole(roles: seq<Role>, role: Role) {
    role in roles
  }

  predicate IsAdmin(roles: seq<Role>) { HasRole(roles, Admin) }
  predicate IsBackoffice(roles: seq<Role>) { HasRole(roles, Backoffice) }
  predicate IsClient(roles: seq<Role>) { HasRole(roles, Client) }
  predicate IsVisitor(roles: seq<Role>) { HasRole(roles, Visitor) }

  /** Only administrators manage users. */
  predicate CanManageUsers(roles: seq<Role>) { IsAdmin(roles) }

  /** Administrators and back-office staff manage listings. */
  predicate CanManageListings(roles: seq<Role>) { IsAdmin(roles) || IsBackoffice(roles) }

  /** Every user manager is also a listing manager. */
  lemma ManageUsersImpliesManageListings(roles: seq<Role>)
    ensures CanManageUsers(roles) ==> CanManageListings(roles)
  {
  }

  /** A signed-in user holds a role exactly when the role table has that row for them. */
  lemma HasRoleIffRow(rows: seq<RoleRow>, user: UserId, role: Role)
    ensures HasRole(RolesAfterUserChange([], Some(user), Some(rows)), role) <==> RoleRow(user, role) in rows
  {
  }

  /** Signed out, every role predicate is false. */
  lemma SignedOutHoldsNothing(previous: seq<Role>, table: Option<seq<RoleRow>>)
    ensures var roles := RolesAfterUserChange(previous, None, table);
            !IsAdmin(roles) && !IsBackoffice(roles) && !IsClient(roles) && !IsVisitor(roles) &&
            !CanManageUsers(roles) && !CanManageListings(roles)
  {
  }
}
