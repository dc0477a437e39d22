/** The ownership-or-admin rule the services apply before changing a row:
    only the owner may edit; the owner or an administrator may delete; only
    an administrator may delete a user. Roles are compared ignoring case. */
module Policy {
  import opened Strings
  import opened Entities

  /** The role string of an administrator. */
  const AdminRole: string := "admin"

  predicate IsAdmin(u: User) {
    EqualsIgnoreCase(u.role, AdminRole)
  }

  /** Ownership is decided on the primary keys of the two users. */
  predicate IsOwner(u: User, owner: User) {
    u.id == owner.id
  }

  predicate MayEdit(u: User, owner: User) {
    IsOwner(u, owner)
  }

  predicate MayDelete(u: User, owner: User) {
    IsOwner(u, owner) || IsAdmin(u)
  }

  /** Editing is never granted by the role; deleting is granted by either
      ownership or the role, and an owner may do both. */
  lemma EditAndDeleteRights(u: User, owner: User)
    ensures MayEdit(u, owner) <==> u.id == owner.id
    ensures MayDelete(u, owner) <==> u.id == owner.id || IsAdmin(u)
    ensures MayEdit(u, owner) ==> MayDelete(u, owner)
    ensures IsAdmin(u) && u.id != owner.id ==> MayDelete(u, owner) && !MayEdit(u, owner)
  {
  }

  /** The role test ignores case: "ADMIN" and "Admin" are administrators,
      and a role of another length is not. */
  lemma {:induction false} RoleCaseIgnored(u: User)
    ensures u.role == "ADMIN" ==> IsAdmin(u)
    ensures u.role == "Admin" ==> IsAdmin(u)
    ensures |u.role| != |AdminRole| ==> !IsAdmin(u)
  {
    if u.role == "ADMIN" {
      assert Lower(u.role[0]) == 'a' && Lower(u.role[1]) == 'd' && Lower(u.role[2]) == 'm';
      assert Lower(u.role[3]) == 'i' && Lower(u.role[4]) == 'n';
    }
    if u.role == "Admin" {
      assert Lower(u.role[0]) == 'a';
    }
  }
}
