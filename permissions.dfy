/** Role predicates (lib/permissions.ts). */
module Permissions {
  import opened Types

  /** `isAdmin`: true exactly for the administrator role. */
  function IsAdmin(r: Role): (b: bool)
    ensures b <==> r == Admin
  {
    r == Admin
  }

  /** `roleLabel`: the human-readable name of a role. */
  function RoleLabel(r: Role): (shown: string)
    ensures r == Admin ==> shown == "Administrator"
    ensures r == Staff ==> shown == "Staff"
  {
    if r == Admin then "Administrator" else "Staff"
  }

  /** The labels tell the roles apart, and a role is the administrator role exactly
      when its label says so. */
  lemma RoleLabelFaithful(r1: Role, r2: Role)
    ensures RoleLabel(r1) == RoleLabel(r2) ==> r1 == r2
    ensures IsAdmin(r1) <==> RoleLabel(r1) == "Administrator"
  {
    if r1 != r2 {
      assert RoleLabel(r1)[0] != RoleLabel(r2)[0];
    }
    if !IsAdmin(r1) {
      assert RoleLabel(r1)[0] == 'S';
    }
  }
}
