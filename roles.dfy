/**
 * role.ts of authentication: the five user roles and their numeric codes.
 */
module Roles {
  import opened Wrappers

  datatype Role = TenantAdmin | SolutionAdmin | OperationalManager | Customer | ThirdParty

  /** The enum's numeric value of each role. */
  function Code(r: Role): int {
    match r
    case TenantAdmin => 100
    case SolutionAdmin => 200
    case OperationalManager => 300
    case Customer => 400
    case ThirdParty => 500
  }

  /** The enum's members in declaration order, as `Object.values` lists its numeric values. */
  const AllRoles: seq<Role> := [TenantAdmin, SolutionAdmin, OperationalManager, Customer, ThirdParty]

  /** The codes a role can have. */
  const RoleCodes: set<int> := {100, 200, 300, 400, 500}

  /** `find` over the members: the first one whose code is `id`. */
  function FindRole(roles: seq<Role>, id: int): (r: Option<Role>)
    ensures r.Some? ==> r.value in roles && Code(r.value) == id
    ensures r.None? ==> forall x :: x in roles ==> Code(x) != id
  {
    if roles == [] then None
    else if Code(roles[0]) == id then Some(roles[0])
    else FindRole(roles[1..], id)
  }

  /** `getRoleById`: the role with that code, undefined for any other number. */
  function GetRoleById(id: int): (r: Option<Role>)
    ensures r.Some? <==> id in RoleCodes
    ensures r.Some? ==> Code(r.value) == id
  {
    FindRole(AllRoles, id)
  }

  /** Every role is found again from its code, so the mapping round-trips. */
  lemma RoleRoundTrip(r: Role)
    ensures GetRoleById(Code(r)) == Some(r)
  {
    assert r in AllRoles;
    var found := GetRoleById(Code(r));
    assert found.Some?;
    assert Code(found.value) == Code(r);
  }

  /** Distinct roles have distinct codes. */
  lemma CodeInjective(a: Role, b: Role)
    requires Code(a) == Code(b)
    ensures a == b
  {
    RoleRoundTrip(a);
    RoleRoundTrip(b);
  }
}
