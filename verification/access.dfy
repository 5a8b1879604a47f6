/** The two privilege tiers the proxy consults, as held in the access-control library's storage. */
module Access {
  import opened Common

  datatype Role = DaoRole | EmergencyAdminRole

  /** Which accounts hold which role: the `hasRole` relation. */
  type Roles = set<(Role, Address)>

  const MissingRole := "access_control: account is missing role"

  /** `_check_role(role, account)`: passes iff the account holds the role. */
  function RequireRole(roles: Roles, role: Role, account: Address): (s: Status)
    ensures s.Ok? <==> (role, account) in roles
    ensures s.Reverted? ==> s.reason == MissingRole
  {
    if (role, account) in roles then Ok else Reverted(MissingRole)
  }
}
