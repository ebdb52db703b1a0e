/** The user entity and the closed set of roles (internal/pkg/entity/user.go). */
module Entity {

  import opened Time

  /** A stored account. The password field only ever holds a digest. */
  datatype User = User(
    id: int,
    email: string,
    username: string,
    password: string,
    name: string,
    role: string,
    isActive: bool,
    createdAt: Instant,
    updatedAt: Instant)

  const RoleAdmin: string := "admin"
  const RoleUser: string := "user"
  const RoleViewer: string := "viewer"

  /** The roles as a set. */
  const Roles: set<string> := {RoleAdmin, RoleUser, RoleViewer}

  /** IsValidRole: a switch over the three role constants. */
  predicate IsValidRole(role: string)
    ensures IsValidRole(role) <==> role in Roles
  {
    role == RoleAdmin || role == RoleUser || role == RoleViewer
  }

  /** IsValidRole accepts exactly the members of Roles, and Roles has three members. */
  lemma ValidRolesAreExactlyThree()
    ensures forall role :: IsValidRole(role) <==> role in Roles
    ensures |Roles| == 3
  {
    assert RoleAdmin != RoleUser && RoleAdmin != RoleViewer && RoleUser != RoleViewer;
  }

  /** The admin role is itself valid, which the admin gate relies on. */
  lemma AdminIsValid()
    ensures IsValidRole(RoleAdmin)
  {
  }

  /** Some strings the check rejects: the empty string, unknown names, other letter cases. */
  lemma RejectedRoles()
    ensures !IsValidRole("") && !IsValidRole("superadmin") && !IsValidRole("guest")
    ensures !IsValidRole("Admin") && !IsValidRole("admin ")
  {
  }
}
