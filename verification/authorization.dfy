/**
 * The owner-or-admin rule of `UserController`: an operation on the account
 * named `target` is allowed when the current username equals `target`
 * (`Objects.equals`, so a missing username never equals) or the current
 * role is exactly "ROLE_admin". The role is compared with
 * `userRole.equals(...)`, which throws when the role is missing and the
 * username test has not already succeeded.
 */
module Authorization {
  import opened Wrappers

  const AdminRole: string := "ROLE_admin"

  /** The current principal, as `JwtToPrincipalConverter` reports it (either part may be null). */
  datatype Principal = Principal(username: Option<string>, role: Option<string>)

  /** The outcome of the check: allowed, refused, or a NullPointerException on the missing role. */
  datatype Access = Granted | Refused | NullRole

  predicate IsOwner(p: Principal, target: string) {
    p.username == Some(target)
  }

  predicate IsAdmin(p: Principal) {
    p.role == Some(AdminRole)
  }

  /** `!Objects.equals(username, target) && !userRole.equals("ROLE_admin")`, evaluated left to right. */
  function Check(p: Principal, target: string): (a: Access)
    ensures a == Granted <==> IsOwner(p, target) || IsAdmin(p)
    ensures a == NullRole <==> !IsOwner(p, target) && p.role == None
    ensures a == Refused <==> !IsOwner(p, target) && p.role.Some? && p.role.value != AdminRole
  {
    if p.username == Some(target) then Granted
    else
      match p.role
      case None => NullRole
      case Some(r) => if r == AdminRole then Granted else Refused
  }
}
