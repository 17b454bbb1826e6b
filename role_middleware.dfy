/**
 * The role check placed in front of administrative routes
 * (src/middlewares/role.middleware.js).
 */
module RoleMiddleware {
  import opened Models

  /** The middleware is configured with one role or a list of roles. */
  datatype RoleSpec = OneRole(role: string) | RoleList(roles: seq<string>)

  /** The account the authentication step attached to the request. */
  datatype Account = Account(role: string)

  /** Either a response is sent with that status, or the next handler runs. */
  datatype Decision = Respond(status: int, message: string) | CallNext

  /** A single role becomes a one-element list; a list is kept as it is. */
  function Normalise(spec: RoleSpec): (roles: seq<string>)
    ensures spec.OneRole? ==> roles == [spec.role]
    ensures spec.RoleList? ==> roles == spec.roles
  {
    match spec
    case OneRole(r) => [r]
    case RoleList(rs) => rs
  }

  function CheckRole(spec: RoleSpec, account: Option<Account>): (d: Decision)
    ensures d == Respond(401, "Unauthorized. User not logged in.") <==> account.None?
    ensures d == Respond(403, "Permission denied.") <==>
      account.Some? && |Normalise(spec)| > 0 && account.value.role !in Normalise(spec)
    ensures d == CallNext <==>
      account.Some? && (|Normalise(spec)| == 0 || account.value.role in Normalise(spec))
  {
    var roles := Normalise(spec);
    if account.None? then Respond(401, "Unauthorized. User not logged in.")
    else if |roles| > 0 && account.value.role !in roles then Respond(403, "Permission denied.")
    else CallNext
  }
}
