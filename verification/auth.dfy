/** The session/role gate of backend/middleware/auth.js: `requireAuth`,
    `requireRole(allowedRoles)` and `requireAdmin = requireRole('admin')`,
    and the chain `requireAuth, requireAdmin` every admin route uses. */
module Auth {
  import opened Common

  type UserId = nat

  /** The principal kept in the session cookie store. */
  datatype User = User(id: UserId, role: Option<string>)

  /** `req.session`; a missing session and a session without user are alike here. */
  datatype Session = Session(user: Option<User>)

  /** The argument of `requireRole`: one role name or a list of them. */
  datatype Roles = OneRole(role: string) | RoleList(roles: seq<string>)

  /** What a middleware does: call `next()` or answer itself. */
  datatype Gate = Next | Reject(code: nat, text: string)

  const NotAuthenticated: string := "Non authentifié. Veuillez vous connecter."
  const Forbidden: string := "Accès interdit. Permissions insuffisantes."
  const AdminRole: string := "admin"

  /** The role of the session user, if there is a user and it has one. */
  function SessionRole(s: Session): Option<string>
  {
    if s.user.Some? then s.user.value.role else None
  }

  /** The session belongs to a user whose role is exactly `admin`. */
  predicate IsAdmin(s: Session)
  {
    s.user.Some? && s.user.value.role == Some(AdminRole)
  }

  /** `requireAuth`: 401 exactly when there is no session user. */
  function RequireAuth(s: Session): (g: Gate)
    ensures g.Reject? <==> s.user.None?
    ensures g.Reject? ==> g.code == 401 && g.text == NotAuthenticated
  {
    if s.user.None? then Reject(401, NotAuthenticated) else Next
  }

  /** The allowed roles as a list: a single role becomes a one-element list. */
  function AllowedRoles(spec: Roles): (rs: seq<string>)
    ensures forall x :: x in rs <==> (spec.OneRole? && x == spec.role) || (spec.RoleList? && x in spec.roles)
  {
    match spec
    case OneRole(r) => [r]
    case RoleList(rs) => rs
  }

  /** `requireRole(spec)`: 403 when the session role is falsy or not allowed. */
  function RequireRole(spec: Roles, s: Session): (g: Gate)
    ensures g.Next? <==> (Truthy(SessionRole(s)) && SessionRole(s).value in AllowedRoles(spec))
    ensures g.Reject? ==> g.code == 403 && g.text == Forbidden
  {
    var role := SessionRole(s);
    if !Truthy(role) || role.value !in AllowedRoles(spec) then Reject(403, Forbidden) else Next
  }

  /** `requireAdmin`: passes exactly the sessions whose role is `admin`. */
  function RequireAdmin(s: Session): (g: Gate)
    ensures g.Next? <==> IsAdmin(s)
    ensures g.Reject? ==> g.code == 403
  {
    RequireRole(OneRole(AdminRole), s)
  }

  /** `requireAuth, requireAdmin` as Express runs them: the second only
      after the first called `next()`. */
  function AdminGate(s: Session): (g: Gate)
    ensures s.user.None? ==> g == Reject(401, NotAuthenticated)
    ensures s.user.Some? && !IsAdmin(s) ==> g == Reject(403, Forbidden)
    ensures g.Next? <==> IsAdmin(s)
  {
    match RequireAuth(s)
    case Reject(c, t) => Reject(c, t)
    case Next => RequireAdmin(s)
  }

  /** A single role is the same gate as the one-element list holding it. */
  lemma SingleRoleIsOneElementList(r: string, s: Session)
    ensures RequireRole(OneRole(r), s) == RequireRole(RoleList([r]), s)
  {
  }

  /** Admitting a list of roles is admitting any one of them. */
  lemma {:induction false} RoleListIsUnion(rs: seq<string>, s: Session)
    ensures RequireRole(RoleList(rs), s).Next? <==> exists i :: 0 <= i < |rs| && RequireRole(OneRole(rs[i]), s).Next?
  {
  }
}
