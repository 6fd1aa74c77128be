/**
  The two decorators of auth.py, permission_required and role_required. Each
  first lets login_required turn away a request without a logged-in user, then
  decides on the current user, and either runs the wrapped handler and returns
  its result unchanged or redirects to the index page with a flash message.
  The current user is an explicit argument; the handler is a function of its
  arguments.
 */
module Guards {
  import opened Wrappers
  import opened Roles
  import opened Principal

  datatype DenialReason = MissingPermission | MissingRole

  /** What the flash message names: the permission, or the required role's display name. */
  datatype Denial = Denial(reason: DenialReason, detail: string)

  /** The decision taken before the handler is called. */
  datatype Verdict =
    | Pass
    | NotLoggedIn                  // login_required redirects to the login view
    | Denied(denial: Denial)       // flash and redirect to 'index'
    | MissingRoleKey(key: string)  // ROLES[role] raises KeyError while building the message

  /** What a guarded view returns. */
  datatype Response<T> =
    | Ran(value: T)
    | LoginRedirect
    | IndexRedirect(denial: Denial)
    | KeyError(key: string)

  /** The check in permission_required's inner function. */
  function PermissionVerdict(current: Option<User>, permission: string): (v: Verdict)
    ensures v.Pass? <==> current.Some? && current.value.HasPermission(permission)
    ensures v == NotLoggedIn <==> current.None?
    ensures v.Denied? ==> v.denial == Denial(MissingPermission, permission)
    ensures !v.MissingRoleKey?
  {
    match current
    case None => NotLoggedIn
    case Some(u) =>
      if !u.HasPermission(permission) then Denied(Denial(MissingPermission, permission))
      else Pass
  }

  /** The check in role_required's inner function; admin passes whatever role is asked for. */
  function RoleVerdict(current: Option<User>, role: string): (v: Verdict)
    ensures v.Pass? <==> current.Some? && (current.value.role == role || current.value.role == "admin")
    ensures v == NotLoggedIn <==> current.None?
    ensures v.Denied? <==> current.Some? && !v.Pass? && role in Registry
    ensures v.Denied? ==> v.denial == Denial(MissingRole, Registry[role].name)
    ensures v.MissingRoleKey? ==> v.key == role && role !in Registry
  {
    match current
    case None => NotLoggedIn
    case Some(u) =>
      if u.role != role && u.role != "admin" then
        if role in Registry then Denied(Denial(MissingRole, Registry[role].name))
        else MissingRoleKey(role)
      else Pass
  }

  /** Run the handler on Pass; on anything else answer without calling it. */
  function Dispatch<A, T>(v: Verdict, handler: A -> T, args: A): (r: Response<T>)
    ensures r.Ran? <==> v.Pass?
    ensures r.Ran? ==> r.value == handler(args)
    ensures v.Denied? ==> r == IndexRedirect(v.denial)
    ensures v.NotLoggedIn? ==> r == LoginRedirect
    ensures v.MissingRoleKey? ==> r == KeyError(v.key)
  {
    match v
    case Pass => Ran(handler(args))
    case NotLoggedIn => LoginRedirect
    case Denied(d) => IndexRedirect(d)
    case MissingRoleKey(k) => KeyError(k)
  }

  /** A handler decorated with permission_required(permission), called as `current`. */
  function PermissionRequired<A, T>(permission: string, handler: A -> T, current: Option<User>, args: A): (r: Response<T>)
    ensures r.Ran? <==> current.Some? && current.value.HasPermission(permission)
    ensures r.Ran? ==> r.value == handler(args)
    ensures current.None? ==> r == LoginRedirect
    ensures current.Some? && !r.Ran? ==> r == IndexRedirect(Denial(MissingPermission, permission))
  {
    Dispatch(PermissionVerdict(current, permission), handler, args)
  }

  /** A handler decorated with role_required(role), called as `current`. */
  function RoleRequired<A, T>(role: string, handler: A -> T, current: Option<User>, args: A): (r: Response<T>)
    ensures r.Ran? <==> current.Some? && (current.value.role == role || current.value.role == "admin")
    ensures r.Ran? ==> r.value == handler(args)
    ensures current.None? ==> r == LoginRedirect
    ensures current.Some? && !r.Ran? && role in Registry ==> r == IndexRedirect(Denial(MissingRole, Registry[role].name))
    ensures current.Some? && !r.Ran? && role !in Registry ==> r == KeyError(role)
  {
    Dispatch(RoleVerdict(current, role), handler, args)
  }

  /** The text flashed with category 'error' on a denial. */
  function FlashMessage(d: Denial): (m: string)
    ensures |m| > |d.detail| && m[|m| - |d.detail|..] == d.detail
  {
    match d.reason
    case MissingPermission => "⛔ No tienes permiso para realizar esta acción. Se requiere: " + d.detail
    case MissingRole => "⛔ Se requiere rol de " + d.detail
  }

  /** When a guard refuses, the answer is the same whatever the handler: it is not called. */
  lemma RefusalIgnoresHandler<A, T>(permission: string, role: string, h1: A -> T, h2: A -> T, current: Option<User>, args: A)
    ensures !PermissionRequired(permission, h1, current, args).Ran? ==>
              PermissionRequired(permission, h1, current, args) == PermissionRequired(permission, h2, current, args)
    ensures !RoleRequired(role, h1, current, args).Ran? ==>
              RoleRequired(role, h1, current, args) == RoleRequired(role, h2, current, args)
  {
  }

  /** Admin passes every role guard, registered role or not. */
  lemma AdminPassesEveryRoleGuard<A, T>(u: User, role: string, handler: A -> T, args: A)
    requires u.role == "admin"
    ensures RoleRequired(role, handler, Some(u), args) == Ran(handler(args))
  {
  }

  /**
    The admin bypass belongs to role_required only: a permission outside admin's
    list is refused to admin by permission_required, while role_required lets
    admin through for any role.
   */
  lemma AdminBypassIsRoleOnly<A, T>(u: User, permission: string, role: string, handler: A -> T, args: A)
    requires u.role == "admin" && permission !in PermissionsOf("admin")
    ensures PermissionRequired(permission, handler, Some(u), args) == IndexRedirect(Denial(MissingPermission, permission))
    ensures RoleRequired(role, handler, Some(u), args) == Ran(handler(args))
  {
  }

  /** Whoever passes a permission guard would also pass it as admin. */
  lemma AdminPassesWhateverOthersPass<A, T>(u: User, permission: string, handler: A -> T, args: A)
    requires PermissionRequired(permission, handler, Some(u), args).Ran?
    ensures PermissionRequired(permission, handler, Some(u.(role := "admin")), args).Ran?
  {
  }

  /** permission_required("delete") refuses a viewer and lets an editor through. */
  lemma DeleteNeedsEditor<A, T>(u: User, handler: A -> T, args: A)
    ensures u.role == "viewer" ==> PermissionRequired("delete", handler, Some(u), args) == IndexRedirect(Denial(MissingPermission, "delete"))
    ensures u.role == "editor" ==> PermissionRequired("delete", handler, Some(u), args) == Ran(handler(args))
  {
  }
}
