# Role-based authorization for the dashboard, modelled in Dafny

This project models `auth.py`, the authentication module of a Flask dashboard.
It covers five parts:

- the role registry `ROLES`: four roles, each with a display name and a list of permissions;
- the `User` principal and its two lookups, `has_permission` and `get_role_name`;
- the two decorators `permission_required` and `role_required`;
- password hashing, kept abstract;
- the `usuarios` table and the functions that read or write it: `load_user`,
  `authenticate_user`, `create_user`, `update_user_password`,
  `toggle_user_status`, `update_user_role` and `update_own_password`.

Layout, one module per file:

- `wrappers.dfy` (`Wrappers`): `Option` and `Result`.
- `roles.dfy` (`Roles`): `ROLES` as a constant map, the key order of the
  dictionary, and the fail-closed lookups `ROLES.get(role, {}).get(...)`.
- `principal.dfy` (`Principal`): the `User` value with `HasPermission` and `RoleName`.
- `passwords.dfy` (`Passwords`): an ideal salted hash. The random salt is a
  parameter, and the check accepts exactly the password that was hashed.
- `guards.dfy` (`Guards`): each decorator is split into two parts. A verdict
  function looks at the current user. A dispatch function then either calls the
  handler or answers with a login redirect, a denial redirect carrying the flash
  detail, or the `KeyError` that `ROLES[role]` raises for an unregistered role.
- `user_table.dfy` (`UserTable`): each SQL statement as a pure function from the
  table before to the table after, plus the value returned or the `ValueError`
  raised. It also holds the lemmas about any sequence of such writes.
- `store.dfy` (`Store`): class `UserStore`. Its `map` field is the table and
  `nextId` is the SERIAL sequence. Each writing method updates the map in place
  and is proved to end in the state the `UserTable` function gives.
  `AuthenticateUser` takes whichever matching row the database returns first; the model
  leaves that choice open.
- `scenarios.dfy` (`Scenarios`): callers that rely only on the contracts.
  One registers alice, logs in by username, by email and with a wrong password,
  then meets `permission_required('manage_users')`.

Behaviour of the code that is easy to misread:

- `authenticate_user` fetches one row with `fetchone()`. An identifier can be one
  active user's username and another active user's email. The code then checks
  the password against whichever row the database returns first; it does not
  treat the ambiguity as a failure. `AuthenticateUser` chooses among the matching
  rows, and its contract fixes the answer only when a single row matches.
- `load_user` does not filter on `activo`, so a deactivated user's session still
  loads a principal.
- `update_user_password`, `toggle_user_status` and `update_user_role` do nothing
  and raise nothing for an id that does not exist. Only `update_own_password`
  reports "Usuario no encontrado".
- `role_required` with a role that is not in `ROLES` raises `KeyError` when it
  denies a user, instead of redirecting.
- `update_own_password` does not look at `activo`.

## Model

| member | source | states |
|---|---|---|
| `Roles.RegistryShape` | auth.py:18-35 | ROLES has exactly the keys viewer, editor_v2, editor and admin; the key order lists each of them exactly once |
| `Roles.EveryRoleGrantsView` | auth.py:18-35 | every registered role has a non-empty permission list that includes "view"; an unknown role grants the empty set |
| `Roles.PermissionSetsNest` | auth.py:18-35 | viewer ⊂ editor_v2 ⊂ editor ⊂ admin, each inclusion strict |
| `Roles.AdminGrantsEverything` | auth.py:18-35 | any permission of any role is also an admin permission |
| `Roles.NamesAreDistinct` | auth.py:18-51 | the display names of different roles differ, and none of them is "Desconocido" |
| `Principal.User.HasPermission` | auth.py:45-47 | true exactly when the role is a key of ROLES and the permission is in its list; an unknown role has no permission (fail-closed) |
| `Principal.User.RoleName` | auth.py:49-51 | the registered display name, and "Desconocido" exactly when the role is not registered |
| `Principal.UnknownRoleFailsClosed` | auth.py:45-51 | a user with an unregistered role has no permissions and is named "Desconocido" |
| `Principal.PromotionKeepsPermissions` | auth.py:18-47 | moving a user up along viewer, editor_v2, editor, admin keeps every permission they had |
| `Passwords.GeneratePasswordHash` | auth.py:103 | the generated hash records its salt and is accepted by the check for exactly the password it was made from |
| `Passwords.CheckAcceptsOnlyTheHashedPassword` | auth.py:94 | check_password_hash accepts a generated hash for its own password and for no other |
| `Guards.PermissionVerdict` | auth.py:141-146 | passes exactly when a user is logged in and has the permission; without a user it is the login redirect; a denial names the permission |
| `Guards.RoleVerdict` | auth.py:155-160 | passes exactly when the user's role equals the required role or is admin; a denial carries ROLES[role]'s display name and happens only for a registered role; otherwise a KeyError for the role |
| `Guards.Dispatch` | auth.py:142-146 | the handler's result is returned unchanged exactly on Pass; a denial becomes the index redirect, no user the login redirect, a missing ROLES key the KeyError |
| `Guards.PermissionRequired` | auth.py:137-148 | the handler runs, and its result is returned unchanged, exactly when the current user has the permission; otherwise login redirect or a denial naming the permission |
| `Guards.RoleRequired` | auth.py:151-162 | the handler runs exactly when the role matches or is admin; otherwise login redirect, a denial citing the role's display name, or KeyError for an unregistered role |
| `Guards.FlashMessage` | auth.py:144-158 | the flashed text ends with the missing permission or the role's display name |
| `Guards.RefusalIgnoresHandler` | auth.py:143-160 | when either guard refuses, its answer does not depend on the handler: the handler is not called |
| `Guards.AdminPassesEveryRoleGuard` | auth.py:157 | an admin passes role_required for every role, registered or not, and gets the handler's result |
| `Guards.AdminBypassIsRoleOnly` | auth.py:143-157 | the admin bypass belongs to role_required only: permission_required still refuses admin a permission outside its list, while role_required runs the handler for admin whatever the role |
| `Guards.AdminPassesWhateverOthersPass` | auth.py:143 | whoever passes a permission guard would also pass it with the admin role |
| `Guards.DeleteNeedsEditor` | auth.py:137-148 | permission_required("delete") refuses a viewer and runs the handler for an editor |
| `UserTable.CreateUser` | auth.py:98-122 | succeeds exactly for a registered role and an unused username and email; an invalid role is reported first, then a duplicate; a failure leaves the table unchanged; success adds one active row under a fresh id, with the given fields and a hash that accepts exactly the password; keeps the uniqueness constraints and registered roles |
| `UserTable.UpdateUserPassword` | auth.py:125-134 | never fails; changes only the hash of row id, which then accepts exactly the new password; an unknown id leaves the table unchanged |
| `UserTable.ToggleUserStatus` | auth.py:181-188 | never fails; flips only the active flag of row id; an unknown id leaves the table unchanged |
| `UserTable.UpdateUserRole` | auth.py:191-201 | fails exactly for an unregistered role, before any write and with the table unchanged; otherwise changes only the role of row id |
| `UserTable.UpdateOwnPassword` | auth.py:213-238 | unknown id: "Usuario no encontrado"; wrong current password: "Contraseña actual incorrecta"; both leave the table (and the hash) unchanged; success returns true and has the same effect as update_user_password |
| `UserTable.LoadUser` | auth.py:63-75 | a principal exactly for an existing id, active or not, with that row's username, email and role |
| `UserTable.ApplyPreserves` | auth.py:98-238 | any single write keeps the uniqueness constraints and registered roles, never removes a row and never changes a username or email |
| `UserTable.RunPreserves` | auth.py:98-238 | the same holds for any sequence of writes |
| `UserTable.ReachableUsersHaveRegisteredRoles` | auth.py:100-194 | in a table built by these operations, every loaded user has a real role name and the "view" permission: role validation means the fail-closed branch is never reached |
| `UserTable.ToggleTwiceRestores` | auth.py:185 | toggling a status twice gives back the original table |
| `UserTable.DeactivationBlocksLogin` | auth.py:87 | once an active user is toggled off, authentication can no longer fetch their row |
| `UserTable.CreatedUserIsFoundByUsername` | auth.py:84-112 | after create_user succeeds, the new username selects only the new row, provided no older active row has the new username as its email |
| `UserTable.CreatedUserIsFoundByEmail` | auth.py:84-112 | after create_user succeeds, the new email selects only the new row, provided no older active row has the new email as its username |
| `UserTable.InvalidRoleMessageListsRoles` | auth.py:100-101 | the invalid-role ValueError reads "Rol inválido. Debe ser uno de: viewer, editor_v2, editor, admin", the keys in the dictionary's order |
| `UserTable.MessagesAreDistinct` | auth.py:101-230 | the ValueError texts for an invalid role, a duplicate, an unknown user and a wrong current password all differ |
| `Store.UserStore.CreateUser` | auth.py:98-122 | keeps the table constraints, and its new state and answer are those of UserTable.CreateUser |
| `Store.UserStore.CreateUserWithDefaultRole` | auth.py:98 | create_user without a role behaves as create_user with "viewer" |
| `Store.UserStore.UpdateUserPassword` | auth.py:125-134 | keeps the table constraints and ends in the state of UserTable.UpdateUserPassword |
| `Store.UserStore.ToggleUserStatus` | auth.py:181-188 | keeps the table constraints and ends in the state of UserTable.ToggleUserStatus |
| `Store.UserStore.UpdateUserRole` | auth.py:191-201 | keeps the table constraints, and its state and answer are those of UserTable.UpdateUserRole |
| `Store.UserStore.UpdateOwnPassword` | auth.py:213-238 | keeps the table constraints, and its state and answer are those of UserTable.UpdateOwnPassword |
| `Store.UserStore.LoadUser` | auth.py:63-75 | answers exactly as UserTable.LoadUser on the held table: a principal for an existing id, active or not |
| `Store.UserStore.AuthenticateUser` | auth.py:78-96 | a returned user comes from an active row whose username or email is the identifier and whose hash accepts the password, with that row's fields; no matching active row gives None; with exactly one match, success happens exactly when the password checks |
| `Scenarios.AliceSignsUp` | auth.py:78-148 | a new viewer alice logs in by username and by email with her password, fails with a wrong one, and is refused manage_users |
| `Scenarios.RegisterThenLogin` | auth.py:78-122 | when no active user has the new username as their email, registering then logging in with the new username and password returns a principal with that username, email and role; a failed registration changes nothing |

## Left out

- Database connection handling (`get_db_connection`, `DATABASE_URL`, the `channel_binding` edit): the table is held in memory.
- The Flask and Flask-Login plumbing (`LoginManager`, the `user_loader` registration, `login_required`, `current_user`, `flash`, `redirect`, `url_for`). The current user is an explicit `Option<User>` argument, and a redirect is a `Response` value.
- The internals of Werkzeug's `generate_password_hash` and `check_password_hash`. The hash is ideal (no collisions), and its random salt is a parameter.
- `update_last_login`, `get_all_users` and `get_user_profile`. They only stamp or pass through timestamps and rows. The `created_at` and `last_login` columns are not modelled.
- Concurrency between requests and the database's row atomicity: each call is one atomic step on the table.
- Database faults other than the uniqueness violation (lost connections, other constraints) are not modelled.
- A PostgreSQL sequence also consumes an id when an INSERT fails. In the model, a failed create leaves `nextId` as it was.
- Store.UserStore.AuthenticateUser: when two different active rows match the identifier, the contract says only that any returned user comes from one of them. It does not say which row, because the code leaves that to the database's row order.
