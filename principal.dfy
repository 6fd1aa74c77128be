/** The User principal of auth.py: a value built from a row, read by the guards. */
module Principal {
  import opened Roles

  datatype User = User(id: nat, username: string, email: string, role: string) {

    /** User.has_permission: fail-closed lookup of the role's permission list. */
    predicate HasPermission(permission: string)
      ensures HasPermission(permission) <==> role in Registry && permission in Registry[role].permissions
      ensures role !in Registry ==> !HasPermission(permission)
    {
      permission in PermissionsOf(role)
    }

    /** User.get_role_name: the display name, or "Desconocido" exactly for an unregistered role. */
    function RoleName(): (name: string)
      ensures role in Registry ==> name == Registry[role].name
      ensures name == UnknownRoleName <==> role !in Registry
    {
      NameOf(role)
    }
  }

  /** An unregistered role has no permission at all, whatever the rest of the user says. */
  lemma UnknownRoleFailsClosed(u: User, permission: string)
    requires u.role !in Registry
    ensures !u.HasPermission(permission)
    ensures u.RoleName() == UnknownRoleName
  {
  }

  /** Promoting a user along viewer, editor_v2, editor, admin never removes a permission. */
  lemma PromotionKeepsPermissions(u: User, permission: string, higher: string)
    requires u.HasPermission(permission)
    requires u.role == "viewer" ==> higher in {"viewer", "editor_v2", "editor", "admin"}
    requires u.role == "editor_v2" ==> higher in {"editor_v2", "editor", "admin"}
    requires u.role == "editor" ==> higher in {"editor", "admin"}
    requires u.role == "admin" ==> higher == "admin"
    ensures u.(role := higher).HasPermission(permission)
  {
  }
}
