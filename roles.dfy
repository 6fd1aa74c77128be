/**
  The role registry: the constant ROLES dictionary of auth.py, mapping a role
  identifier to its display name and its list of permission tokens.
 */
module Roles {

  datatype RoleInfo = RoleInfo(name: string, permissions: seq<string>)

  /** ROLES, entry by entry. */
  const Registry: map<string, RoleInfo> := map[
    "viewer"    := RoleInfo("Visualizador", ["view"]),
    "editor_v2" := RoleInfo("Editor Simple", ["view", "edit"]),
    "editor"    := RoleInfo("Editor Full", ["view", "edit", "delete"]),
    "admin"     := RoleInfo("Administrador", ["view", "edit", "delete", "manage_users", "view_audit"])
  ]

  /** The insertion order of the dictionary's keys, which the "invalid role" message lists. */
  const RoleOrder: seq<string> := ["viewer", "editor_v2", "editor", "admin"]

  /** The name reported for a role that is not in the registry. */
  const UnknownRoleName: string := "Desconocido"

  /** `ROLES.get(role, {}).get('permissions', [])`: the empty list for an unregistered role. */
  function PermissionsOf(role: string): seq<string> {
    if role in Registry then Registry[role].permissions else []
  }

  /** `ROLES.get(role, {}).get('name', 'Desconocido')`. */
  function NameOf(role: string): string {
    if role in Registry then Registry[role].name else UnknownRoleName
  }

  /** The permissions a role grants, as a set: their order in the list is irrelevant. */
  function PermissionSet(role: string): (s: set<string>)
    ensures forall p :: p in s <==> p in PermissionsOf(role)
    ensures s == {} <==> role !in Registry
  {
    assert role in Registry ==> "view" in PermissionsOf(role);
    set p | p in PermissionsOf(role)
  }

  /** The registry holds exactly the four built-in roles, listed once each by RoleOrder. */
  lemma RegistryShape()
    ensures Registry.Keys == {"viewer", "editor_v2", "editor", "admin"}
    ensures forall i :: 0 <= i < |RoleOrder| ==> RoleOrder[i] in Registry
    ensures forall role :: role in Registry ==> role in RoleOrder
    ensures forall i, j :: 0 <= i < j < |RoleOrder| ==> RoleOrder[i] != RoleOrder[j]
  {
  }

  /** Every registered role grants something, at least "view"; an unregistered one grants nothing. */
  lemma EveryRoleGrantsView(role: string)
    ensures role in Registry ==> |Registry[role].permissions| > 0 && "view" in PermissionSet(role)
    ensures role !in Registry ==> PermissionSet(role) == {}
  {
  }

  /** The permission sets nest strictly: viewer, then editor_v2, then editor, then admin. */
  lemma PermissionSetsNest()
    ensures PermissionSet("viewer") < PermissionSet("editor_v2")
    ensures PermissionSet("editor_v2") < PermissionSet("editor")
    ensures PermissionSet("editor") < PermissionSet("admin")
  {
    assert PermissionSet("viewer") == {"view"};
    assert PermissionSet("editor_v2") == {"view", "edit"};
    assert PermissionSet("editor") == {"view", "edit", "delete"};
    assert PermissionSet("admin") == {"view", "edit", "delete", "manage_users", "view_audit"};
  }

  /** Whatever any role grants, admin grants too. */
  lemma AdminGrantsEverything(role: string, permission: string)
    requires permission in PermissionsOf(role)
    ensures permission in PermissionsOf("admin")
  {
  }

  /** Display names tell the roles apart, and none of them is the "unknown" name. */
  lemma NamesAreDistinct(r1: string, r2: string)
    requires r1 in Registry && r2 in Registry && r1 != r2
    ensures Registry[r1].name != Registry[r2].name
    ensures Registry[r1].name != UnknownRoleName
  {
  }
}
