/**
  The `usuarios` table and what each SQL statement of auth.py does to it, as
  functions from the table before to the table after and the caller's answer.
  The table maps the SERIAL id to the row; nextId is the next value the id
  sequence hands out. The uniqueness constraints on username and on email are
  WellFormed; a violated one is the IntegrityError branch of create_user.
 */
module UserTable {
  import opened Wrappers
  import opened Roles
  import opened Passwords
  import opened Principal

  /** One row: username, email, password_hash, role, activo (timestamps are not modelled). */
  datatype Record = Record(username: string, email: string, passwordHash: PasswordHash, role: string, active: bool)

  datatype Table = Table(rows: map<nat, Record>, nextId: nat)

  /** The ValueErrors auth.py raises. */
  datatype Error =
    | InvalidRole(validRoles: seq<string>)
    | DuplicateUser
    | UserNotFound
    | IncorrectCurrentPassword

  /** The table after a call, and what the call returned or raised. */
  datatype Outcome<T> = Outcome(table: Table, result: Result<T, Error>)

  /** The message each ValueError carries. */
  function Message(e: Error): string {
    match e
    case InvalidRole(valid) => InvalidRolePrefix + Join(valid, ", ")
    case DuplicateUser => "El username o email ya existe"
    case UserNotFound => "Usuario no encontrado"
    case IncorrectCurrentPassword => "Contraseña actual incorrecta"
  }

  const InvalidRolePrefix: string := "Rol inválido. Debe ser uno de: "

  function Join(parts: seq<string>, sep: string): string {
    if parts == [] then "" else if |parts| == 1 then parts[0] else parts[0] + sep + Join(parts[1..], sep)
  }

  /** The role create_user uses when none is given. */
  const DefaultRole: string := "viewer"

  /** A fresh table: no rows, and a SERIAL sequence that starts at 1. */
  const EmptyTable: Table := Table(map[], 1)

  /** The database's own constraints: ids come from the sequence, usernames and emails are unique. */
  ghost predicate WellFormed(t: Table) {
    && (forall id :: id in t.rows ==> id < t.nextId)
    && (forall i, j :: i in t.rows && j in t.rows && i != j ==> t.rows[i].username != t.rows[j].username)
    && (forall i, j :: i in t.rows && j in t.rows && i != j ==> t.rows[i].email != t.rows[j].email)
  }

  /** Every stored role is a key of ROLES (no database constraint says so; the writers below keep it). */
  ghost predicate RolesRegistered(t: Table) {
    forall id :: id in t.rows ==> t.rows[id].role in Registry
  }

  /** t2 differs from t1 in row id at most: same ids, same sequence, every other row as it was. */
  ghost predicate OnlyRowTouched(t1: Table, t2: Table, id: nat) {
    && t2.nextId == t1.nextId
    && t2.rows.Keys == t1.rows.Keys
    && (forall k :: k in t1.rows && k != id ==> t2.rows[k] == t1.rows[k])
  }

  /** Whether an INSERT of this username and email would violate a uniqueness constraint. */
  predicate Taken(t: Table, username: string, email: string) {
    exists id :: id in t.rows && (t.rows[id].username == username || t.rows[id].email == email)
  }

  /** The principal built from a row: the password hash and the active flag stay behind. */
  function PrincipalOf(id: nat, r: Record): User {
    User(id, r.username, r.email, r.role)
  }

  /** The rows authenticate_user's SELECT can fetch: active, with that username or that email. */
  ghost function ActiveMatches(t: Table, identifier: string): set<nat> {
    set id | id in t.rows && t.rows[id].active && (t.rows[id].username == identifier || t.rows[id].email == identifier)
  }

  /** The SELECT finds exactly one row, the row id. */
  ghost predicate UniqueMatch(t: Table, identifier: string, id: nat) {
    ActiveMatches(t, identifier) == {id}
  }

  /** create_user: validate the role, then INSERT an active row, or roll back on a duplicate. */
  function CreateUser(t: Table, username: string, email: string, password: string, role: string, salt: Salt): (o: Outcome<nat>)
    ensures o.result.Ok? <==> role in Registry && !Taken(t, username, email)
    ensures role !in Registry ==> o.result == Err(InvalidRole(RoleOrder))
    ensures role in Registry && Taken(t, username, email) ==> o.result == Err(DuplicateUser)
    ensures o.result.Err? ==> o.table == t
    ensures o.result.Ok? ==>
              && o.table.rows.Keys == t.rows.Keys + {o.result.value}
              && (forall k :: k in t.rows && k != o.result.value ==> o.table.rows[k] == t.rows[k])
              && o.table.rows[o.result.value] == Record(username, email, o.table.rows[o.result.value].passwordHash, role, true)
              && (forall p :: CheckPasswordHash(o.table.rows[o.result.value].passwordHash, p) <==> p == password)
    ensures o.result.Ok? && WellFormed(t) ==> o.result.value !in t.rows
    ensures WellFormed(t) ==> WellFormed(o.table)
    ensures RolesRegistered(t) ==> RolesRegistered(o.table)
  {
    if role !in Registry then Outcome(t, Err(InvalidRole(RoleOrder)))
    else if Taken(t, username, email) then Outcome(t, Err(DuplicateUser))
    else
      var row := Record(username, email, GeneratePasswordHash(password, salt), role, true);
      Outcome(Table(t.rows[t.nextId := row], t.nextId + 1), Ok(t.nextId))
  }

  /** update_user_password: an UPDATE of one hash; an unknown id updates nothing and raises nothing. */
  function UpdateUserPassword(t: Table, id: nat, newPassword: string, salt: Salt): (o: Outcome<()>)
    ensures o.result == Ok(())
    ensures OnlyRowTouched(t, o.table, id)
    ensures id !in t.rows ==> o.table == t
    ensures id in t.rows ==> o.table.rows[id] == t.rows[id].(passwordHash := o.table.rows[id].passwordHash)
    ensures id in t.rows ==> forall p :: CheckPasswordHash(o.table.rows[id].passwordHash, p) <==> p == newPassword
    ensures WellFormed(t) ==> WellFormed(o.table)
    ensures RolesRegistered(t) ==> RolesRegistered(o.table)
  {
    if id in t.rows then
      Outcome(t.(rows := t.rows[id := t.rows[id].(passwordHash := GeneratePasswordHash(newPassword, salt))]), Ok(()))
    else Outcome(t, Ok(()))
  }

  /** toggle_user_status: `activo = NOT activo` on one row; an unknown id updates nothing. */
  function ToggleUserStatus(t: Table, id: nat): (o: Outcome<()>)
    ensures o.result == Ok(())
    ensures OnlyRowTouched(t, o.table, id)
    ensures id !in t.rows ==> o.table == t
    ensures id in t.rows ==> o.table.rows[id].active != t.rows[id].active
    ensures id in t.rows ==> o.table.rows[id] == t.rows[id].(active := o.table.rows[id].active)
    ensures WellFormed(t) ==> WellFormed(o.table)
    ensures RolesRegistered(t) ==> RolesRegistered(o.table)
  {
    if id in t.rows then Outcome(t.(rows := t.rows[id := t.rows[id].(active := !t.rows[id].active)]), Ok(()))
    else Outcome(t, Ok(()))
  }

  /** update_user_role: validate the role before any write, then UPDATE one row's role. */
  function UpdateUserRole(t: Table, id: nat, newRole: string): (o: Outcome<()>)
    ensures o.result.Ok? <==> newRole in Registry
    ensures o.result.Err? ==> o.result.error == InvalidRole(RoleOrder) && o.table == t
    ensures OnlyRowTouched(t, o.table, id)
    ensures id !in t.rows ==> o.table == t
    ensures o.result.Ok? && id in t.rows ==> o.table.rows[id] == t.rows[id].(role := newRole)
    ensures WellFormed(t) ==> WellFormed(o.table)
    ensures RolesRegistered(t) ==> RolesRegistered(o.table)
  {
    if newRole !in Registry then Outcome(t, Err(InvalidRole(RoleOrder)))
    else if id in t.rows then Outcome(t.(rows := t.rows[id := t.rows[id].(role := newRole)]), Ok(()))
    else Outcome(t, Ok(()))
  }

  /**
    update_own_password: the id must exist and the current password must check
    against the stored hash; only then is the hash replaced, and True returned.
   */
  function UpdateOwnPassword(t: Table, id: nat, currentPassword: string, newPassword: string, salt: Salt): (o: Outcome<bool>)
    ensures o.result.Ok? <==> id in t.rows && CheckPasswordHash(t.rows[id].passwordHash, currentPassword)
    ensures id !in t.rows ==> o.result == Err(UserNotFound)
    ensures id in t.rows && !CheckPasswordHash(t.rows[id].passwordHash, currentPassword) ==>
              o.result == Err(IncorrectCurrentPassword)
    ensures o.result.Err? ==> o.table == t
    ensures o.result.Ok? ==> o.result.value && o.table == UpdateUserPassword(t, id, newPassword, salt).table
  {
    if id !in t.rows then Outcome(t, Err(UserNotFound))
    else if !CheckPasswordHash(t.rows[id].passwordHash, currentPassword) then Outcome(t, Err(IncorrectCurrentPassword))
    else Outcome(UpdateUserPassword(t, id, newPassword, salt).table, Ok(true))
  }

  /** load_user: the row's principal, active or not, or None. */
  function LoadUser(t: Table, id: nat): (u: Option<User>)
    ensures u.Some? <==> id in t.rows
    ensures u.Some? ==> u.value.id == id && u.value.username == t.rows[id].username
                        && u.value.email == t.rows[id].email && u.value.role == t.rows[id].role
  {
    if id in t.rows then Some(PrincipalOf(id, t.rows[id])) else None
  }

  /** A call to one of the writing operations, for reasoning about any sequence of them. */
  datatype Op =
    | Create(username: string, email: string, password: string, role: string, salt: Salt)
    | ResetPassword(id: nat, newPassword: string, salt: Salt)
    | Toggle(id: nat)
    | ChangeRole(id: nat, newRole: string)
    | ChangeOwnPassword(id: nat, currentPassword: string, newPassword: string, salt: Salt)

  function Apply(t: Table, op: Op): Table {
    match op
    case Create(u, e, p, r, s) => CreateUser(t, u, e, p, r, s).table
    case ResetPassword(id, p, s) => UpdateUserPassword(t, id, p, s).table
    case Toggle(id) => ToggleUserStatus(t, id).table
    case ChangeRole(id, r) => UpdateUserRole(t, id, r).table
    case ChangeOwnPassword(id, c, p, s) => UpdateOwnPassword(t, id, c, p, s).table
  }

  function Run(t: Table, ops: seq<Op>): Table
    decreases |ops|
  {
    if ops == [] then t else Run(Apply(t, ops[0]), ops[1..])
  }

  /** One operation keeps the uniqueness constraints, registered roles, and every existing row's identity. */
  lemma ApplyPreserves(t: Table, op: Op)
    ensures WellFormed(t) ==> WellFormed(Apply(t, op))
    ensures RolesRegistered(t) ==> RolesRegistered(Apply(t, op))
    ensures t.nextId <= Apply(t, op).nextId
    ensures WellFormed(t) ==> forall id :: id in t.rows ==>
              id in Apply(t, op).rows
              && Apply(t, op).rows[id].username == t.rows[id].username
              && Apply(t, op).rows[id].email == t.rows[id].email
  {
  }

  /**
    Any sequence of writes keeps the uniqueness constraints and registered roles,
    never deletes a row and never changes a row's username or email.
   */
  lemma {:induction false} RunPreserves(t: Table, ops: seq<Op>)
    ensures WellFormed(t) ==> WellFormed(Run(t, ops))
    ensures RolesRegistered(t) ==> RolesRegistered(Run(t, ops))
    ensures t.nextId <= Run(t, ops).nextId
    ensures WellFormed(t) ==> forall id :: id in t.rows ==>
              id in Run(t, ops).rows
              && Run(t, ops).rows[id].username == t.rows[id].username
              && Run(t, ops).rows[id].email == t.rows[id].email
    decreases |ops|
  {
    if ops != [] {
      ApplyPreserves(t, ops[0]);
      RunPreserves(Apply(t, ops[0]), ops[1..]);
    }
  }

  /**
    In a table built from scratch by these operations, every user that load_user
    returns has a registered role: a real display name and at least one permission.
   */
  lemma ReachableUsersHaveRegisteredRoles(ops: seq<Op>, id: nat)
    requires id in Run(EmptyTable, ops).rows
    ensures LoadUser(Run(EmptyTable, ops), id).value.RoleName() != UnknownRoleName
    ensures LoadUser(Run(EmptyTable, ops), id).value.HasPermission("view")
  {
    RunPreserves(EmptyTable, ops);
  }

  /** Toggling a user's status twice gives back the table it started from. */
  lemma ToggleTwiceRestores(t: Table, id: nat)
    ensures ToggleUserStatus(ToggleUserStatus(t, id).table, id).table == t
  {
  }

  /** A deactivated row is never among the rows authentication can fetch. */
  lemma DeactivationBlocksLogin(t: Table, id: nat, identifier: string)
    requires id in t.rows && t.rows[id].active
    ensures id !in ActiveMatches(ToggleUserStatus(t, id).table, identifier)
  {
  }

  /**
    After create_user succeeds, the new username selects the new row alone,
    provided no older active row has that username as its email.
   */
  lemma CreatedUserIsFoundByUsername(t: Table, username: string, email: string, password: string, role: string, salt: Salt)
    requires WellFormed(t)
    requires forall k :: k in t.rows && t.rows[k].active ==> t.rows[k].email != username
    ensures var o := CreateUser(t, username, email, password, role, salt);
            o.result.Ok? ==> UniqueMatch(o.table, username, o.result.value)
  {
  }

  /**
    After create_user succeeds, the new email selects the new row alone,
    provided no older active row has that email as its username.
   */
  lemma CreatedUserIsFoundByEmail(t: Table, username: string, email: string, password: string, role: string, salt: Salt)
    requires WellFormed(t)
    requires forall k :: k in t.rows && t.rows[k].active ==> t.rows[k].username != email
    ensures var o := CreateUser(t, username, email, password, role, salt);
            o.result.Ok? ==> UniqueMatch(o.table, email, o.result.value)
  {
  }

  /** The roles joined as the invalid-role message lists them. */
  lemma RoleOrderJoined()
    ensures Join(RoleOrder, ", ") == "viewer, editor_v2, editor, admin"
  {
    var tail := ["editor_v2", "editor", "admin"];
    assert RoleOrder[1..] == tail;
    assert tail[1..] == ["editor", "admin"];
    assert ["editor", "admin"][1..] == ["admin"];
    assert Join(["admin"], ", ") == "admin";
    assert Join(["editor", "admin"], ", ") == "editor" + ", " + "admin";
    assert Join(tail, ", ") == "editor_v2" + ", " + "editor, admin";
  }

  /** The text of the invalid-role error lists the four roles in the dictionary's order. */
  lemma InvalidRoleMessageListsRoles()
    ensures Message(InvalidRole(RoleOrder)) == InvalidRolePrefix + "viewer, editor_v2, editor, admin"
  {
    RoleOrderJoined();
  }

  /** The four error messages tell the four failures apart. */
  lemma MessagesAreDistinct(e1: Error, e2: Error)
    requires e1.InvalidRole? ==> !e2.InvalidRole?
    requires e1 != e2
    ensures Message(e1) != Message(e2)
  {
    assert Message(e1)[0] != Message(e2)[0];
  }
}
