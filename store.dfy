/**
  The user store of auth.py: the `usuarios` table held in one object, with a
  method per function that reads or writes it. Each writing method updates the
  map in place and ends in exactly the state, and with exactly the answer, that
  the matching UserTable function gives.
 */
module Store {
  import opened Wrappers
  import opened Roles
  import opened Passwords
  import opened Principal
  import opened UserTable

  class UserStore {
    var rows: map<nat, Record>
    var nextId: nat

    /** The table this store holds. */
    function Snapshot(): Table
      reads this
    {
      Table(rows, nextId)
    }

    ghost predicate Valid()
      reads this
    {
      WellFormed(Snapshot())
    }

    /** An empty table whose id sequence starts at 1. */
    constructor ()
      ensures Valid() && Snapshot() == EmptyTable
    {
      rows := map[];
      nextId := 1;
    }

    /** create_user(username, email, password, role); salt stands for the hash's random salt. */
    method CreateUser(username: string, email: string, password: string, role: string, salt: Salt) returns (r: Result<nat, Error>)
      requires Valid()
      modifies this
      ensures Valid()
      ensures Outcome(Snapshot(), r) == UserTable.CreateUser(old(Snapshot()), username, email, password, role, salt)
    {
      if role !in Registry {
        return Err(InvalidRole(RoleOrder));
      }
      var hash := GeneratePasswordHash(password, salt);
      if Taken(Snapshot(), username, email) {
        return Err(DuplicateUser);
      }
      rows := rows[nextId := Record(username, email, hash, role, true)];
      r := Ok(nextId);
      nextId := nextId + 1;
    }

    /** create_user(username, email, password) with the default role. */
    method CreateUserWithDefaultRole(username: string, email: string, password: string, salt: Salt) returns (r: Result<nat, Error>)
      requires Valid()
      modifies this
      ensures Valid()
      ensures Outcome(Snapshot(), r) == UserTable.CreateUser(old(Snapshot()), username, email, password, "viewer", salt)
    {
      r := CreateUser(username, email, password, DefaultRole, salt);
    }

    /** update_user_password(id, new_password). */
    method UpdateUserPassword(id: nat, newPassword: string, salt: Salt)
      requires Valid()
      modifies this
      ensures Valid()
      ensures Snapshot() == UserTable.UpdateUserPassword(old(Snapshot()), id, newPassword, salt).table
    {
      var hash := GeneratePasswordHash(newPassword, salt);
      if id in rows {
        rows := rows[id := rows[id].(passwordHash := hash)];
      }
    }

    /** toggle_user_status(id). */
    method ToggleUserStatus(id: nat)
      requires Valid()
      modifies this
      ensures Valid()
      ensures Snapshot() == UserTable.ToggleUserStatus(old(Snapshot()), id).table
    {
      if id in rows {
        rows := rows[id := rows[id].(active := !rows[id].active)];
      }
    }

    /** update_user_role(id, new_role). */
    method UpdateUserRole(id: nat, newRole: string) returns (r: Result<(), Error>)
      requires Valid()
      modifies this
      ensures Valid()
      ensures Outcome(Snapshot(), r) == UserTable.UpdateUserRole(old(Snapshot()), id, newRole)
    {
      if newRole !in Registry {
        return Err(InvalidRole(RoleOrder));
      }
      if id in rows {
        rows := rows[id := rows[id].(role := newRole)];
      }
      r := Ok(());
    }

    /** update_own_password(id, current_password, new_password). */
    method UpdateOwnPassword(id: nat, currentPassword: string, newPassword: string, salt: Salt) returns (r: Result<bool, Error>)
      requires Valid()
      modifies this
      ensures Valid()
      ensures Outcome(Snapshot(), r) == UserTable.UpdateOwnPassword(old(Snapshot()), id, currentPassword, newPassword, salt)
    {
      if id !in rows {
        return Err(UserNotFound);
      }
      if !CheckPasswordHash(rows[id].passwordHash, currentPassword) {
        return Err(IncorrectCurrentPassword);
      }
      var hash := GeneratePasswordHash(newPassword, salt);
      rows := rows[id := rows[id].(passwordHash := hash)];
      r := Ok(true);
    }

    /** load_user(id): reads the row by id without looking at its active flag. */
    method LoadUser(id: nat) returns (u: Option<User>)
      ensures u == UserTable.LoadUser(Snapshot(), id)
    {
      if id in rows {
        u := Some(PrincipalOf(id, rows[id]));
      } else {
        u := None;
      }
    }

    /**
      authenticate_user(identifier, password): fetch one active row whose username
      or email is the identifier (which one, when two match, is up to the
      database), then check the password against its hash.
     */
    method AuthenticateUser(identifier: string, password: string) returns (u: Option<User>)
      ensures u.Some? ==>
                && u.value.id in ActiveMatches(Snapshot(), identifier)
                && rows[u.value.id].active
                && (rows[u.value.id].username == identifier || rows[u.value.id].email == identifier)
                && CheckPasswordHash(rows[u.value.id].passwordHash, password)
                && u.value == PrincipalOf(u.value.id, rows[u.value.id])
      ensures ActiveMatches(Snapshot(), identifier) == {} ==> u.None?
      ensures forall id :: UniqueMatch(Snapshot(), identifier, id) ==>
                (u.Some? <==> CheckPasswordHash(rows[id].passwordHash, password))
    {
      var fetched := set id | id in rows && rows[id].active && (rows[id].username == identifier || rows[id].email == identifier);
      assert fetched == ActiveMatches(Snapshot(), identifier);
      if fetched == {} {
        return None;
      }
      var id :| id in fetched;
      if CheckPasswordHash(rows[id].passwordHash, password) {
        u := Some(PrincipalOf(id, rows[id]));
      } else {
        u := None;
      }
    }
  }
}
