/** Callers of the store and the guards that use only their contracts. */
module Scenarios {
  import opened Wrappers
  import opened Roles
  import opened Passwords
  import opened Principal
  import opened UserTable
  import opened Store
  import opened Guards

  /**
    alice registers as a viewer; she then logs in by username and by email with
    her password, fails with another password, and is refused manage_users.
   */
  method AliceSignsUp(salt: Salt) returns (id: nat, byName: Option<User>, byEmail: Option<User>, wrong: Option<User>,
                                          manage: Response<bool>)
    ensures byName == Some(User(id, "alice", "alice@x.com", "viewer"))
    ensures byEmail == byName
    ensures wrong == None
    ensures manage == IndexRedirect(Denial(MissingPermission, "manage_users"))
  {
    var store := new UserStore();
    var created := store.CreateUserWithDefaultRole("alice", "alice@x.com", "pw1", salt);
    id := created.value;
    CreatedUserIsFoundByUsername(EmptyTable, "alice", "alice@x.com", "pw1", "viewer", salt);
    CreatedUserIsFoundByEmail(EmptyTable, "alice", "alice@x.com", "pw1", "viewer", salt);
    byName := store.AuthenticateUser("alice", "pw1");
    byEmail := store.AuthenticateUser("alice@x.com", "pw1");
    wrong := store.AuthenticateUser("alice", "wrong");
    manage := PermissionRequired("manage_users", (x: int) => true, byName, 0);
  }

  /**
    Whatever the store holds, a user who registers and then logs in with the new
    username and password gets back a principal with that username, email and
    role, provided no other active user has the new username as their email.
   */
  method RegisterThenLogin(store: UserStore, username: string, email: string, password: string, role: string, salt: Salt)
    returns (created: Result<nat, Error>, login: Option<User>)
    requires store.Valid()
    requires forall k :: k in store.rows && store.rows[k].active ==> store.rows[k].email != username
    modifies store
    ensures created.Ok? <==> role in Registry && !Taken(old(store.Snapshot()), username, email)
    ensures created.Ok? ==> login == Some(User(created.value, username, email, role))
    ensures created.Err? ==> store.Snapshot() == old(store.Snapshot())
  {
    created := store.CreateUser(username, email, password, role, salt);
    CreatedUserIsFoundByUsername(old(store.Snapshot()), username, email, password, role, salt);
    login := store.AuthenticateUser(username, password);
  }
}
