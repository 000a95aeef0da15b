// The CreateAdmin block of the start-up: create the administrator, or reset it.
module Bootstrap {
  import opened Wrappers
  import opened AccessData
  import opened AccessOps
  import opened AccessInvariants
  import opened AccessRuns
  import opened AccessService
  import opened Permissions
  import opened SystemRoles
  import opened ShippedRoles

  function AdminForm(username: string, password: Password): User
  {
    User(username, ["administrator"], password, Some("ceph api default administrator"), None, 0, true, None, false)
  }

  function BootOp(db: DB, username: string, password: Password): Op
  {
    if username in db.users then UpdateUser(AdminForm(username, password))
    else CreateUser(AdminForm(username, password))
  }

  method CreateAdmin(svc: Service, username: string, password: Password, env: Env) returns (err: Response)
    modifies svc, svc.remote
    ensures (svc.View(), err) ==
            Apply(svc.systemRoleMap, BootOp(old(svc.Db()), username, password), old(svc.View()), env)
  {
    var found := svc.GetUser(username);
    if found == Err(NotFound) {
      err := svc.CreateUser(AdminForm(username, password), env);
    } else if found.Ok? {
      err := svc.UpdateUser(AdminForm(username, password), env);
    } else {
      err := None;
    }
  }

  ghost function Booted(sys: map<string, Role>, s: State, username: string, password: Password, env: Env): (State,
        Response)
  {
    Apply(sys, BootOp(s.mem, username, password), s, env)
  }

  /** The block succeeds exactly when the write does, bcrypt accepts a non-empty password, and
      a missing administrator comes with a username and a password. */
  lemma WhenBootstrapSucceeds(sys: map<string, Role>, s: State, username: string, password: Password, env: Env)
    requires "administrator" in sys
    ensures Booted(sys, s, username, password, env).1.None? <==>
      && env.write.Written?
      && (password != Text("") ==> env.salt.Some?)
      && (username in s.mem.users || (username != "" && password != Text("")))
  {
  }

  /** After a success the administrator exists, is enabled, has exactly the administrator role,
      and logs in with the configured password and no other (an empty one keeps the old and its
      expiration date); the key holds the same, and nobody else and no role was touched. */
  lemma BootstrapEstablishesTheAdmin(sys: map<string, Role>, s: State, username: string, password: Password,
        env: Env, p: Password)
    requires Catalogued(s.mem) && Booted(sys, s, username, password, env).1.None?
    ensures var t := Booted(sys, s, username, password, env).0;
      && t.stored == Some(t.mem)
      && username in t.mem.users && t.mem.users[username].enabled && t.mem.users[username].roles == ["administrator"]
      && t.mem.users[username].username == username
      && t.mem.users[username].name == Some("ceph api default administrator")
      && t.mem.users[username].email == None && !t.mem.users[username].pwdUpdateRequired
      && t.mem.users[username].lastUpdate == env.now
      && (password != Text("") ==> t.mem.users[username].pwdExpirationDate == None)
      && (password != Text("") ==> (Authenticates(t.mem, username, p) <==> p == password))
      && (password == Text("") ==>
        && username in s.mem.users
        && t.mem.users[username].pwdExpirationDate == s.mem.users[username].pwdExpirationDate
        && (Authenticates(t.mem, username, p) <==> p == s.mem.users[username].password.of))
      && SameElsewhere(s.mem.users, t.mem.users, Some(username)) && t.mem.roles == s.mem.roles
  {
  }

  /** A database without the salt and timestamp of one user. */
  function Unstamped(db: DB, username: string): DB
    requires username in db.users && db.users[username].password.Digest?
  {
    PutUser(db, username, db.users[username].(lastUpdate := 0, password := Digest(db.users[username].password.of, 0)))
  }

  /** Running the block again gives the same state up to salt and timestamp. */
  lemma BootstrapIsIdempotent(sys: map<string, Role>, s: State, username: string, password: Password, env: Env,
        env': Env)
    requires Catalogued(s.mem) && Booted(sys, s, username, password, env).1.None?
    requires Booted(sys, Booted(sys, s, username, password, env).0, username, password, env').1.None?
    ensures var t := Booted(sys, s, username, password, env).0;
      var t' := Booted(sys, t, username, password, env').0;
      && username in t.mem.users && t.mem.users[username].password.Digest?
      && username in t'.mem.users && t'.mem.users[username].password.Digest?
      && Unstamped(t.mem, username) == Unstamped(t'.mem, username)
  {
    var t := Booted(sys, s, username, password, env).0;
    var t' := Booted(sys, t, username, password, env').0;
    BootstrapEstablishesTheAdmin(sys, s, username, password, env, password);
    var u, u' := t.mem.users[username], t'.mem.users[username];
    var blank := Digest(Text(""), 0);
    assert u.(lastUpdate := 0, password := blank) == u'.(lastUpdate := 0, password := blank);
    assert t'.mem.users == t.mem.users[username := u'];
    assert Unstamped(t.mem, username).users == Unstamped(t'.mem, username).users;
  }

  /** With the shipped roles and no stored role named like a built-in one, the administrator
      passes a non-empty check exactly on these seventeen scopes. */
  lemma WhatTheAdminMayDo(sys: map<string, Role>, db: DB, username: string, scope: string, perms: seq<Permission>)
    requires Indexes(Shipped(), sys) && NamesDisjoint(sys, db) && perms != []
    requires username in db.users && db.users[username].roles == ["administrator"]
    ensures Allows(PermissionsOf(sys, db, username), scope, perms) <==> scope in {
      "cephfs", "config-opt", "dashboard-settings", "grafana", "hosts", "iscsi", "log", "manager", "monitor",
      "nfs-ganesha", "osd", "pool", "prometheus", "rbd-image", "rbd-mirroring", "rgw", "user"}
  {
    ShippedByName(sys, 0);
    ShippedAdministrator(scope);
    EverythingIsListed();
    WhatABuiltInRoleAllows(sys, db, username, "administrator", ["create", "delete", "read", "update"],
                           scope in sys["administrator"].permissions, false, scope, perms);
  }
}
