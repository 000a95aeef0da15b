// The access database service, method by method: two maps in memory that mirror one remote
// key. Each method runs under the service's lock; AccessProtocol interleaves them.
module AccessService {
  import opened GoStrings
  import opened Sorting
  import opened Wrappers
  import opened AccessData
  import opened AccessOps
  import opened AccessInvariants
  import opened AccessRuns
  import opened SystemRoles

  /** The key mgr/dashboard/accessdb_v2, decoded. */
  class Remote {
    var stored: Option<DB>

    constructor (initial: Option<DB>)
      ensures stored == initial
    {
      stored := initial;
    }

    method Read(outcome: ReadOutcome) returns (reply: Result<Option<DB>>)
      ensures reply == if outcome.Replied? then Ok(stored) else Err(StoreFailed)
    {
      if outcome.ReadFailed? { return Err(StoreFailed); }
      return Ok(stored);
    }

    method Write(d: DB, outcome: WriteOutcome) returns (err: Response)
      modifies this
      ensures stored == AfterWrite(old(stored), outcome, d)
      ensures err == if outcome.Written? then None else Some(StoreFailed)
    {
      if !outcome.NotWritten? { stored := Some(d); }
      return if outcome.Written? then None else Some(StoreFailed);
    }
  }

  class Service {
    const remote: Remote
    const systemRoles: seq<Role>
    const systemRoleMap: map<string, Role>
    var users: map<string, User>
    var roles: map<string, Role>

    ghost function Db(): DB
      reads this
    {
      DB(users, roles)
    }

    /** The abstract state: both maps and the remote key. */
    ghost function View(): State
      reads this, remote
    {
      State(Db(), remote.stored)
    }

    constructor Unread(remote: Remote, systemRoles: seq<Role>, systemRoleMap: map<string, Role>)
      ensures this.remote == remote && this.systemRoles == systemRoles && this.systemRoleMap == systemRoleMap
      ensures Db() == EMPTY
    {
      this.remote, this.systemRoles, this.systemRoleMap := remote, systemRoles, systemRoleMap;
      users, roles := map[], map[];
    }

    /** A service exists only once the key was read; its memory then mirrors the key. */
    static method New(remote: Remote, outcome: ReadOutcome) returns (res: Result<Service>)
      ensures res.Ok? <==> outcome.Replied?
      ensures res.Ok? ==> fresh(res.value) && res.value.remote == remote && res.value.View() == Started(remote.stored)
      ensures res.Ok? ==> res.value.systemRoles == Shipped() && Indexes(Shipped(), res.value.systemRoleMap)
    {
      ShippedTableIsSound();
      var index := IndexByName(Shipped());
      var s := new Service.Unread(remote, Shipped(), index);
      var err := s.UpdateFromDB(outcome);
      if err.Some? { return Err(err.value); }
      return Ok(s);
    }

    method UpdateFromDB(outcome: ReadOutcome) returns (err: Response)
      modifies this
      ensures Db() == Reload(remote.stored, outcome)
      ensures err == if outcome.Replied? then None else Some(StoreFailed)
    {
      users := map[];
      roles := map[];
      var reply := remote.Read(outcome);
      match reply
      case Err(e) => return Some(e);
      case Ok(None) => return None;
      case Ok(Some(d)) =>
        if |d.users| != 0 { users := d.users; }
        if |d.roles| != 0 { roles := d.roles; }
        return None;
    }

    method StoreToDB(outcome: WriteOutcome) returns (err: Response)
      modifies remote
      ensures remote.stored == AfterWrite(old(remote.stored), outcome, Db())
      ensures err == if outcome.Written? then None else Some(StoreFailed)
    {
      err := remote.Write(DB(users, roles), outcome);
    }

    /** Store; on an error re-read, ignoring the re-read's own error. */
    method StoreOrRollback(env: Env) returns (err: Response)
      modifies this, remote
      ensures remote.stored == AfterWrite(old(remote.stored), env.write, old(Db()))
      ensures Db() == if env.write.Written? then old(Db()) else Reload(remote.stored, env.reread)
      ensures err == if env.write.Written? then None else Some(StoreFailed)
    {
      err := StoreToDB(env.write);
      if err.Some? { var rollbackErr := UpdateFromDB(env.reread); }
    }

    method ValidateUserRoles(names: seq<string>) returns (err: Response)
      ensures err == if KnownRoles(systemRoleMap, Db(), names) then None else Some(InvalidArg)
      ensures err == None <==> forall n :: n in names ==> n in systemRoleMap || n in roles
    {
      for i := 0 to |names|
        invariant forall k :: 0 <= k < i ==> KnownRole(systemRoleMap, Db(), names[k])
      {
        if names[i] !in systemRoleMap && names[i] !in roles {
          assert !KnownRole(systemRoleMap, Db(), names[i]);
          return Some(InvalidArg);
        }
      }
      return None;
    }

    method CreateUser(user: User, env: Env) returns (err: Response)
      modifies this, remote
      ensures (View(), err) == Apply(systemRoleMap, AccessOps.CreateUser(user), old(View()), env)
    {
      if user.username == "" || user.password == Text("") { return Some(InvalidArg); }
      if user.username in users { return Some(AlreadyExists); }
      err := ValidateUserRoles(user.roles);
      if err.Some? { return; }
      if env.salt.None? { return Some(HashFailed); }
      var hashed := user.(lastUpdate := env.now, password := Digest(user.password, env.salt.value));
      users := users[user.username := hashed];
      err := StoreOrRollback(env);
    }

    method UpdateUser(user: User, env: Env) returns (err: Response)
      modifies this, remote
      ensures (View(), err) == Apply(systemRoleMap, AccessOps.UpdateUser(user), old(View()), env)
    {
      if user.username !in users { return Some(NotFound); }
      var prev := users[user.username];
      err := ValidateUserRoles(user.roles);
      if err.Some? { return; }
      var next := user;
      if user.password != Text("") {
        if env.salt.None? { return Some(HashFailed); }
        next := next.(password := Digest(user.password, env.salt.value));
      } else {
        next := next.(password := prev.password, pwdExpirationDate := prev.pwdExpirationDate);
      }
      next := next.(lastUpdate := env.now);
      users := users[user.username := next];
      err := StoreOrRollback(env);
    }

    method DeleteUser(username: string, env: Env) returns (err: Response)
      modifies this, remote
      ensures (View(), err) == Apply(systemRoleMap, AccessOps.DeleteUser(username), old(View()), env)
    {
      users := users - {username};
      err := StoreOrRollback(env);
    }

    method ChangePassword(username: string, oldPass: Password, newPass: Password, env: Env) returns (err: Response)
      modifies this, remote
      ensures (View(), err) ==
              Apply(systemRoleMap, AccessOps.ChangePassword(username, oldPass, newPass), old(View()), env)
    {
      if username !in users { return Some(NotFound); }
      var user := users[username];
      if !Verifies(user.password, oldPass) { return Some(WrongPassword); }
      if env.salt.None? { return Some(HashFailed); }
      users := users[username := user.(password := Digest(newPass, env.salt.value))];
      err := StoreOrRollback(env);
    }

    /** Role.Validate, in whatever order the permission map yields its scopes. */
    static method ValidateRole(role: Role) returns (err: Response)
      ensures err == if ValidRole(role) then None else Some(InvalidArg)
    {
      if role.name == "" { return Some(InvalidArg); }
      var todo := role.permissions.Keys;
      while todo != {}
        invariant todo <= role.permissions.Keys
        invariant forall s :: s in role.permissions && s !in todo ==>
          s in SCOPE_SET && forall p :: p in role.permissions[s] ==> p in PERMISSION_SET
        decreases todo
      {
        var scope :| scope in todo;
        if scope !in SCOPE_SET { return Some(InvalidArg); }
        var perms := role.permissions[scope];
        for i := 0 to |perms|
          invariant forall k :: 0 <= k < i ==> perms[k] in PERMISSION_SET
        {
          if perms[i] !in PERMISSION_SET {
            assert perms[i] in role.permissions[scope];
            return Some(InvalidArg);
          }
        }
        todo := todo - {scope};
      }
      return None;
    }

    method CreateRole(role: Role, env: Env) returns (err: Response)
      modifies this, remote
      ensures (View(), err) == Apply(systemRoleMap, AccessOps.CreateRole(role), old(View()), env)
    {
      if role.name in systemRoleMap { return Some(AlreadyExists); }
      if role.name in roles { return Some(AlreadyExists); }
      err := ValidateRole(role);
      if err.Some? { return; }
      if role.isSystem { return Some(InvalidArg); }
      roles := roles[role.name := role];
      err := StoreOrRollback(env);
    }

    method UpdateRole(role: Role, env: Env) returns (err: Response)
      modifies this, remote
      ensures (View(), err) == Apply(systemRoleMap, AccessOps.UpdateRole(role), old(View()), env)
    {
      if role.name in systemRoleMap || role.isSystem { return Some(InvalidArg); }
      if role.name !in roles { return Some(NotFound); }
      err := ValidateRole(role);
      if err.Some? { return; }
      roles := roles[role.name := role];
      err := StoreOrRollback(env);
    }

    method DeleteRole(name: string, env: Env) returns (err: Response)
      modifies this, remote
      ensures (View(), err) == Apply(systemRoleMap, AccessOps.DeleteRole(name), old(View()), env)
    {
      if name in systemRoleMap { return Some(InvalidArg); }
      if name !in roles { return Some(NotFound); }
      var todo := users.Keys;
      while todo != {}
        invariant todo <= users.Keys && View() == old(View())
        invariant forall u :: u in users && u !in todo ==> name !in users[u].roles
        decreases todo
      {
        var u :| u in todo;
        if name in users[u].roles {
          assert RoleInUse(Db(), name);
          return Some(InvalidArg);
        }
        todo := todo - {u};
      }
      assert !RoleInUse(Db(), name);
      roles := roles - {name};
      err := StoreOrRollback(env);
    }

    method CloneRole(srcName: string, dstName: string, env: Env) returns (err: Response)
      modifies this, remote
      ensures (View(), err) == Apply(systemRoleMap, AccessOps.CloneRole(srcName, dstName), old(View()), env)
    {
      var src;
      if srcName in roles {
        src := roles[srcName];
      } else if srcName in systemRoleMap {
        src := systemRoleMap[srcName];
        src := src.(isSystem := false);
      } else {
        return Some(NotFound);
      }
      src := src.(name := dstName);
      roles := roles[dstName := src];
      err := StoreOrRollback(env);
    }

    // Readers

    method GetUser(username: string) returns (res: Result<User>)
      ensures res == if username in users then Ok(users[username]) else Err(NotFound)
    {
      if username !in users { return Err(NotFound); }
      return Ok(users[username]);
    }

    method GetRole(name: string) returns (res: Result<Role>)
      ensures SystemFirst(systemRoleMap, Db(), name) == match res case Ok(role) => Some(role) case Err(_) => None
      ensures name in systemRoleMap ==> res == Ok(systemRoleMap[name])
      ensures name !in systemRoleMap ==> res == if name in roles then Ok(roles[name]) else Err(NotFound)
    {
      if name in systemRoleMap { return Ok(systemRoleMap[name]); }
      if name in roles { return Ok(roles[name]); }
      return Err(NotFound);
    }

    /** Every user once, ordered by username, whatever order the map yields; strictly, since
        users are keyed by their names. */
    method ListUsers() returns (res: seq<User>)
      ensures exists vals :: IsListing(users, vals) && multiset(res) == multiset(vals)
      ensures forall i, j :: 0 <= i < j < |res| ==> !Less(res[j].username, res[i].username)
      ensures Catalogued(Db()) ==> forall i, j :: 0 <= i < j < |res| ==> Less(res[i].username, res[j].username)
      ensures Catalogued(Db()) ==> forall u :: u in res <==> u.username in users && users[u.username] == u
    {
      res := [];
      ghost var keys := [];
      var todo := users.Keys;
      while todo != {}
        invariant todo <= users.Keys
        invariant IsListingInOrder(users, users.Keys - todo, keys, res)
        decreases todo
      {
        var k :| k in todo;
        ExtendListing(users, users.Keys - todo, keys, res, k);
        assert users.Keys - (todo - {k}) == (users.Keys - todo) + {k};
        keys, res := keys + [k], res + [users[k]];
        todo := todo - {k};
      }
      assert users.Keys - todo == users.Keys;
      ghost var vals := res;
      assert IsListing(users, vals);
      ByUsernameIsWeakOrder();
      res := SortSlice(res, (a: User, b: User) => Less(a.username, b.username));
      if Catalogued(Db()) {
        UserListing(Db(), vals);
        SortedDistinctUsers(vals, res);
      }
    }

    /** The built-in roles in table order, then every stored role once, in map order. */
    method ListRoles() returns (res: seq<Role>)
      ensures exists vals :: IsListing(roles, vals) && res == systemRoles + vals
    {
      res := systemRoles;
      ghost var keys, vals := [], [];
      var todo := roles.Keys;
      while todo != {}
        invariant todo <= roles.Keys && res == systemRoles + vals
        invariant IsListingInOrder(roles, roles.Keys - todo, keys, vals)
        decreases todo
      {
        var k :| k in todo;
        ExtendListing(roles, roles.Keys - todo, keys, vals, k);
        assert roles.Keys - (todo - {k}) == (roles.Keys - todo) + {k};
        keys, vals := keys + [k], vals + [roles[k]];
        res := res + [roles[k]];
        todo := todo - {k};
      }
      assert roles.Keys - todo == roles.Keys;
      assert IsListing(roles, vals);
    }

    /** The password check behind the resource owner password grant: every refusal is "not found". */
    method Authenticate(name: string, secret: Password) returns (err: Response)
      ensures err == if Authenticates(Db(), name, secret) then None else Some(NotFound)
      ensures err == None <==> name in users && users[name].enabled && Verifies(users[name].password, secret)
    {
      var usr := GetUser(name);
      if usr.Err? { return Some(NotFound); }
      if !usr.value.enabled { return Some(NotFound); }
      if !Verifies(usr.value.password, secret) { return Some(NotFound); }
      return None;
    }
  }

  // Listings

  lemma ByUsernameIsWeakOrder()
    ensures StrictWeakOrder((a: User, b: User) => Less(a.username, b.username))
  {
    LessIsWeakOrder();
  }

  lemma SortedDistinctUsers(a: seq<User>, b: seq<User>)
    requires multiset(a) == multiset(b)
    requires forall i, j :: 0 <= i < j < |a| ==> a[i].username != a[j].username
    requires Ordered((x: User, y: User) => Less(x.username, y.username), b)
    ensures forall x :: x in a <==> x in b
    ensures forall i, j :: 0 <= i < j < |b| ==> Less(b[i].username, b[j].username)
  {
    SameMembers(a, b);
    PermutationsKeepNoRepeats(a, b);
    forall i, j | 0 <= i < j < |b| ensures Less(b[i].username, b[j].username) {
      assert b[i] in a && b[j] in a && b[i] != b[j];
      LessIsTotal(b[i].username, b[j].username);
    }
  }

  /** vals lists the entries of m under the keys ks, each key once. */
  ghost predicate IsListingInOrder<V>(m: map<string, V>, done: set<string>, ks: seq<string>, vals: seq<V>)
  {
    && |ks| == |vals| && done <= m.Keys
    && (forall i, j :: 0 <= i < j < |ks| ==> ks[i] != ks[j])
    && (forall i :: 0 <= i < |ks| ==> ks[i] in done && vals[i] == m[ks[i]])
    && (forall k :: k in done ==> k in ks)
  }

  ghost predicate IsListing<V>(m: map<string, V>, vals: seq<V>)
  {
    exists ks :: IsListingInOrder(m, m.Keys, ks, vals)
  }

  lemma ExtendListing<V>(m: map<string, V>, done: set<string>, ks: seq<string>, vals: seq<V>, k: string)
    requires IsListingInOrder(m, done, ks, vals) && k in m && k !in done
    ensures IsListingInOrder(m, done + {k}, ks + [k], vals + [m[k]])
  {
  }

  lemma UserListing(db: DB, vals: seq<User>)
    requires Catalogued(db) && IsListing(db.users, vals)
    ensures forall i, j :: 0 <= i < j < |vals| ==> vals[i].username != vals[j].username
    ensures forall u :: u in vals <==> u.username in db.users && db.users[u.username] == u
  {
  }

  lemma ListingHasDistinctNames(db: DB, vals: seq<Role>)
    requires Catalogued(db) && IsListing(db.roles, vals)
    ensures DistinctNames(vals)
    ensures forall i :: 0 <= i < |vals| ==> vals[i].name in db.roles
    ensures forall n :: n in db.roles ==> exists i :: 0 <= i < |vals| && vals[i].name == n
  {
  }

  lemma DistinctHalves(a: seq<Role>, b: seq<Role>)
    requires DistinctNames(a) && DistinctNames(b)
    requires forall i, j :: 0 <= i < |a| && 0 <= j < |b| ==> a[i].name != b[j].name
    ensures DistinctNames(a + b)
  {
  }

  lemma SharedAcrossHalves(a: seq<Role>, b: seq<Role>, i: nat, j: nat)
    requires i < |a| && j < |b| && a[i].name == b[j].name
    ensures !DistinctNames(a + b)
  {
    assert (a + b)[i].name == (a + b)[|a| + j].name;
  }

  /** ListRoles repeats a name exactly when a stored role shares the name of a built-in one. */
  lemma WhenListRolesRepeatsAName(sys: seq<Role>, sysMap: map<string, Role>, db: DB, vals: seq<Role>)
    requires DistinctNames(sys) && Indexes(sys, sysMap) && Catalogued(db) && IsListing(db.roles, vals)
    ensures DistinctNames(sys + vals) <==> NamesDisjoint(sysMap, db)
  {
    ListingHasDistinctNames(db, vals);
    if NamesDisjoint(sysMap, db) {
      forall i, j | 0 <= i < |sys| && 0 <= j < |vals| ensures sys[i].name != vals[j].name {
        assert sys[i].name in sysMap && vals[j].name in db.roles;
      }
      DistinctHalves(sys, vals);
    } else {
      var n :| n in db.roles && n in sysMap;
      var i :| 0 <= i < |sys| && sys[i].name == n;
      var j :| 0 <= j < |vals| && vals[j].name == n;
      SharedAcrossHalves(sys, vals, i, j);
    }
  }
}
