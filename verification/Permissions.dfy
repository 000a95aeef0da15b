// What GetPermissions must return and what the permission guard decides from it.
module Permissions {
  import opened GoStrings
  import opened Wrappers
  import opened AccessData
  import opened AccessOps
  import opened AccessInvariants

  /** scope -> permissions, as a role carries it or GetPermissions returns it. */
  type Scoped = map<string, seq<string>>

  /** role name -> what the role carries. */
  type Table = map<string, Scoped>

  ghost function TableOf(roles: map<string, Role>): Table
  {
    map n | n in roles :: roles[n].permissions
  }

  ghost function RoleNames(users: map<string, User>, username: string): seq<string>
  {
    if username in users then users[username].roles else []
  }

  ghost predicate Mentions(t: Table, role: string, scope: string)
  {
    role in t && scope in t[role]
  }

  ghost predicate Grants(t: Table, role: string, scope: string, p: string)
  {
    Mentions(t, role, scope) && p in t[role][scope]
  }

  /** Some role of the list mentions the scope, among the stored or the built-in roles. */
  ghost predicate SomeMentions(custom: Table, builtIn: Table, names: seq<string>, scope: string)
  {
    exists r :: r in names && (Mentions(custom, r, scope) || Mentions(builtIn, r, scope))
  }

  ghost predicate SomeGrants(custom: Table, builtIn: Table, names: seq<string>, scope: string, p: string)
  {
    exists r :: r in names && (Grants(custom, r, scope, p) || Grants(builtIn, r, scope, p))
  }

  /** The union of what the named roles carry: exactly the mentioned scopes, each with exactly
      the permissions granted on it, strictly increasing. */
  ghost predicate IsUnion(custom: Table, builtIn: Table, names: seq<string>, m: Scoped)
  {
    && (forall scope :: scope in m <==> SomeMentions(custom, builtIn, names, scope))
    && (forall scope :: scope in m ==> StrictlyIncreasing(m[scope]))
    && (forall scope, p :: scope in m ==> (p in m[scope] <==> SomeGrants(custom, builtIn, names, scope, p)))
  }

  /** There is one such map, so neither role order, nor duplicates, nor map iteration order shows. */
  lemma UnionIsUnique(custom: Table, builtIn: Table, names: seq<string>, names': seq<string>, m: Scoped, m': Scoped)
    requires IsUnion(custom, builtIn, names, m) && IsUnion(custom, builtIn, names', m')
    requires forall r :: r in names <==> r in names'
    ensures m == m'
  {
    forall scope ensures scope in m <==> scope in m' {
      assert scope in m <==> SomeMentions(custom, builtIn, names, scope);
      assert scope in m' <==> SomeMentions(custom, builtIn, names', scope);
    }
    forall scope | scope in m ensures m[scope] == m'[scope] {
      forall p ensures p in m[scope] <==> p in m'[scope] {
        assert p in m[scope] <==> SomeGrants(custom, builtIn, names, scope, p);
        assert p in m'[scope] <==> SomeGrants(custom, builtIn, names', scope, p);
      }
      IncreasingListsWithEqualElementsAreEqual(m[scope], m'[scope]);
    }
  }

  // Collecting without regard to order, as the loops of GetPermissions do

  /** Append every list of more to the list acc holds for its scope. */
  ghost function AddAll(acc: Scoped, more: Scoped): Scoped
  {
    map s | s in acc.Keys + more.Keys :: (if s in acc then acc[s] else []) + (if s in more then more[s] else [])
  }

  ghost function AddRole(acc: Scoped, t: Table, role: string): Scoped
  {
    if role in t then AddAll(acc, t[role]) else acc
  }

  ghost function Collect(custom: Table, builtIn: Table, names: seq<string>): Scoped
  {
    if names == [] then map[]
    else
      var front, last := names[..|names| - 1], names[|names| - 1];
      AddRole(AddRole(Collect(custom, builtIn, front), custom, last), builtIn, last)
  }

  lemma AddRoleAdds(acc: Scoped, t: Table, role: string)
    ensures forall scope :: scope in AddRole(acc, t, role) <==> scope in acc || Mentions(t, role, scope)
    ensures forall scope, p :: scope in AddRole(acc, t, role) ==>
      (p in AddRole(acc, t, role)[scope] <==> (scope in acc && p in acc[scope]) || Grants(t, role, scope, p))
  {
  }

  lemma OneMoreRole(custom: Table, builtIn: Table, front: seq<string>, last: string)
    ensures forall scope :: SomeMentions(custom, builtIn, front + [last], scope) <==>
      SomeMentions(custom, builtIn, front, scope) || Mentions(custom, last, scope) || Mentions(builtIn, last, scope)
    ensures forall scope, p :: SomeGrants(custom, builtIn, front + [last], scope, p) <==>
      SomeGrants(custom, builtIn, front, scope, p) || Grants(custom, last, scope, p) || Grants(builtIn, last, scope, p)
  {
  }

  /** m gathers the union, in some order and with repetitions. */
  ghost predicate Gathers(custom: Table, builtIn: Table, names: seq<string>, m: Scoped)
  {
    && (forall scope :: scope in m <==> SomeMentions(custom, builtIn, names, scope))
    && (forall scope, p :: scope in m ==> (p in m[scope] <==> SomeGrants(custom, builtIn, names, scope, p)))
  }

  lemma {:induction false} CollectGathersTheUnion(custom: Table, builtIn: Table, names: seq<string>)
    ensures Gathers(custom, builtIn, names, Collect(custom, builtIn, names))
  {
    if names != [] {
      var front, last := names[..|names| - 1], names[|names| - 1];
      CollectGathersTheUnion(custom, builtIn, front);
      AddRoleAdds(Collect(custom, builtIn, front), custom, last);
      AddRoleAdds(AddRole(Collect(custom, builtIn, front), custom, last), builtIn, last);
      OneMoreRole(custom, builtIn, front, last);
      assert names == front + [last];
      forall scope, p | SomeGrants(custom, builtIn, front, scope, p)
        ensures SomeMentions(custom, builtIn, front, scope)
      {
        var r :| r in front && (Grants(custom, r, scope, p) || Grants(builtIn, r, scope, p));
      }
    }
  }

  /** Keep one of each run of equal neighbours. */
  function Dedup(s: seq<string>): seq<string>
  {
    if |s| < 2 then s
    else if s[0] == s[1] then Dedup(s[1..])
    else [s[0]] + Dedup(s[1..])
  }

  /** On an ordered list that leaves a strictly increasing list of the same elements. */
  lemma {:induction false} DedupOfOrderedIsIncreasing(s: seq<string>)
    requires forall i, j :: 0 <= i < j < |s| ==> !Less(s[j], s[i])
    ensures StrictlyIncreasing(Dedup(s))
    ensures forall x :: x in Dedup(s) <==> x in s
    ensures s != [] ==> Dedup(s) != [] && Dedup(s)[0] == s[0]
  {
    if |s| >= 2 {
      DedupOfOrderedIsIncreasing(s[1..]);
      assert s == [s[0]] + s[1..];
      var d := Dedup(s[1..]);
      if s[0] != s[1] {
        LessIsTotal(s[0], s[1]);
        forall j | 0 <= j < |d| ensures Less(s[0], d[j]) {
          if j > 0 { LessIsTransitive(s[0], d[0], d[j]); }
        }
      }
    }
  }

  // A canonical value for the union

  function Insert(x: string, s: seq<string>): seq<string>
  {
    if s == [] || Less(x, s[0]) then [x] + s
    else if x == s[0] then s
    else [s[0]] + Insert(x, s[1..])
  }

  lemma {:induction false} InsertIsIncreasing(x: string, s: seq<string>)
    requires StrictlyIncreasing(s)
    ensures StrictlyIncreasing(Insert(x, s))
    ensures forall y :: y in Insert(x, s) <==> y in s || y == x
  {
    if s == [] {
    } else if Less(x, s[0]) {
      forall j | 0 <= j < |s| ensures Less(x, s[j]) {
        if j > 0 { LessIsTransitive(x, s[0], s[j]); }
      }
    } else if x != s[0] {
      InsertIsIncreasing(x, s[1..]);
      LessIsTotal(x, s[0]);
      assert s == [s[0]] + s[1..];
      var r := Insert(x, s[1..]);
      forall j | 0 <= j < |r| ensures Less(s[0], r[j]) {
        assert r[j] in r;
        if r[j] != x { var k :| 0 <= k < |s[1..]| && s[1..][k] == r[j]; assert s[k + 1] == r[j]; }
      }
    }
  }

  /** The increasing list of the elements of a list. */
  function Increasing(s: seq<string>): seq<string>
  {
    if s == [] then [] else Insert(s[0], Increasing(s[1..]))
  }

  lemma {:induction false} IncreasingHasTheElements(s: seq<string>)
    ensures StrictlyIncreasing(Increasing(s))
    ensures forall x :: x in Increasing(s) <==> x in s
  {
    if s != [] {
      IncreasingHasTheElements(s[1..]);
      InsertIsIncreasing(s[0], Increasing(s[1..]));
      assert s == [s[0]] + s[1..];
    }
  }

  /** What GetPermissions returns for a user. */
  ghost function PermissionsOf(sys: map<string, Role>, db: DB, username: string): Scoped
  {
    var c := Collect(TableOf(db.roles), TableOf(sys), RoleNames(db.users, username));
    map s | s in c :: Increasing(c[s])
  }

  lemma PermissionsOfIsTheUnion(sys: map<string, Role>, db: DB, username: string)
    ensures IsUnion(TableOf(db.roles), TableOf(sys), RoleNames(db.users, username), PermissionsOf(sys, db, username))
  {
    var c := Collect(TableOf(db.roles), TableOf(sys), RoleNames(db.users, username));
    CollectGathersTheUnion(TableOf(db.roles), TableOf(sys), RoleNames(db.users, username));
    forall s | s in c ensures StrictlyIncreasing(Increasing(c[s])) && forall x :: x in Increasing(c[s]) <==> x in c[s] {
      IncreasingHasTheElements(c[s]);
    }
  }

  /** The role is in the table and lists something on the scope. */
  ghost predicate Covers(roles: map<string, Role>, r: string, scope: string)
  {
    r in roles && scope in roles[r].permissions
  }

  /** The role is in the table and lists p on the scope. */
  ghost predicate Lists(roles: map<string, Role>, r: string, scope: string, p: string)
  {
    r in roles && scope in roles[r].permissions && p in roles[r].permissions[scope]
  }

  /** m has exactly the scopes that some of the roles covers, each with the increasing list of
      the permissions that some of them lists on it, stored and built-in roles alike. */
  ghost predicate GrantedByRoles(sys: map<string, Role>, db: DB, names: seq<string>, m: Scoped)
  {
    && (forall scope :: scope in m <==> exists r :: r in names && (Covers(db.roles, r, scope) || Covers(sys, r, scope)))
    && (forall scope :: scope in m ==> StrictlyIncreasing(m[scope]))
    && (forall scope, p :: scope in m ==>
      (p in m[scope] <==> exists r :: r in names && (Lists(db.roles, r, scope, p) || Lists(sys, r, scope, p))))
  }

  lemma SomeCovers(sys: map<string, Role>, db: DB, names: seq<string>, scope: string)
    ensures SomeMentions(TableOf(db.roles), TableOf(sys), names, scope) <==>
            exists r :: r in names && (Covers(db.roles, r, scope) || Covers(sys, r, scope))
  {
    forall r ensures Mentions(TableOf(db.roles), r, scope) <==> Covers(db.roles, r, scope) {}
    forall r ensures Mentions(TableOf(sys), r, scope) <==> Covers(sys, r, scope) {}
  }

  lemma SomeLists(sys: map<string, Role>, db: DB, names: seq<string>, scope: string, p: string)
    ensures SomeGrants(TableOf(db.roles), TableOf(sys), names, scope, p) <==>
            exists r :: r in names && (Lists(db.roles, r, scope, p) || Lists(sys, r, scope, p))
  {
    forall r ensures Grants(TableOf(db.roles), r, scope, p) <==> Lists(db.roles, r, scope, p) {}
    forall r ensures Grants(TableOf(sys), r, scope, p) <==> Lists(sys, r, scope, p) {}
  }

  lemma PermissionsAreGrantedByRoles(sys: map<string, Role>, db: DB, u: string)
    ensures GrantedByRoles(sys, db, if u in db.users then db.users[u].roles else [], PermissionsOf(sys, db, u))
  {
    var m, names := PermissionsOf(sys, db, u), RoleNames(db.users, u);
    PermissionsOfIsTheUnion(sys, db, u);
    forall scope
      ensures scope in m <==> exists r :: r in names && (Covers(db.roles, r, scope) || Covers(sys, r, scope))
    {
      SomeCovers(sys, db, names, scope);
    }
    forall scope, p | scope in m
      ensures p in m[scope] <==> exists r :: r in names && (Lists(db.roles, r, scope, p) || Lists(sys, r, scope, p))
    {
      SomeLists(sys, db, names, scope, p);
    }
  }

  /** Whatever is the union of a user's roles, however it was computed, is that value. */
  lemma UnionsArePermissionsOf(sys: map<string, Role>, db: DB, username: string, m: Scoped)
    requires IsUnion(TableOf(db.roles), TableOf(sys), RoleNames(db.users, username), m)
    ensures m == PermissionsOf(sys, db, username)
  {
    var names := RoleNames(db.users, username);
    PermissionsOfIsTheUnion(sys, db, username);
    UnionIsUnique(TableOf(db.roles), TableOf(sys), names, names, m, PermissionsOf(sys, db, username));
  }

  // The guard

  predicate Allows(permissions: Scoped, scope: string, perms: seq<Permission>)
  {
    && permissions != map[]
    && forall p :: p in perms ==> scope in permissions && p.ToString() in permissions[scope]
  }

  lemma AllowsOne(m: Scoped, scope: string, p: Permission)
    ensures Allows(m, scope, [p]) <==> scope in m && p.ToString() in m[scope]
  {
    assert p in [p];
  }

  /** What the scope has to list for each permission. */
  lemma WhatEachPermissionNeeds(m: Scoped, scope: string)
    ensures Allows(m, scope, [PermRead]) <==> scope in m && "read" in m[scope]
    ensures Allows(m, scope, [PermCreate]) <==> scope in m && "create" in m[scope]
    ensures Allows(m, scope, [PermUpdate]) <==> scope in m && "update" in m[scope]
    ensures Allows(m, scope, [PermDelete]) <==> scope in m && "delete" in m[scope]
  {
    AllowsOne(m, scope, PermRead);
    AllowsOne(m, scope, PermCreate);
    AllowsOne(m, scope, PermUpdate);
    AllowsOne(m, scope, PermDelete);
  }

  /** HasPermissions on the map a request context carries. */
  method HasPermissions(permissions: Scoped, scope: string, perms: seq<Permission>) returns (err: Response)
    ensures err == None <==> Allows(permissions, scope, perms)
    ensures err != None ==> err == Some(AccessDenied)
    ensures perms == [PermRead] ==> (err == None <==> scope in permissions && "read" in permissions[scope])
    ensures perms == [PermCreate] ==> (err == None <==> scope in permissions && "create" in permissions[scope])
    ensures perms == [PermUpdate] ==> (err == None <==> scope in permissions && "update" in permissions[scope])
    ensures perms == [PermDelete] ==> (err == None <==> scope in permissions && "delete" in permissions[scope])
  {
    WhatEachPermissionNeeds(permissions, scope);
    if |permissions| == 0 { return Some(AccessDenied); }
    for i := 0 to |perms|
      invariant forall k :: 0 <= k < i ==> scope in permissions && perms[k].ToString() in permissions[scope]
    {
      var held := if scope in permissions then permissions[scope] else [];
      if perms[i].ToString() !in held { return Some(AccessDenied); }
    }
    return None;
  }

  /** One of the user's roles, stored or built-in, grants p on the scope. */
  ghost predicate RoleGrants(sys: map<string, Role>, db: DB, username: string, scope: string, p: Permission)
  {
    SomeGrants(TableOf(db.roles), TableOf(sys), RoleNames(db.users, username), scope, p.ToString())
  }

  ghost predicate RoleMentionsAScope(sys: map<string, Role>, db: DB, username: string)
  {
    exists scope :: SomeMentions(TableOf(db.roles), TableOf(sys), RoleNames(db.users, username), scope)
  }

  /** The guard lets a request pass exactly when some role of the user mentions some scope and
      each requested permission is granted on the scope by one of its roles. */
  lemma GuardDecidesByRoles(sys: map<string, Role>, db: DB, username: string, scope: string, perms: seq<Permission>)
    ensures Allows(PermissionsOf(sys, db, username), scope, perms) <==>
            RoleMentionsAScope(sys, db, username) && forall p :: p in perms ==> RoleGrants(sys, db, username, scope, p)
  {
    var m := PermissionsOf(sys, db, username);
    PermissionsOfIsTheUnion(sys, db, username);
    assert m != map[] <==> exists s :: s in m;
    forall p: Permission ensures RoleGrants(sys, db, username, scope, p) <==> scope in m && p.ToString() in m[scope] {
      if RoleGrants(sys, db, username, scope, p) {
        assert SomeMentions(TableOf(db.roles), TableOf(sys), RoleNames(db.users, username), scope);
      }
    }
  }

  /** Giving a user more roles never turns an allow into a deny. */
  lemma MoreRolesAllowMore(sys: map<string, Role>, db: DB, db': DB, username: string, scope: string,
        perms: seq<Permission>)
    requires db'.roles == db.roles
    requires forall r :: r in RoleNames(db.users, username) ==> r in RoleNames(db'.users, username)
    requires Allows(PermissionsOf(sys, db, username), scope, perms)
    ensures Allows(PermissionsOf(sys, db', username), scope, perms)
  {
    GuardDecidesByRoles(sys, db, username, scope, perms);
    GuardDecidesByRoles(sys, db', username, scope, perms);
    var s :| SomeMentions(TableOf(db.roles), TableOf(sys), RoleNames(db.users, username), s);
    assert SomeMentions(TableOf(db'.roles), TableOf(sys), RoleNames(db'.users, username), s);
    forall p | p in perms ensures RoleGrants(sys, db', username, scope, p) {
      assert RoleGrants(sys, db, username, scope, p);
    }
  }

  /** The last steps of AuthFunc: the user is read in one database and its permissions in a
      later one, under two separate read locks; None is "unauthenticated". */
  ghost function Attached(sys: map<string, Role>, first: DB, second: DB, username: string): Option<Scoped>
  {
    if username in first.users then Some(PermissionsOf(sys, second, username)) else None
  }

  /** Whatever happened in between, a request passes only on what the user holds at the second
      read; a user deleted in between passes no check at all, not even an empty one. */
  lemma AttachedPermissionsAreOfTheSecondRead(sys: map<string, Role>, first: DB, second: DB, username: string,
        scope: string, perms: seq<Permission>)
    requires Attached(sys, first, second, username).Some?
    ensures Allows(Attached(sys, first, second, username).value, scope, perms) <==>
            && RoleMentionsAScope(sys, second, username)
            && forall p :: p in perms ==> RoleGrants(sys, second, username, scope, p)
    ensures username !in second.users ==> !Allows(Attached(sys, first, second, username).value, scope, perms)
  {
    GuardDecidesByRoles(sys, second, username, scope, perms);
  }

  /** A non-empty request can be granted to somebody in a sound database exactly on a known scope. */
  lemma WhichScopesCanBeGranted(sys: map<string, Role>, scope: string, perms: seq<Permission>)
    requires SystemTable(sys) && perms != []
    ensures (exists db, u :: Sound(sys, db) && Allows(PermissionsOf(sys, db, u), scope, perms)) <==> scope in SCOPE_SET
  {
    if db, u :| Sound(sys, db) && Allows(PermissionsOf(sys, db, u), scope, perms) {
      GuardDecidesByRoles(sys, db, u, scope, perms);
      assert perms[0] in perms;
      GrantedScopesAreKnown(sys, db, u, scope, perms[0]);
    }
    if scope in SCOPE_SET {
      var n := "r";
      var db := OneUser(n, scope);
      OneUserIsSound(sys, n, scope);
      forall p: Permission ensures RoleGrants(sys, db, "u", scope, p) {
        EveryPermissionIsListed(p);
        assert Grants(TableOf(db.roles), n, scope, p.ToString());
      }
      assert Mentions(TableOf(db.roles), n, scope);
      assert SomeMentions(TableOf(db.roles), TableOf(sys), RoleNames(db.users, "u"), scope);
      GuardDecidesByRoles(sys, db, "u", scope, perms);
    }
  }

  lemma GrantedScopesAreKnown(sys: map<string, Role>, db: DB, u: string, scope: string, p: Permission)
    requires SystemTable(sys) && Sound(sys, db) && RoleGrants(sys, db, u, scope, p)
    ensures scope in SCOPE_SET
  {
  }

  /** So no role, the administrator's included, ever grants anything on the misspelt scope. */
  lemma DashboardSettingsScopeIsNeverGranted(sys: map<string, Role>, db: DB, u: string, perms: seq<Permission>)
    requires SystemTable(sys) && Sound(sys, db) && perms != []
    ensures !Allows(PermissionsOf(sys, db, u), SCOPE_DASHBOARD_SETTINGS, perms)
  {
    DashboardSettingsIsUnknown();
    WhichScopesCanBeGranted(sys, SCOPE_DASHBOARD_SETTINGS, perms);
  }

  lemma DashboardSettingsIsUnknown()
    ensures SCOPE_DASHBOARD_SETTINGS !in SCOPE_SET
  {
  }

  const ALL_PERMISSIONS := ["read", "create", "update", "delete"]

  lemma EveryPermissionIsListed(p: Permission)
    ensures p.ToString() in ALL_PERMISSIONS
  {
  }

  ghost function OneUser(role: string, scope: string): DB
  {
    DB(map["u" := User("u", [role], Digest(Text("p"), 0), None, None, 0, true, None, false)],
       map[role := Role(role, None, false, map[scope := ALL_PERMISSIONS])])
  }

  lemma OneUserIsSound(sys: map<string, Role>, role: string, scope: string)
    requires scope in SCOPE_SET
    ensures Sound(sys, OneUser(role, scope))
  {
  }
}
