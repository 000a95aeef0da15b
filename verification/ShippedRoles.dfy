// What users with one of the shipped roles may do.
module ShippedRoles {
  import opened Wrappers
  import opened AccessData
  import opened AccessOps
  import opened AccessInvariants
  import opened Permissions
  import opened SystemRoles

  /** A user with one built-in role passes a non-empty check exactly on what that role lists. */
  lemma OneBuiltInRole(sys: map<string, Role>, db: DB, username: string, role: string, scope: string,
        perms: seq<Permission>)
    requires role in sys && role !in db.roles && perms != []
    requires username in db.users && db.users[username].roles == [role]
    ensures Allows(PermissionsOf(sys, db, username), scope, perms) <==>
            forall p :: p in perms ==> scope in sys[role].permissions && p.ToString() in sys[role].permissions[scope]
  {
    GuardDecidesByRoles(sys, db, username, scope, perms);
    var names := RoleNames(db.users, username);
    assert names[0] == role && names[0] in names;
    var listed := sys[role].permissions;
    forall p: Permission
      ensures RoleGrants(sys, db, username, scope, p) <==> scope in listed && p.ToString() in listed[scope]
    {
      assert Grants(TableOf(sys), role, scope, p.ToString()) <==> scope in listed && p.ToString() in listed[scope];
    }
    if scope in listed {
      assert Mentions(TableOf(sys), role, scope);
      assert SomeMentions(TableOf(db.roles), TableOf(sys), names, scope);
    } else {
      assert perms[0] in perms;
    }
  }

  lemma EverythingIsListed()
    ensures forall p: Permission :: p.ToString() in ["create", "delete", "read", "update"]
    ensures forall p: Permission :: p.ToString() in ["read", "create", "update", "delete"]
    ensures forall p: Permission :: p.ToString() in ["read"] <==> p == PermRead
  {
  }

  /** A user with just that role passes a non-empty check exactly on the scopes it manages, and
      with nothing but reading on those it only sees. */
  lemma WhatABuiltInRoleAllows(sys: map<string, Role>, db: DB, username: string, role: string,
        everything: seq<string>, managed: bool, seen: bool, scope: string, perms: seq<Permission>)
    requires role in sys && role !in db.roles && perms != []
    requires username in db.users && db.users[username].roles == [role]
    requires CarriesOn(sys[role], scope, everything, managed, seen)
    requires forall p: Permission :: p.ToString() in everything
    ensures Allows(PermissionsOf(sys, db, username), scope, perms) <==>
            managed || (seen && forall p :: p in perms ==> p == PermRead)
  {
    OneBuiltInRole(sys, db, username, role, scope, perms);
    EverythingIsListed();
    assert perms[0] in perms;
  }

  /** A user with just the shipped read-only role may read on fifteen scopes, and create, update
      or delete nowhere. */
  lemma WhatReadOnlyMayDo(sys: map<string, Role>, db: DB, username: string, scope: string, perms: seq<Permission>)
    requires Indexes(Shipped(), sys) && NamesDisjoint(sys, db) && perms != []
    requires username in db.users && db.users[username].roles == ["read-only"]
    ensures Allows(PermissionsOf(sys, db, username), scope, perms) <==>
      && (forall p :: p in perms ==> p == PermRead)
      && scope in {"cephfs", "grafana", "hosts", "iscsi", "log", "manager", "monitor", "nfs-ganesha", "osd", "pool",
                   "prometheus", "rbd-image", "rbd-mirroring", "rgw", "user"}
  {
    ShippedByName(sys, 6);
    ShippedReadOnly(scope);
    EverythingIsListed();
    WhatABuiltInRoleAllows(sys, db, username, "read-only", ["read", "create", "update", "delete"], false,
                           scope in sys["read-only"].permissions, scope, perms);
  }
}
