// The entities of the access database: users, roles, and the decoded remote key.
module AccessData {
  import opened Wrappers

  /** A password string, as a term over an ideal bcrypt: Text is any string typed by
      somebody, Digest(p, salt) the hash of p. Nothing but hashing makes a Digest. */
  datatype Password = Text(chars: string) | Digest(of: Password, salt: nat)

  /** CompareHashAndPassword with an ideal hash; comparing against a non-hash fails. */
  predicate Verifies(hash: Password, secret: Password)
  {
    hash.Digest? && hash.of == secret
  }

  datatype User = User(
    username: string,
    roles: seq<string>,
    password: Password,
    name: Option<string>,
    email: Option<string>,
    lastUpdate: int,
    enabled: bool,
    pwdExpirationDate: Option<int>,
    pwdUpdateRequired: bool)

  datatype Role = Role(
    name: string,
    description: Option<string>,
    isSystem: bool,
    permissions: map<string, seq<string>>)

  datatype DB = DB(users: map<string, User>, roles: map<string, Role>)

  const EMPTY := DB(map[], map[])

  /** What a decoded read of the key gives; a missing key reads as no users and no roles. */
  function Contents(stored: Option<DB>): DB
  {
    match stored
    case None => EMPTY
    case Some(d) => d
  }

  datatype Permission = PermRead | PermCreate | PermUpdate | PermDelete
  {
    function ToString(): string
    {
      match this
      case PermRead => "read"
      case PermCreate => "create"
      case PermUpdate => "update"
      case PermDelete => "delete"
    }
  }

  const PERMISSION_SET: set<string> := {"read", "create", "update", "delete"}

  const SCOPE_SET: set<string> := {
    "hosts", "config-opt", "pool", "osd", "monitor", "rbd-image", "iscsi", "rbd-mirroring", "rgw", "cephfs",
    "manager", "log", "grafana", "prometheus", "user", "dashboard-settings", "nfs-ganesha", "nvme-of"
  }

  /** The scope constant for dashboard settings is spelled without the final s. */
  const SCOPE_DASHBOARD_SETTINGS := "dashboard-setting"

  /** Every scope and every permission of a permission table is a known one. */
  ghost predicate KnownPermissions(permissions: map<string, seq<string>>)
  {
    forall scope :: scope in permissions ==>
      scope in SCOPE_SET && forall p :: p in permissions[scope] ==> p in PERMISSION_SET
  }

  /** What the proofs need of the built-in role table. */
  ghost predicate SystemTable(sys: map<string, Role>)
  {
    forall n :: n in sys ==> sys[n].name == n && sys[n].isSystem && KnownPermissions(sys[n].permissions)
  }
}

// The built-in roles the program ships, as parallel tables: the i-th role manages the scopes
// Managed(i) with all four permissions and only reads the scopes Seen(i).
module SystemRoles {
  import opened Wrappers
  import opened AccessData

  const NAMES := ["administrator", "block-manager", "cephfs-manager", "cluster-manager", "ganesha-manager",
                  "pool-manager", "read-only", "rgw-manager"]

  const DESCRIPTIONS := [
    "allows full permissions for all security scopes",
    "allows full permissions for rbd-image, rbd-mirroring, and iscsi scopes",
    "allows full permissions for the cephfs scope",
    "allows full permissions for the hosts, osd, mon, mgr,\n    and config-opt scopes",
    "allows full permissions for the nfs-ganesha scope",
    "allows full permissions for the pool scope",
    "allows read permission for all security scope except dashboard settings and config-opt",
    "allows full permissions for the rgw scope"]

  function Managed(i: nat): set<string>
    requires i < 8
  {
    match i
    case 0 => {"cephfs", "config-opt", "dashboard-settings", "grafana", "hosts", "iscsi", "log", "manager", "monitor",
               "nfs-ganesha", "osd", "pool", "prometheus", "rbd-image", "rbd-mirroring", "rgw", "user"}
    case 1 => {"rbd-image", "iscsi", "rbd-mirroring"}
    case 2 => {"cephfs"}
    case 3 => {"hosts", "osd", "monitor", "manager", "config-opt", "log"}
    case 4 => {"nfs-ganesha", "cephfs", "rgw"}
    case 5 => {"pool"}
    case 6 => {}
    case 7 => {"rgw"}
  }

  function Seen(i: nat): set<string>
    requires i < 8
  {
    match i
    case 0 => {}
    case 1 => {"pool", "grafana"}
    case 6 => {"cephfs", "grafana", "hosts", "iscsi", "log", "manager", "monitor", "nfs-ganesha", "osd", "pool",
               "prometheus", "rbd-image", "rbd-mirroring", "rgw", "user"}
    case _ => {"grafana"}
  }

  function FullList(i: nat): seq<string>
  {
    if i == 0 then ["create", "delete", "read", "update"] else ["read", "create", "update", "delete"]
  }

  function BuiltIn(i: nat): Role
    requires i < 8
  {
    Role(NAMES[i], Some(DESCRIPTIONS[i]), true,
         (map s | s in Managed(i) :: FullList(i)) + (map s | s in Seen(i) :: ["read"]))
  }

  function Shipped(): seq<Role>
  {
    seq(8, i requires 0 <= i < 8 => BuiltIn(i))
  }

  ghost predicate DistinctNames(roles: seq<Role>)
  {
    forall i, j :: 0 <= i < j < |roles| ==> roles[i].name != roles[j].name
  }

  /** res holds exactly the roles of the list, each under its name. */
  ghost predicate Indexes(roles: seq<Role>, res: map<string, Role>)
  {
    && (forall n :: n in res ==> exists i :: 0 <= i < |roles| && roles[i].name == n && roles[i] == res[n])
    && (forall i :: 0 <= i < |roles| ==> roles[i].name in res && res[roles[i].name] == roles[i])
  }

  /** The loop that fills systemRoleMap. */
  method IndexByName(roles: seq<Role>) returns (res: map<string, Role>)
    ensures forall n :: n in res ==> exists i :: 0 <= i < |roles| && roles[i].name == n && roles[i] == res[n]
    ensures DistinctNames(roles) ==> Indexes(roles, res)
  {
    res := map[];
    for i := 0 to |roles|
      invariant forall n :: n in res ==> exists k :: 0 <= k < i && roles[k].name == n && roles[k] == res[n]
      invariant DistinctNames(roles) ==>
        forall k :: 0 <= k < i ==> roles[k].name in res && res[roles[k].name] == roles[k]
    {
      res := res[roles[i].name := roles[i]];
    }
  }

  /** The shipped table: distinct names, all marked system, only known scopes and permissions. */
  lemma ShippedTableIsSound()
    ensures DistinctNames(Shipped())
    ensures forall i :: 0 <= i < |Shipped()| ==> Shipped()[i].isSystem && KnownPermissions(Shipped()[i].permissions)
  {
    NamesDiffer();
    forall i | 0 <= i < |Shipped()| ensures KnownPermissions(Shipped()[i].permissions) {
      ScopesAreKnown(i);
      ListsAreKnown(i);
    }
  }

  lemma ScopesAreKnown(i: nat)
    requires i < 8
    ensures Managed(i) <= SCOPE_SET && Seen(i) <= SCOPE_SET
  {
  }

  lemma ListsAreKnown(i: nat)
    ensures forall p :: p in FullList(i) ==> p in PERMISSION_SET
    ensures forall p :: p in ["read"] ==> p in PERMISSION_SET
  {
  }

  /** What the role lists on one scope: everything, in this order, if it manages the scope, only
      "read" if it sees it, and nothing otherwise. */
  ghost predicate CarriesOn(role: Role, scope: string, everything: seq<string>, managed: bool, seen: bool)
  {
    && role.isSystem
    && (scope in role.permissions <==> managed || seen)
    && (managed ==> scope in role.permissions && role.permissions[scope] == everything)
    && (seen ==> scope in role.permissions && role.permissions[scope] == ["read"])
  }

  lemma BuiltInCarries(i: nat, scope: string)
    requires i < 8
    ensures CarriesOn(BuiltIn(i), scope, FullList(i), scope in Managed(i), scope in Seen(i))
  {
    NothingIsBothManagedAndSeen(i);
  }

  lemma NothingIsBothManagedAndSeen(i: nat)
    requires i < 8
    ensures Managed(i) !! Seen(i)
  {
  }

  // The shipped roles one by one: what each manages and what it only sees

  lemma ShippedAdministrator(scope: string)
    ensures BuiltIn(0).name == "administrator"
    ensures CarriesOn(BuiltIn(0), scope, ["create", "delete", "read", "update"],
                      scope in {"cephfs", "config-opt", "dashboard-settings", "grafana", "hosts", "iscsi",
                                "log", "manager", "monitor", "nfs-ganesha", "osd", "pool", "prometheus", "rbd-image",
                                "rbd-mirroring", "rgw", "user"},
                      false)
  {
    BuiltInCarries(0, scope);
  }

  lemma ShippedBlockManager(scope: string)
    ensures BuiltIn(1).name == "block-manager"
    ensures CarriesOn(BuiltIn(1), scope, ["read", "create", "update", "delete"],
                      scope in {"rbd-image", "iscsi", "rbd-mirroring"},
                      scope in {"pool", "grafana"})
  {
    BuiltInCarries(1, scope);
  }

  lemma ShippedCephfsManager(scope: string)
    ensures BuiltIn(2).name == "cephfs-manager"
    ensures CarriesOn(BuiltIn(2), scope, ["read", "create", "update", "delete"],
                      scope == "cephfs",
                      scope == "grafana")
  {
    BuiltInCarries(2, scope);
  }

  lemma ShippedClusterManager(scope: string)
    ensures BuiltIn(3).name == "cluster-manager"
    ensures CarriesOn(BuiltIn(3), scope, ["read", "create", "update", "delete"],
                      scope in {"hosts", "osd", "monitor", "manager", "config-opt", "log"},
                      scope == "grafana")
  {
    BuiltInCarries(3, scope);
  }

  lemma ShippedGaneshaManager(scope: string)
    ensures BuiltIn(4).name == "ganesha-manager"
    ensures CarriesOn(BuiltIn(4), scope, ["read", "create", "update", "delete"],
                      scope in {"nfs-ganesha", "cephfs", "rgw"},
                      scope == "grafana")
  {
    BuiltInCarries(4, scope);
  }

  lemma ShippedPoolManager(scope: string)
    ensures BuiltIn(5).name == "pool-manager"
    ensures CarriesOn(BuiltIn(5), scope, ["read", "create", "update", "delete"],
                      scope == "pool",
                      scope == "grafana")
  {
    BuiltInCarries(5, scope);
  }

  lemma ShippedReadOnly(scope: string)
    ensures BuiltIn(6).name == "read-only"
    ensures CarriesOn(BuiltIn(6), scope, ["read", "create", "update", "delete"],
                      false,
                      scope in {"cephfs", "grafana", "hosts", "iscsi", "log", "manager", "monitor",
                                "nfs-ganesha", "osd", "pool", "prometheus", "rbd-image", "rbd-mirroring", "rgw",
                                "user"})
  {
    BuiltInCarries(6, scope);
  }

  lemma ShippedRgwManager(scope: string)
    ensures BuiltIn(7).name == "rgw-manager"
    ensures CarriesOn(BuiltIn(7), scope, ["read", "create", "update", "delete"],
                      scope == "rgw",
                      scope == "grafana")
  {
    BuiltInCarries(7, scope);
  }

  /** The list of shipped roles, and the map built from it: each under its name and no other. */
  lemma ShippedByName(sys: map<string, Role>, i: nat)
    requires Indexes(Shipped(), sys) && i < 8
    ensures |Shipped()| == 8 && Shipped()[i] == BuiltIn(i)
    ensures BuiltIn(i).name in sys && sys[BuiltIn(i).name] == BuiltIn(i)
  {
    assert Shipped()[i] == BuiltIn(i);
  }

  lemma OnlyShippedNames(sys: map<string, Role>, n: string) returns (i: nat)
    requires Indexes(Shipped(), sys) && n in sys
    ensures i < 8 && BuiltIn(i).name == n
  {
    i :| 0 <= i < |Shipped()| && Shipped()[i].name == n;
  }

  lemma NamesDiffer()
    ensures forall i, j :: 0 <= i < j < |NAMES| ==> NAMES[i] != NAMES[j]
  {
  }

  /** What the access database needs of the map built from the shipped table. */
  lemma ShippedMapIsASystemTable(sys: map<string, Role>)
    requires Indexes(Shipped(), sys)
    ensures SystemTable(sys)
    ensures "administrator" in sys
  {
    ShippedTableIsSound();
    assert Shipped()[0].name == "administrator";
  }
}
