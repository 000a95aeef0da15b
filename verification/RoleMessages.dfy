// Roles on the wire: the conversions of the users API.
module RoleMessages {
  import opened Wrappers
  import opened AccessData

  /** An element of a list value; only strings carry permissions. */
  datatype Value = StringValue(s: string) | OtherValue
  {
    function GetStringValue(): string
    {
      if StringValue? then s else ""
    }
  }

  datatype RoleMessage = RoleMessage(
    name: string,
    description: Option<string>,
    scopesPermissions: map<string, seq<Value>>)

  function Strings(vs: seq<Value>): seq<string>
  {
    seq(|vs|, i requires 0 <= i < |vs| => vs[i].GetStringValue())
  }

  function StringValues(ps: seq<string>): seq<Value>
  {
    seq(|ps|, i requires 0 <= i < |ps| => StringValue(ps[i]))
  }

  /** roleFromPb: a scope gets an entry only when its first value is appended. */
  method RoleFromMessage(m: RoleMessage) returns (r: Role)
    ensures r.name == m.name && r.description == m.description && !r.isSystem
    ensures r.permissions ==
            map k | k in m.scopesPermissions && m.scopesPermissions[k] != [] :: Strings(m.scopesPermissions[k])
    ensures forall k, i :: k in r.permissions && 0 <= i < |m.scopesPermissions[k]| ==>
      && |r.permissions[k]| == |m.scopesPermissions[k]|
      && var v := m.scopesPermissions[k][i]; r.permissions[k][i] == if v.StringValue? then v.s else ""
  {
    var permissions: map<string, seq<string>> := map[];
    var todo := m.scopesPermissions.Keys;
    while todo != {}
      invariant todo <= m.scopesPermissions.Keys
      invariant permissions ==
                map k | k in m.scopesPermissions && k !in todo && m.scopesPermissions[k] != [] ::
                  Strings(m.scopesPermissions[k])
      decreases todo
    {
      var k :| k in todo;
      var values := m.scopesPermissions[k];
      ghost var before := permissions;
      for i := 0 to |values|
        invariant permissions == if i == 0 then before else before[k := Strings(values[..i])]
      {
        var sofar := if k in permissions then permissions[k] else [];
        permissions := permissions[k := sofar + [values[i].GetStringValue()]];
        assert Strings(values[..i + 1]) == Strings(values[..i]) + [values[i].GetStringValue()];
      }
      assert values[..|values|] == values;
      todo := todo - {k};
    }
    return Role(m.name, m.description, false, permissions);
  }

  /** roleToPb: every scope gets a list, empty or not. */
  method RoleToMessage(r: Role) returns (m: RoleMessage)
    ensures m == RoleMessage(r.name, r.description, map k | k in r.permissions :: StringValues(r.permissions[k]))
  {
    var permissions: map<string, seq<Value>> := map[];
    var todo := r.permissions.Keys;
    while todo != {}
      invariant todo <= r.permissions.Keys
      invariant permissions == map k | k in r.permissions && k !in todo :: StringValues(r.permissions[k])
      decreases todo
    {
      var k :| k in todo;
      var perms, list := r.permissions[k], [];
      for i := 0 to |perms|
        invariant list == StringValues(perms[..i])
      {
        list := list + [StringValue(perms[i])];
        assert perms[..i + 1] == perms[..i] + [perms[i]];
      }
      assert perms[..|perms|] == perms;
      permissions := permissions[k := list];
      todo := todo - {k};
    }
    return RoleMessage(r.name, r.description, permissions);
  }

  /** A role sent out and read back is the same role exactly when it is not a built-in one and
      has no scope with an empty list. */
  method SendAndReadBack(r: Role) returns (back: Role)
    ensures back == r <==> !r.isSystem && forall k :: k in r.permissions ==> r.permissions[k] != []
    ensures back.permissions == map k | k in r.permissions && r.permissions[k] != [] :: r.permissions[k]
  {
    var m := RoleToMessage(r);
    back := RoleFromMessage(m);
    forall k | k in r.permissions ensures Strings(StringValues(r.permissions[k])) == r.permissions[k] {}
    if k :| k in r.permissions && r.permissions[k] == [] { assert k !in back.permissions; }
  }
}
