// GetPermissions as it runs: on slices over shared arrays, which it appends to, sorts and
// compacts in place while holding no more than the read lock.
module PermissionSlices {
  import opened GoStrings
  import opened Sorting
  import opened Wrappers
  import opened AccessData
  import opened Permissions

  /** A Go slice from the start of its array: Nil, or the first len elements of data, with
      the rest of data as spare capacity. */
  datatype Slice = Nil | Slice(data: array<string>, len: nat)
  {
    ghost predicate Valid()
    {
      Slice? ==> len <= data.Length
    }

    ghost function Arrays(): set<array<string>>
    {
      if Nil? then {} else {data}
    }

    ghost function View(): seq<string>
      requires Valid()
      reads Arrays()
    {
      if Nil? then [] else data[..len]
    }
  }

  type SliceMap = map<string, Slice>

  ghost predicate AllValid(m: SliceMap)
  {
    forall k :: k in m ==> m[k].Valid()
  }

  ghost function ArraysOf(m: SliceMap): set<array<string>>
  {
    set k | k in m && m[k].Slice? :: m[k].data
  }

  /** No two lists of the map share an array. */
  ghost predicate Separate(m: SliceMap)
  {
    forall k, l :: k in m && l in m && k != l && m[k].Slice? && m[l].Slice? ==> m[k].data != m[l].data
  }

  ghost function Views(m: SliceMap): Scoped
    requires AllValid(m)
    reads ArraysOf(m)
  {
    map k | k in m :: m[k].View()
  }

  ghost predicate TableValid(t: map<string, SliceMap>)
  {
    forall r :: r in t ==> AllValid(t[r])
  }

  ghost function TableArrays(t: map<string, SliceMap>): set<array<string>>
  {
    set r, a | r in t && a in ArraysOf(t[r]) :: a
  }

  ghost function TableView(t: map<string, SliceMap>): Table
    requires TableValid(t)
    reads TableArrays(t)
  {
    map r | r in t :: Views(t[r])
  }

  /** Append within the spare capacity; the values are taken before anything is written. */
  method AppendInPlace(s: Slice, values: seq<string>) returns (r: Slice)
    requires s.Slice? && s.len + |values| <= s.data.Length
    modifies s.data
    ensures r.Valid() && r.Arrays() == s.Arrays()
    ensures r.View() == old(s.View()) + values
  {
    ghost var was := s.View();
    for i := 0 to |values|
      invariant s.data[..s.len + i] == was + values[..i]
    {
      s.data[s.len + i] := values[i];
      assert s.data[..s.len + i + 1] == was + values[..i] + [values[i]];
      assert values[..i + 1] == values[..i] + [values[i]];
    }
    assert values[..|values|] == values;
    r := Slice(s.data, s.len + |values|);
  }

  /** Go's append: in place when the spare capacity suffices, else into a new array of some
      larger capacity. Elements before len never change. */
  method Append(s: Slice, more: Slice, slack: nat) returns (r: Slice)
    requires s.Valid() && more.Valid()
    modifies s.Arrays()
    ensures r.Valid()
    ensures r.Arrays() <= s.Arrays() || fresh(r.Arrays())
    ensures r.View() == old(s.View()) + old(more.View())
  {
    var old', values := if s.Slice? then s.data[..s.len] else [], if more.Slice? then more.data[..more.len] else [];
    if values == [] { return s; }
    if s.Slice? && s.len + |values| <= s.data.Length {
      r := AppendInPlace(s, values);
    } else {
      var all := old' + values;
      var data := new string[|all| + slack](i => if 0 <= i < |all| then all[i] else "");
      r := Slice(data, |all|);
      assert data[..|all|] == all;
    }
  }

  /** sort.Strings in place. */
  method SortStrings(s: Slice)
    requires s.Valid()
    modifies s.Arrays()
    ensures multiset(s.View()) == multiset(old(s.View()))
    ensures Ordered(Less, s.View())
  {
    if s.Nil? { return; }
    LessIsWeakOrder();
    var sorted := SortSlice(s.data[..s.len], Less);
    assert |sorted| == |multiset(sorted)| == s.len;
    forall i | 0 <= i < s.len { s.data[i] := sorted[i]; }
    assert s.data[..s.len] == sorted;
  }

  lemma {:induction false} DedupKeepsTheLast(s: seq<string>)
    requires s != []
    ensures 0 < |Dedup(s)| <= |s| && Dedup(s)[|Dedup(s)| - 1] == s[|s| - 1]
  {
    if |s| > 1 { DedupKeepsTheLast(s[1..]); }
  }

  lemma {:induction false} DedupAppends(s: seq<string>, x: string)
    requires s != []
    ensures Dedup(s + [x]) == if x == s[|s| - 1] then Dedup(s) else Dedup(s) + [x]
  {
    assert (s + [x])[1..] == s[1..] + [x];
    if |s| > 1 { DedupAppends(s[1..], x); } else { assert s == [s[0]] && s[1..] + [x] == [x]; }
  }

  lemma DedupStep(s: seq<string>, i: nat)
    requires 0 < i < |s|
    ensures Dedup(s[..i + 1]) == if s[i] == s[i - 1] then Dedup(s[..i]) else Dedup(s[..i]) + [s[i]]
    ensures |Dedup(s[..i])| <= i
    ensures Dedup(s[..i]) != [] && Dedup(s[..i])[|Dedup(s[..i])| - 1] == s[i - 1]
  {
    assert s[..i + 1] == s[..i] + [s[i]];
    DedupKeepsTheLast(s[..i]);
    DedupAppends(s[..i], s[i]);
  }

  /** slices.Compact in place: returns the shortened slice over the same array. */
  method Compact(s: Slice) returns (r: Slice)
    requires s.Valid()
    modifies s.Arrays()
    ensures r.Valid() && r.Arrays() == s.Arrays()
    ensures r.View() == Dedup(old(s.View()))
  {
    if s.Nil? || s.len < 2 { return s; }
    ghost var was := s.View();
    var i, j := 1, 1;
    assert was[..1] == [was[0]];
    while i < s.len
      invariant 1 <= j <= i <= s.len
      invariant s.data[..j] == Dedup(was[..i])
      invariant forall k :: i <= k < s.len ==> s.data[k] == was[k]
    {
      DedupStep(was, i);
      assert s.data[j - 1] == s.data[..j][j - 1] == was[i - 1];
      if s.data[i] != s.data[j - 1] {
        ghost var kept := s.data[..j];
        s.data[j] := s.data[i];
        assert s.data[..j + 1] == kept + [was[i]];
        j := j + 1;
      }
      i := i + 1;
    }
    assert was[..s.len] == was;
    r := Slice(s.data, j);
  }

  function ListAt(m: Scoped, k: string): seq<string>
  {
    if k in m then m[k] else []
  }

  lemma AddNothing(base: Scoped)
    ensures AddAll(base, map[]) == base
  {
    forall k | k in base ensures AddAll(base, map[])[k] == base[k] {}
  }

  lemma AddOneMore(base: Scoped, added: Scoped, todo: set<string>, k: string)
    requires k in todo && todo <= added.Keys
    ensures AddAll(base, added - (todo - {k})) ==
            AddAll(base, added - todo)[k := ListAt(AddAll(base, added - todo), k) + added[k]]
  {
    var was, now := AddAll(base, added - todo), AddAll(base, added - (todo - {k}));
    assert now.Keys == was.Keys + {k};
    assert ListAt(was, k) == ListAt(base, k);
  }

  lemma ArraysAfterPut(m: SliceMap, k: string, r: Slice)
    requires Separate(m)
    requires r.Slice? ==> r.data !in ArraysOf(m) || (k in m && m[k].Slice? && r.data == m[k].data)
    ensures Separate(m[k := r])
    ensures ArraysOf(m[k := r]) <= ArraysOf(m) + r.Arrays()
  {
  }

  /** Replacing one entry replaces one view. */
  lemma ViewsAfterPut(m: SliceMap, k: string, r: Slice, was: Scoped)
    requires AllValid(m) && r.Valid() && was.Keys == m.Keys
    requires forall l :: l in m && l != k ==> m[l].View() == was[l]
    ensures Views(m[k := r]) == was[k := r.View()]
  {
  }

  /** res[k] = append(res[k], more...): no other list of the map changes or comes to share an array. */
  method AppendAt(res0: SliceMap, k: string, more: Slice, slack: nat) returns (res: SliceMap)
    requires AllValid(res0) && more.Valid() && Separate(res0)
    modifies ArraysOf(res0)
    ensures AllValid(res) && Separate(res)
    ensures fresh(ArraysOf(res) - ArraysOf(res0))
    ensures Views(res) == old(Views(res0))[k := ListAt(old(Views(res0)), k) + old(more.View())]
  {
    var cur := if k in res0 then res0[k] else Nil;
    ghost var was := Views(res0);
    assert ListAt(was, k) == cur.View();
    forall l | l in res0 && l != k ensures was[l] == res0[l].View() && res0[l].Arrays() !! cur.Arrays() {}
    var r := Append(cur, more, slack);
    ArraysAfterPut(res0, k, r);
    ViewsAfterPut(res0, k, r, was);
    res := res0[k := r];
  }

  /** The inner range loop of GetPermissions, in whatever order the map yields its scopes. */
  method AppendAll(res0: SliceMap, more: SliceMap, slack: nat) returns (res: SliceMap)
    requires AllValid(res0) && AllValid(more) && Separate(res0)
    requires ArraysOf(res0) !! ArraysOf(more)
    modifies ArraysOf(res0)
    ensures AllValid(res) && Separate(res)
    ensures fresh(ArraysOf(res) - ArraysOf(res0))
    ensures Views(res) == AddAll(old(Views(res0)), old(Views(more)))
  {
    ghost var base, added := Views(res0), Views(more);
    res := res0;
    var todo := more.Keys;
    AddNothing(base);
    assert added - todo == map[];
    while todo != {}
      invariant todo <= more.Keys && AllValid(res) && Separate(res)
      invariant fresh(ArraysOf(res) - ArraysOf(res0)) && ArraysOf(res) !! ArraysOf(more)
      invariant Views(more) == added
      invariant Views(res) == AddAll(base, added - todo)
      decreases todo
    {
      var k :| k in todo;
      assert more[k].Arrays() <= ArraysOf(more);
      res := AppendAt(res, k, more[k], slack);
      AddOneMore(base, added, todo, k);
      todo := todo - {k};
    }
    assert added - todo == added;
  }

  /** What one role name adds from one table of roles, if it is there. */
  method AppendRole(res0: SliceMap, t: map<string, SliceMap>, name: string, slack: nat) returns (res: SliceMap)
    requires AllValid(res0) && TableValid(t) && Separate(res0)
    requires ArraysOf(res0) !! TableArrays(t)
    modifies ArraysOf(res0)
    ensures AllValid(res) && Separate(res)
    ensures fresh(ArraysOf(res) - ArraysOf(res0))
    ensures Views(res) == AddRole(old(Views(res0)), old(TableView(t)), name)
  {
    res := res0;
    if name in t {
      assert ArraysOf(t[name]) <= TableArrays(t);
      res := AppendAll(res0, t[name], slack);
    }
  }

  /** b lists the elements of a in strictly increasing order. */
  ghost predicate IsIncreasingListOf(a: seq<string>, b: seq<string>)
  {
    StrictlyIncreasing(b) && forall x :: x in b <==> x in a
  }

  /** sort.Strings then slices.Compact on one list. */
  method SortAndCompact(s: Slice) returns (r: Slice)
    requires s.Valid()
    modifies s.Arrays()
    ensures r.Valid() && r.Arrays() == s.Arrays()
    ensures IsIncreasingListOf(old(s.View()), r.View())
  {
    SortStrings(s);
    SameMembers(s.View(), old(s.View()));
    DedupOfOrderedIsIncreasing(s.View());
    r := Compact(s);
  }

  /** now is base with every list outside todo sorted and compacted. */
  ghost predicate Finished(base: Scoped, now: Scoped, todo: set<string>)
  {
    && now.Keys == base.Keys
    && forall k :: k in now ==> if k in todo then now[k] == base[k] else IsIncreasingListOf(base[k], now[k])
  }

  lemma FinishOneMore(base: Scoped, now: Scoped, next: Scoped, todo: set<string>, k: string)
    requires Finished(base, now, todo) && k in todo && k in base
    requires next.Keys == now.Keys && IsIncreasingListOf(now[k], next[k])
    requires forall l :: l in next && l != k ==> next[l] == now[l]
    ensures Finished(base, next, todo - {k})
  {
  }

  method SortAndCompactAt(res0: SliceMap, k: string) returns (res: SliceMap)
    requires AllValid(res0) && Separate(res0) && k in res0
    modifies ArraysOf(res0)
    ensures AllValid(res) && Separate(res) && ArraysOf(res) <= ArraysOf(res0) && res.Keys == res0.Keys
    ensures IsIncreasingListOf(old(Views(res0))[k], Views(res)[k])
    ensures forall l :: l in res && l != k ==> Views(res)[l] == old(Views(res0))[l]
  {
    var r := SortAndCompact(res0[k]);
    assert r.Slice? ==> r.data in res0[k].Arrays();
    ArraysAfterPut(res0, k, r);
    res := res0[k := r];
    forall l | l in res0 && l != k ensures res0[l].View() == old(res0[l].View()) {}
  }

  /** The last loop of GetPermissions, in whatever order the map yields its scopes. */
  method SortAndCompactAll(res0: SliceMap) returns (res: SliceMap)
    requires AllValid(res0) && Separate(res0)
    modifies ArraysOf(res0)
    ensures AllValid(res) && Separate(res) && ArraysOf(res) <= ArraysOf(res0)
    ensures Finished(old(Views(res0)), Views(res), {})
  {
    ghost var base := Views(res0);
    res := res0;
    var todo := res0.Keys;
    while todo != {}
      invariant todo <= res0.Keys && AllValid(res) && Separate(res) && ArraysOf(res) <= ArraysOf(res0)
      invariant Finished(base, Views(res), todo)
      decreases todo
    {
      var k :| k in todo;
      ghost var now := Views(res);
      res := SortAndCompactAt(res, k);
      FinishOneMore(base, now, Views(res), todo, k);
      todo := todo - {k};
    }
  }

  lemma FinishedGatherIsTheUnion(custom: Table, builtIn: Table, names: seq<string>, gathered: Scoped, m: Scoped)
    requires Gathers(custom, builtIn, names, gathered) && Finished(gathered, m, {})
    ensures IsUnion(custom, builtIn, names, m)
  {
  }

  /** One turn of the loop over the user's roles. */
  method AppendRoles(res0: SliceMap, roles: map<string, SliceMap>, systemRoles: map<string, SliceMap>, name: string,
        slack: nat)
    returns (res: SliceMap)
    requires AllValid(res0) && TableValid(roles) && TableValid(systemRoles) && Separate(res0)
    requires ArraysOf(res0) !! TableArrays(roles) && ArraysOf(res0) !! TableArrays(systemRoles)
    modifies ArraysOf(res0)
    ensures AllValid(res) && Separate(res)
    ensures fresh(ArraysOf(res) - ArraysOf(res0))
    ensures Views(res) ==
            AddRole(AddRole(old(Views(res0)), old(TableView(roles)), name), old(TableView(systemRoles)), name)
  {
    res := AppendRole(res0, roles, name, slack);
    res := AppendRole(res, systemRoles, name, slack);
  }

  /** The loop over the user's roles, into arrays of its own. */
  method CollectRoles(names: seq<string>, roles: map<string, SliceMap>, systemRoles: map<string, SliceMap>,
        slack: nat)
    returns (res: SliceMap)
    requires TableValid(roles) && TableValid(systemRoles)
    ensures AllValid(res) && Separate(res) && fresh(ArraysOf(res))
    ensures ArraysOf(res) !! TableArrays(roles) && ArraysOf(res) !! TableArrays(systemRoles)
    ensures Views(res) == Collect(TableView(roles), TableView(systemRoles), names)
  {
    res := map[];
    ghost var custom, builtIn := TableView(roles), TableView(systemRoles);
    for i := 0 to |names|
      invariant AllValid(res) && Separate(res) && fresh(ArraysOf(res))
      invariant ArraysOf(res) !! TableArrays(roles) && ArraysOf(res) !! TableArrays(systemRoles)
      invariant TableView(roles) == custom && TableView(systemRoles) == builtIn
      invariant Views(res) == Collect(custom, builtIn, names[..i])
    {
      res := AppendRoles(res, roles, systemRoles, names[i], slack);
      assert names[..i + 1][..i] == names[..i];
    }
    assert names[..|names|] == names;
  }

  /** GetPermissions. It modifies nothing that existed before the call: every append, sort and
      compaction happens in an array of its own, however the stored and built-in roles share
      theirs, and the result is the exact union of what the user's roles grant. */
  method GetPermissions(users: map<string, User>, roles: map<string, SliceMap>, systemRoles: map<string, SliceMap>,
                        username: string, slack: nat)
    returns (res: SliceMap)
    requires TableValid(roles) && TableValid(systemRoles)
    ensures AllValid(res) && Separate(res) && fresh(ArraysOf(res))
    ensures IsUnion(TableView(roles), TableView(systemRoles), RoleNames(users, username), Views(res))
  {
    res := map[];
    ghost var custom, builtIn := TableView(roles), TableView(systemRoles);
    if username !in users {
      CollectGathersTheUnion(custom, builtIn, []);
      return;
    }
    var names := users[username].roles;
    res := CollectRoles(names, roles, systemRoles, slack);
    CollectGathersTheUnion(custom, builtIn, names);
    res := SortAndCompactAll(res);
    FinishedGatherIsTheUnion(custom, builtIn, names, Collect(custom, builtIn, names), Views(res));
  }
}
