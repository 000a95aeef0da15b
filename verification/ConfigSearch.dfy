// Searching the index: the filters with an early exit, and an unstable sort.
module ConfigSearch {
  import opened GoStrings
  import opened Sorting
  import opened Wrappers
  import opened Glob
  import opened ConfigIndex
  import opened ConfigFilters

  /** Search takes the name for a unique one and stops at the first hit. */
  predicate TakenAsUnique(q: Query)
  {
    q.name.Some? && q.name.value != "" && Plain(q.name.value)
  }

  /** What the scan collects with its early exit. */
  function Scan(rules: TextRules, q: Query, params: seq<Param>): seq<Param>
  {
    var all := Filter(rules, q, params);
    if TakenAsUnique(q) && all != [] then [all[0]] else all
  }

  // Sorting

  function Key(field: SortField, p: Param): string
  {
    match field
    case NAME => p.name
    case TYPE => p.kind
    case LEVEL => p.level
    case OtherField => ""
  }

  predicate Before(field: SortField, order: SortOrder, a: Param, b: Param)
  {
    match field
    case OtherField => false
    case _ => if order == ASC then Less(Key(field, a), Key(field, b)) else Less(Key(field, b), Key(field, a))
  }

  function Comparison(field: SortField, order: SortOrder): (Param, Param) -> bool
  {
    (a: Param, b: Param) => Before(field, order, a, b)
  }

  lemma ComparisonIsWeakOrder(field: SortField, order: SortOrder)
    ensures StrictWeakOrder(Comparison(field, order))
  {
    LessIsWeakOrder();
    KeyOrderIsWeakOrder(Less, (p: Param) => Key(field, p), Comparison(field, order));
  }

  lemma KeyOrderIsWeakOrder(less: (string, string) -> bool, key: Param -> string, before: (Param, Param) -> bool)
    requires StrictWeakOrder(less)
    requires
      || (forall a, b :: !before(a, b))
      || (forall a, b :: before(a, b) == less(key(a), key(b)))
      || (forall a, b :: before(a, b) == less(key(b), key(a)))
    ensures StrictWeakOrder(before)
  {
  }

  method SortResults(results: seq<Param>, field: SortField, order: SortOrder) returns (sorted: seq<Param>)
    ensures multiset(sorted) == multiset(results)
    ensures Ordered(Comparison(field, order), sorted)
    ensures SortedBy(field, order, sorted)
  {
    if |results| <= 1 { return results; }
    ComparisonIsWeakOrder(field, order);
    sorted := SortSlice(results, Comparison(field, order));
    OrderedIsSortedBy(field, order, sorted);
  }

  function Kinds(params: seq<Param>): seq<string>
  {
    seq(|params|, i requires 0 <= i < |params| => params[i].kind)
  }

  function Levels(params: seq<Param>): seq<string>
  {
    seq(|params|, i requires 0 <= i < |params| => params[i].level)
  }

  ghost predicate NonIncreasing(s: seq<string>)
  {
    forall i, j :: 0 <= i < j < |s| ==> !Less(s[i], s[j])
  }

  /** By name, type or level, up for ASC and down for any other order; unknown fields leave any
      order. */
  ghost predicate SortedBy(field: SortField, order: SortOrder, list: seq<Param>)
  {
    && (field == NAME && order == ASC ==> NonDecreasing(Names(list)))
    && (field == NAME && order != ASC ==> NonIncreasing(Names(list)))
    && (field == TYPE && order == ASC ==> NonDecreasing(Kinds(list)))
    && (field == TYPE && order != ASC ==> NonIncreasing(Kinds(list)))
    && (field == LEVEL && order == ASC ==> NonDecreasing(Levels(list)))
    && (field == LEVEL && order != ASC ==> NonIncreasing(Levels(list)))
  }

  lemma OrderedIsSortedBy(field: SortField, order: SortOrder, list: seq<Param>)
    requires Ordered(Comparison(field, order), list)
    ensures SortedBy(field, order, list)
  {
    forall i, j | 0 <= i < j < |list| ensures !Before(field, order, list[j], list[i]) {
      assert !Comparison(field, order)(list[j], list[i]);
    }
  }

  function Field(q: Query): SortField
  {
    if q.sort.Some? then q.sort.value else NAME
  }

  function Order(q: Query): SortOrder
  {
    if q.order.Some? then q.order.value else ASC
  }

  function Reverse(s: seq<Param>): seq<Param>
  {
    seq(|s|, i requires 0 <= i < |s| => s[|s| - 1 - i])
  }

  /** The query names something without the characters * ? [ ]. */
  ghost predicate StopsEarly(q: Query)
  {
    && q.name.Some? && q.name.value != ""
    && '*' !in q.name.value && '?' !in q.name.value && '[' !in q.name.value && ']' !in q.name.value
  }

  lemma StopsEarlyWhenTakenAsUnique(q: Query)
    ensures TakenAsUnique(q) <==> StopsEarly(q)
  {
  }

  /** The loop of Search: the full scan, or its first entry for a name without wildcards. */
  method ScanParams(rules: TextRules, params: seq<Param>, q: Query) returns (result: seq<Param>)
    ensures result == Scan(rules, q, params)
    ensures StopsEarly(q) ==> |result| <= 1 && result <= Filter(rules, q, params)
    ensures result != Filter(rules, q, params) ==> StopsEarly(q) && result != []
  {
    StopsEarlyWhenTakenAsUnique(q);
    result := [];
    var lowered := if q.fullText.Some? && q.fullText.value != "" then rules.lower(q.fullText.value) else "";
    var uniqueName := TakenAsUnique(q);
    var i := 0;
    while i < |params|
      invariant 0 <= i <= |params|
      invariant result == Filter(rules, q, params[..i])
      invariant uniqueName ==> result == []
    {
      var info := params[i];
      FilterOneMore(rules, q, params, i);
      i := i + 1;
      if !MatchesService(rules, info, q.service) { continue; }
      if !MatchesLevel(rules, info, q.level) { continue; }
      if !MatchesName(info, q.name) { continue; }
      if !MatchesType(rules, info, q.kind) { continue; }
      if !MatchesFullText(rules, info, lowered) { continue; }
      result := result + [info];
      if uniqueName {
        FilterGrows(rules, q, params, i);
        return;
      }
    }
    assert params[..|params|] == params;
  }

  /** The result is a permutation of what the scan collects, ordered by the chosen key and
      direction, by name and upwards if none is chosen, and holds only parameters of the index
      that the query wants. On an index without repeated names it holds all of those, and by
      name it is the filtered index itself or its reverse, unstable sort or not. */
  method Search(rules: TextRules, c: Config, q: Query) returns (result: seq<Param>)
    ensures multiset(result) == multiset(Scan(rules, q, c.params))
    ensures Ordered(Comparison(Field(q), Order(q)), result)
    ensures SortedBy(if q.sort.Some? then q.sort.value else NAME, if q.order.Some? then q.order.value else ASC, result)
    ensures forall p :: p in result ==> p in c.params && Wanted(rules, q, p)
    ensures StrictlyIncreasing(Names(c.params)) ==>
      forall p :: p in c.params && Wanted(rules, q, p) ==> p in result
    ensures StrictlyIncreasing(Names(c.params)) ==>
      && multiset(result) == multiset(Filter(rules, q, c.params))
      && (Field(q) == NAME && Order(q) == ASC ==> result == Filter(rules, q, c.params))
      && (Field(q) == NAME && Order(q) != ASC ==> result == Reverse(Filter(rules, q, c.params)))
  {
    result := ScanParams(rules, c.params, q);
    ghost var scanned := result;
    result := SortResults(result, Field(q), Order(q));
    SameMembers(result, scanned);
    ScannedAreWanted(rules, q, c.params);
    if StrictlyIncreasing(Names(c.params)) {
      DistinctNamesMakeTheExitExact(rules, q, c.params);
      SortedByName(rules, q, c.params, result);
    }
  }

  /** The scan collects parameters that the query wants; without its exit it collects them all. */
  lemma ScannedAreWanted(rules: TextRules, q: Query, params: seq<Param>)
    ensures forall p :: p in Scan(rules, q, params) ==> p in params && Wanted(rules, q, p)
    ensures forall p :: p in Filter(rules, q, params) <==> p in params && Wanted(rules, q, p)
  {
    forall p ensures p in Filter(rules, q, params) <==> p in params && Wanted(rules, q, p) {
      FilterKeepsWhatPasses(rules, q, params, p);
      PassingIsBeingWanted(rules, q, p);
      assert p in params <==> p in multiset(params);
      assert p in Filter(rules, q, params) <==> p in multiset(Filter(rules, q, params));
    }
  }

  // The early exit

  ghost predicate SharePlainName(a: Param, b: Param)
  {
    a.name == b.name && a.name != "" && Plain(a.name)
  }

  /** Two entries share a name that a query can spell without wildcards. */
  ghost predicate Ambiguous(params: seq<Param>)
  {
    exists i, j :: 0 <= i < j < |params| && SharePlainName(params[i], params[j])
  }

  lemma {:induction false} UnquotedIsPlain(p: string)
    requires Plain(p) && Unquoted(p).Some?
    ensures Plain(Unquoted(p).value)
    ensures p != "" ==> Unquoted(p).value != ""
    decreases |p|
  {
    if p != "" {
      var n := if p[0] == '\\' then 2 else 1;
      UnquotedIsPlain(p[n..]);
    }
  }

  lemma InexactExitsAreAmbiguous(rules: TextRules, q: Query, params: seq<Param>)
    requires Scan(rules, q, params) != Filter(rules, q, params)
    ensures Ambiguous(params)
  {
    var i, j := FilterPositions(rules, q, params, 0, 1);
    var x := FilterPosition(rules, q, params, 0);
    var y := FilterPosition(rules, q, params, 1);
    PlainPatternsMatchOneString(params[i].name, q.name.value);
    PlainPatternsMatchOneString(params[j].name, q.name.value);
    UnquotedIsPlain(q.name.value);
    assert SharePlainName(params[i], params[j]);
  }

  lemma UnambiguousExitIsExact(rules: TextRules, q: Query, params: seq<Param>)
    requires !Ambiguous(params)
    ensures Scan(rules, q, params) == Filter(rules, q, params)
  {
    if Scan(rules, q, params) != Filter(rules, q, params) { InexactExitsAreAmbiguous(rules, q, params); }
  }

  lemma AmbiguousExitMisses(rules: TextRules, params: seq<Param>) returns (q: Query)
    requires Ambiguous(params)
    ensures Scan(rules, q, params) != Filter(rules, q, params)
  {
    var i, j :| 0 <= i < j < |params| && SharePlainName(params[i], params[j]);
    var name := params[i].name;
    q := ByName(Quoted(name));
    QuotedStandsForItself(name);
    PlainPatternsMatchOneString(name, Quoted(name));
    FilterCounts(rules, q, params, j);
    FilterCounts(rules, q, params[..j], i);
  }

  /** The early exit returns what the full scan returns, for every query, exactly when no two
      entries share a non-empty name free of the characters * ? [ ]. */
  lemma WhenTheEarlyExitIsExact(rules: TextRules, params: seq<Param>)
    ensures (forall q :: Scan(rules, q, params) == Filter(rules, q, params)) <==> !Ambiguous(params)
  {
    if Ambiguous(params) {
      var q := AmbiguousExitMisses(rules, params);
    } else {
      forall q ensures Scan(rules, q, params) == Filter(rules, q, params) { UnambiguousExitIsExact(rules, q, params); }
    }
  }

  lemma DistinctNamesMakeTheExitExact(rules: TextRules, q: Query, params: seq<Param>)
    requires StrictlyIncreasing(Names(params))
    ensures Scan(rules, q, params) == Filter(rules, q, params)
  {
    forall i, j | 0 <= i < j < |params| ensures params[i].name != params[j].name {
      assert Less(Names(params)[i], Names(params)[j]);
      LessIsIrreflexive(params[i].name);
    }
    UnambiguousExitIsExact(rules, q, params);
  }

  lemma FilterIsIncreasing(rules: TextRules, q: Query, params: seq<Param>)
    requires StrictlyIncreasing(Names(params))
    ensures StrictlyIncreasing(Names(Filter(rules, q, params)))
  {
    var all := Filter(rules, q, params);
    forall a, b | 0 <= a < b < |all| ensures Less(all[a].name, all[b].name) {
      var i, j := FilterPositions(rules, q, params, a, b);
      assert Less(Names(params)[i], Names(params)[j]);
    }
  }

  lemma SortedByName(rules: TextRules, q: Query, params: seq<Param>, result: seq<Param>)
    requires StrictlyIncreasing(Names(params)) && multiset(result) == multiset(Filter(rules, q, params))
    requires Ordered(Comparison(Field(q), Order(q)), result)
    ensures Field(q) == NAME && Order(q) == ASC ==> result == Filter(rules, q, params)
    ensures Field(q) == NAME && Order(q) != ASC ==> result == Reverse(Filter(rules, q, params))
  {
    FilterIsIncreasing(rules, q, params);
    if Field(q) == NAME {
      if Order(q) == ASC {
        AscendingIsUnique(Filter(rules, q, params), result);
      } else {
        DescendingIsUnique(Filter(rules, q, params), Order(q), result);
      }
    }
  }

  lemma AscendingIsUnique(all: seq<Param>, result: seq<Param>)
    requires StrictlyIncreasing(Names(all)) && multiset(result) == multiset(all)
    requires Ordered(Comparison(NAME, ASC), result)
    ensures result == all
  {
    var less := Comparison(NAME, ASC);
    forall x ensures !less(x, x) { LessIsIrreflexive(x.name); }
    forall a, b | 0 <= a < b < |all| ensures less(all[a], all[b]) {
      assert Less(Names(all)[a], Names(all)[b]);
    }
    OrderedPermutationIsUnique(less, all, result);
  }

  lemma ReversedIsDescending(all: seq<Param>, order: SortOrder, a: nat, b: nat)
    requires StrictlyIncreasing(Names(all)) && order != ASC && a < b < |all|
    ensures Before(NAME, order, Reverse(all)[a], Reverse(all)[b])
  {
    assert Less(Names(all)[|all| - 1 - b], Names(all)[|all| - 1 - a]);
  }

  lemma DescendingIsUnique(all: seq<Param>, order: SortOrder, result: seq<Param>)
    requires StrictlyIncreasing(Names(all)) && multiset(result) == multiset(all) && order != ASC
    requires Ordered(Comparison(NAME, order), result)
    ensures result == Reverse(all)
  {
    var less, reversed := Comparison(NAME, order), Reverse(all);
    forall x ensures !less(x, x) { LessIsIrreflexive(x.name); }
    ReverseIsPermutation(all);
    forall a, b | 0 <= a < b < |reversed| ensures less(reversed[a], reversed[b]) {
      ReversedIsDescending(all, order, a, b);
    }
    OrderedPermutationIsUnique(less, reversed, result);
  }

  lemma {:induction false} ReverseIsPermutation(s: seq<Param>)
    ensures multiset(Reverse(s)) == multiset(s)
  {
    if s == [] {
      assert Reverse(s) == s;
    } else {
      var front, last := s[..|s| - 1], s[|s| - 1];
      ReverseIsPermutation(front);
      assert Reverse(s) == [last] + Reverse(front);
      assert s == front + [last];
    }
  }

  // From the cluster's listing to the search

  /** A query for nothing but one name finds the entry of that name. */
  lemma NameQueriesFindTheirEntry(rules: TextRules, params: seq<Param>, i: nat)
    requires StrictlyIncreasing(Names(params)) && i < |params| && params[i].name != "" && Plain(params[i].name)
    ensures Filter(rules, ByName(Quoted(params[i].name)), params) == [params[i]]
  {
    var name := params[i].name;
    var q := ByName(Quoted(name));
    var all := Filter(rules, q, params);
    QuotedStandsForItself(name);
    PlainPatternsMatchOneString(name, Quoted(name));
    FilterCounts(rules, q, params, i);
    forall a | 0 <= a < |all| ensures all[a] == params[i] {
      var k := FilterPosition(rules, q, params, a);
      PlainPatternsMatchOneString(params[k].name, Quoted(name));
      IncreasingIsInjective(Names(params), i, k);
    }
    FilterIsIncreasing(rules, q, params);
    if |all| > 1 { NeighboursDiffer(all); }
  }

  lemma NeighboursDiffer(params: seq<Param>)
    requires StrictlyIncreasing(Names(params)) && |params| > 1
    ensures params[0].name != params[1].name
  {
    LessIsIrreflexive(params[0].name);
    assert Less(Names(params)[0], Names(params)[1]);
  }

  /** The result is every parameter of the index that passes the filters, as often as it is
      there; by name it is in index order or its exact reverse. */
  ghost predicate FoundExactly(rules: TextRules, q: Query, params: seq<Param>, result: seq<Param>)
  {
    && multiset(result) == multiset(Filter(rules, q, params))
    && (Field(q) == NAME && Order(q) == ASC ==> result == Filter(rules, q, params))
    && (Field(q) == NAME && Order(q) != ASC ==> result == Reverse(Filter(rules, q, params)))
  }

  /** A service started on a cluster and asked once. If the cluster lists no name twice and its
      replies carry the names asked for, the index has exactly the listed names, every search
      of it is exact, and every listed name that can be spelt without wildcards is found by it. */
  method SearchNewIndex(base: seq<Param>, listing: Result<seq<string>>, cluster: Cluster, skipUpdate: bool,
        rules: TextRules, q: Query)
    returns (config: Result<Config>, found: seq<Param>)
    modifies cluster
    ensures config.Ok? && skipUpdate && StrictlyIncreasing(Names(base)) ==>
      config.value.params == base && FoundExactly(rules, q, base, found)
    ensures config.Ok? && !skipUpdate ==> listing.Ok?
    ensures !skipUpdate && listing.Ok? && NonDecreasing(Names(base)) ==>
      BuiltFrom(base, listing.value, cluster.reply, old(cluster.asked), config, cluster.asked)
    ensures config.Ok? && !skipUpdate && NoRepeats(listing.value) && Honest(cluster.reply) ==>
      && multiset(Names(config.value.params)) == multiset(listing.value)
      && FromSources(base, cluster.reply, config.value.params)
      && FoundExactly(rules, q, config.value.params, found)
      && (forall name :: name in listing.value && name != "" && Plain(name) && q == ByName(Quoted(name)) ==>
        |found| == 1 && found[0] in config.value.params && found[0].name == name)
  {
    config := NewConfig(base, listing, cluster, skipUpdate);
    if config.Err? { return config, []; }
    found := Search(rules, config.value, q);
    if !skipUpdate && NoRepeats(listing.value) && Honest(cluster.reply) {
      forall name | name in listing.value && name != "" && Plain(name) && q == ByName(Quoted(name))
        ensures |found| == 1 && found[0] in config.value.params && found[0].name == name
      {
        ListedNamesAreFound(rules, config.value.params, listing.value, name);
      }
    }
  }

  lemma ListedNamesAreFound(rules: TextRules, params: seq<Param>, listing: seq<string>, name: string)
    requires StrictlyIncreasing(Names(params)) && multiset(Names(params)) == multiset(listing)
    requires name in listing && name != "" && Plain(name)
    ensures exists p :: p in params && p.name == name && Filter(rules, ByName(Quoted(name)), params) == [p]
  {
    SameMembers(Names(params), listing);
    var i :| 0 <= i < |params| && Names(params)[i] == name;
    NameQueriesFindTheirEntry(rules, params, i);
    assert params[i] in params;
  }
}
