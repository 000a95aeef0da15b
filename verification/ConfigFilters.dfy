// The five filters of a search over the index, what each asks of a parameter, and what adding one
// to a query does to its results.
module ConfigFilters {
  import opened GoStrings
  import opened Sorting
  import opened Wrappers
  import opened Glob
  import opened ConfigIndex

  /** Library text functions: lower-casing, case-insensitive equality, and how an enum value
      outside the service table prints. */
  datatype TextRules = TextRules(
    lower: string -> string,
    equalFold: (string, string) -> bool,
    printService: int -> string)

  datatype SortField = NAME | TYPE | LEVEL | OtherField

  datatype SortOrder = ASC | DESC | OtherOrder

  /** level and kind are the enum values as they print. */
  datatype Query = Query(
    service: Option<int>,
    level: Option<string>,
    name: Option<string>,
    fullText: Option<string>,
    sort: Option<SortField>,
    order: Option<SortOrder>,
    kind: Option<string>)

  const SERVICE_NAMES := ["common", "mon", "mds", "osd", "mgr", "rgw", "rbd", "rbd-mirror", "immutable-object-cache",
                          "mds_client", "cephfs-mirror", "ceph-exporter"]

  function ServiceText(rules: TextRules, service: int): string
  {
    if 0 <= service < |SERVICE_NAMES| then SERVICE_NAMES[service] else rules.printService(service)
  }

  predicate Contains(s: string, sub: string)
  {
    exists i :: 0 <= i <= |s| && OccursAt(s, sub, i)
  }

  predicate OccursAt(s: string, sub: string, i: int)
  {
    0 <= i <= |s| - |sub| && s[i..i + |sub|] == sub
  }

  predicate MatchesService(rules: TextRules, info: Param, service: Option<int>)
  {
    || service.None?
    || exists i :: 0 <= i < |info.services| && rules.equalFold(info.services[i], ServiceText(rules, service.value))
  }

  predicate MatchesLevel(rules: TextRules, info: Param, level: Option<string>)
  {
    level.None? || rules.equalFold(info.level, level.value)
  }

  predicate MatchesName(info: Param, name: Option<string>)
  {
    name.None? || name.value == "" || MatchWildcard(info.name, name.value)
  }

  predicate MatchesType(rules: TextRules, info: Param, kind: Option<string>)
  {
    kind.None? || rules.equalFold(info.kind, rules.lower(kind.value))
  }

  predicate MatchesFullText(rules: TextRules, info: Param, lowered: string)
  {
    || lowered == ""
    || Contains(rules.lower(info.name), lowered) || Contains(rules.lower(info.kind), lowered)
    || Contains(rules.lower(info.level), lowered) || Contains(rules.lower(info.desc), lowered)
    || Contains(rules.lower(info.longDesc), lowered) || Contains(rules.lower(info.default), lowered)
    || Contains(rules.lower(info.daemonDefault), lowered)
    || (exists i :: 0 <= i < |info.tags| && Contains(rules.lower(info.tags[i]), lowered))
    || (exists i :: 0 <= i < |info.services| && Contains(rules.lower(info.services[i]), lowered))
  }

  function LoweredFullText(rules: TextRules, q: Query): string
  {
    if q.fullText.None? || q.fullText.value == "" then "" else rules.lower(q.fullText.value)
  }

  predicate Passes(rules: TextRules, q: Query, info: Param)
  {
    && MatchesService(rules, info, q.service)
    && MatchesLevel(rules, info, q.level)
    && MatchesName(info, q.name)
    && MatchesType(rules, info, q.kind)
    && MatchesFullText(rules, info, LoweredFullText(rules, q))
  }

  /** The full scan: the parameters passing all five filters, in index order. */
  function Filter(rules: TextRules, q: Query, params: seq<Param>): seq<Param>
  {
    if params == [] then []
    else Filter(rules, q, params[..|params| - 1]) +
         (if Passes(rules, q, params[|params| - 1]) then [params[|params| - 1]] else [])
  }

  function ByName(name: string): Query
  {
    Query(None, None, Some(name), None, None, None, None)
  }

  lemma FilterOneMore(rules: TextRules, q: Query, params: seq<Param>, i: nat)
    requires i < |params|
    ensures Filter(rules, q, params[..i + 1]) ==
            Filter(rules, q, params[..i]) + (if Passes(rules, q, params[i]) then [params[i]] else [])
  {
    assert params[..i + 1][..i] == params[..i];
  }

  /** Filtering a prefix gives a prefix of the full scan. */
  lemma {:induction false} FilterGrows(rules: TextRules, q: Query, params: seq<Param>, n: nat)
    requires n <= |params|
    ensures Filter(rules, q, params[..n]) <= Filter(rules, q, params)
    decreases |params|
  {
    if n < |params| {
      var front := params[..|params| - 1];
      FilterGrows(rules, q, front, n);
      assert front[..n] == params[..n];
    } else {
      assert params[..n] == params;
    }
  }

  /** The full scan keeps every passing parameter, as often as it occurs, and nothing else. */
  lemma {:induction false} FilterKeepsWhatPasses(rules: TextRules, q: Query, params: seq<Param>, p: Param)
    ensures multiset(Filter(rules, q, params))[p] == if Passes(rules, q, p) then multiset(params)[p] else 0
  {
    if params != [] {
      FilterKeepsWhatPasses(rules, q, params[..|params| - 1], p);
      assert params == params[..|params| - 1] + [params[|params| - 1]];
    }
  }

  /** Where two entries of the full scan stand in the index. */
  lemma {:induction false} FilterPositions(rules: TextRules, q: Query, params: seq<Param>, a: nat, b: nat)
    returns (i: nat, j: nat)
    requires a < b < |Filter(rules, q, params)|
    ensures i < j < |params| && params[i] == Filter(rules, q, params)[a] && params[j] == Filter(rules, q, params)[b]
  {
    var front := params[..|params| - 1];
    if b < |Filter(rules, q, front)| {
      i, j := FilterPositions(rules, q, front, a, b);
    } else {
      j := |params| - 1;
      i := FilterPosition(rules, q, front, a);
    }
  }

  lemma {:induction false} FilterPosition(rules: TextRules, q: Query, params: seq<Param>, a: nat) returns (i: nat)
    requires a < |Filter(rules, q, params)|
    ensures i < |params| && params[i] == Filter(rules, q, params)[a] && Passes(rules, q, params[i])
  {
    var front := params[..|params| - 1];
    if a < |Filter(rules, q, front)| { i := FilterPosition(rules, q, front, a); } else { i := |params| - 1; }
  }

  lemma {:induction false} FilterCounts(rules: TextRules, q: Query, params: seq<Param>, i: nat)
    requires i < |params| && Passes(rules, q, params[i])
    ensures |Filter(rules, q, params)| > |Filter(rules, q, params[..i])|
    decreases |params|
  {
    if i < |params| - 1 {
      var front := params[..|params| - 1];
      FilterCounts(rules, q, front, i);
      assert front[..i] == params[..i];
    }
  }

  // What the filters mean

  /** Some text around it makes part into text. */
  ghost predicate HasPart(text: string, part: string)
  {
    exists before, after :: text == before + part + after
  }

  lemma ContainsIsHasPart(text: string, part: string)
    ensures Contains(text, part) <==> HasPart(text, part)
  {
    if i :| 0 <= i <= |text| && OccursAt(text, part, i) {
      assert text == text[..i] + part + text[i + |part|..];
    }
    if before, after :| text == before + part + after {
      assert OccursAt(text, part, |before|);
    }
  }

  /** The texts a full text search looks into. */
  function Texts(p: Param): seq<string>
  {
    [p.name, p.kind, p.level, p.desc, p.longDesc, p.default, p.daemonDefault] + p.tags + p.services
  }

  ghost predicate Mentions(rules: TextRules, p: Param, lowered: string)
  {
    exists text :: text in Texts(p) && HasPart(rules.lower(text), lowered)
  }

  lemma FullTextLooksEverywhere(rules: TextRules, p: Param, lowered: string)
    ensures MatchesFullText(rules, p, lowered) <==> Mentions(rules, p, lowered)
  {
    forall text ensures Contains(rules.lower(text), lowered) <==> HasPart(rules.lower(text), lowered) {
      ContainsIsHasPart(rules.lower(text), lowered);
    }
    var fields := [p.name, p.kind, p.level, p.desc, p.longDesc, p.default, p.daemonDefault];
    assert forall text :: text in Texts(p) <==> text in fields || text in p.tags || text in p.services;
    if lowered == "" {
      var text := rules.lower(p.name);
      assert text == "" + "" + text;
      assert fields[0] in Texts(p);
    }
  }

  /** What a query asks of a parameter: each filter that is given, in its own words. */
  ghost predicate Wanted(rules: TextRules, q: Query, p: Param)
  {
    && (q.service.Some? ==> exists s :: s in p.services && rules.equalFold(s, ServiceText(rules, q.service.value)))
    && (q.level.Some? ==> rules.equalFold(p.level, q.level.value))
    && (q.name.Some? && q.name.value != "" ==> MatchWildcard(p.name, q.name.value))
    && (q.kind.Some? ==> rules.equalFold(p.kind, rules.lower(q.kind.value)))
    && (q.fullText.Some? && q.fullText.value != "" ==> Mentions(rules, p, rules.lower(q.fullText.value)))
  }

  lemma PassingIsBeingWanted(rules: TextRules, q: Query, p: Param)
    ensures Passes(rules, q, p) <==> Wanted(rules, q, p)
  {
    FullTextLooksEverywhere(rules, p, LoweredFullText(rules, q));
  }

  /** The services by number; the library prints the others. */
  lemma WhatServicesAreCalled(rules: TextRules, n: int)
    ensures ServiceText(rules, 0) == "common" && ServiceText(rules, 1) == "mon" && ServiceText(rules, 2) == "mds"
    ensures ServiceText(rules, 3) == "osd" && ServiceText(rules, 4) == "mgr" && ServiceText(rules, 5) == "rgw"
    ensures ServiceText(rules, 6) == "rbd" && ServiceText(rules, 7) == "rbd-mirror"
    ensures ServiceText(rules, 8) == "immutable-object-cache" && ServiceText(rules, 9) == "mds_client"
    ensures ServiceText(rules, 10) == "cephfs-mirror" && ServiceText(rules, 11) == "ceph-exporter"
    ensures n < 0 || n > 11 ==> ServiceText(rules, n) == rules.printService(n)
  {
  }

  // What adding a filter does

  /** The parameter occurs in the results of q' as often as in those of q if the condition holds
      of it, and not at all otherwise. */
  ghost predicate Narrows(rules: TextRules, q: Query, q': Query, params: seq<Param>, p: Param, condition: bool)
  {
    multiset(Filter(rules, q', params))[p] == if condition then multiset(Filter(rules, q, params))[p] else 0
  }

  lemma AddingACondition(rules: TextRules, q: Query, q': Query, params: seq<Param>, p: Param, condition: bool)
    requires Wanted(rules, q', p) <==> Wanted(rules, q, p) && condition
    ensures Narrows(rules, q, q', params, p, condition)
  {
    PassingIsBeingWanted(rules, q, p);
    PassingIsBeingWanted(rules, q', p);
    FilterKeepsWhatPasses(rules, q, params, p);
    FilterKeepsWhatPasses(rules, q', params, p);
  }

  lemma AddingAService(rules: TextRules, q: Query, params: seq<Param>, p: Param, service: int)
    requires q.service.None?
    ensures Narrows(rules, q, q.(service := Some(service)), params, p,
                    exists s :: s in p.services && rules.equalFold(s, ServiceText(rules, service)))
  {
    AddingACondition(rules, q, q.(service := Some(service)), params, p,
                     exists s :: s in p.services && rules.equalFold(s, ServiceText(rules, service)));
  }

  lemma AddingALevel(rules: TextRules, q: Query, params: seq<Param>, p: Param, level: string)
    requires q.level.None?
    ensures Narrows(rules, q, q.(level := Some(level)), params, p, rules.equalFold(p.level, level))
  {
    AddingACondition(rules, q, q.(level := Some(level)), params, p, rules.equalFold(p.level, level));
  }

  lemma AddingAType(rules: TextRules, q: Query, params: seq<Param>, p: Param, kind: string)
    requires q.kind.None?
    ensures Narrows(rules, q, q.(kind := Some(kind)), params, p, rules.equalFold(p.kind, rules.lower(kind)))
  {
    AddingACondition(rules, q, q.(kind := Some(kind)), params, p, rules.equalFold(p.kind, rules.lower(kind)));
  }

  lemma AddingAName(rules: TextRules, q: Query, params: seq<Param>, p: Param, name: string)
    requires q.name.None?
    ensures Narrows(rules, q, q.(name := Some(name)), params, p, name == "" || MatchWildcard(p.name, name))
  {
    AddingACondition(rules, q, q.(name := Some(name)), params, p, name == "" || MatchWildcard(p.name, name));
  }

  lemma AddingAFullText(rules: TextRules, q: Query, params: seq<Param>, p: Param, text: string)
    requires q.fullText.None?
    ensures Narrows(rules, q, q.(fullText := Some(text)), params, p,
                    text == "" || Mentions(rules, p, rules.lower(text)))
  {
    AddingACondition(rules, q, q.(fullText := Some(text)), params, p,
                     text == "" || Mentions(rules, p, rules.lower(text)));
  }

  /** A query without filters finds the whole index, in order. */
  lemma {:induction false} NoFilterFindsAll(rules: TextRules, q: Query, params: seq<Param>)
    requires q.service.None? && q.level.None? && q.name.None? && q.fullText.None? && q.kind.None?
    ensures Filter(rules, q, params) == params
  {
    if params != [] {
      NoFilterFindsAll(rules, q, params[..|params| - 1]);
      PassingIsBeingWanted(rules, q, params[|params| - 1]);
    }
  }
}
