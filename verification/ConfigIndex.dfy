// Building the index of configuration parameters: the shipped list merged with the names the
// cluster reports, fetching what is new.
module ConfigIndex {
  import opened GoStrings
  import opened Sorting
  import opened Wrappers

  /** Default, daemonDefault, min and max are the values as they print. */
  datatype Param = Param(
    name: string,
    kind: string,
    level: string,
    desc: string,
    longDesc: string,
    default: string,
    daemonDefault: string,
    tags: seq<string>,
    services: seq<string>,
    seeAlso: seq<string>,
    enumValues: seq<string>,
    min: string,
    max: string,
    canUpdateAtRuntime: bool,
    flags: seq<string>)

  /** The cluster's "config help" command. What it replies may depend on how often it was
      asked; asked is the trace of its calls. */
  class Cluster {
    const reply: (nat, string) -> Result<Param>
    var asked: seq<string>

    constructor (reply: (nat, string) -> Result<Param>)
      ensures this.reply == reply && asked == []
    {
      this.reply, asked := reply, [];
    }

    method Fetch(name: string) returns (r: Result<Param>)
      modifies this
      ensures asked == old(asked) + [name]
      ensures r == reply(|old(asked)|, name)
    {
      r := reply(|asked|, name);
      asked := asked + [name];
    }
  }

  function Names(params: seq<Param>): seq<string>
  {
    seq(|params|, i requires 0 <= i < |params| => params[i].name)
  }

  /** Sorted, with repetitions allowed. */
  ghost predicate NonDecreasing(s: seq<string>)
  {
    forall i, j :: 0 <= i < j < |s| ==> !Less(s[j], s[i])
  }

  // What the merge is for, by counting instead of by two pointers

  /** How many names of a list are below x. */
  function CountBelow(s: seq<string>, x: string): nat
  {
    if s == [] then 0 else (if Less(s[|s| - 1], x) then 1 else 0) + CountBelow(s[..|s| - 1], x)
  }

  function CountOf(s: seq<string>, x: string): nat
  {
    if s == [] then 0 else (if s[|s| - 1] == x then 1 else 0) + CountOf(s[..|s| - 1], x)
  }

  /** Where the base list has its entry for the j-th cluster name: the k-th occurrence of a
      name in the cluster list belongs to the k-th entry of that name in the base list. */
  function Home(base: seq<string>, cluster: seq<string>, j: nat): nat
    requires j < |cluster|
  {
    CountBelow(base, cluster[j]) + CountOf(cluster[..j], cluster[j])
  }

  predicate Kept(base: seq<string>, cluster: seq<string>, j: nat)
    requires j < |cluster|
  {
    Home(base, cluster, j) < |base| && base[Home(base, cluster, j)] == cluster[j]
  }

  /** The names among the first n of the cluster list that have to be asked for, in order. */
  function Asked(base: seq<string>, cluster: seq<string>, n: nat): seq<string>
    requires n <= |cluster|
  {
    if n == 0 then []
    else Asked(base, cluster, n - 1) + (if Kept(base, cluster, n - 1) then [] else [cluster[n - 1]])
  }

  /** The reply the j-th cluster name gets if it is asked for, the calls before the merge being n0. */
  function ReplyFor(base: seq<string>, cluster: seq<string>, reply: (nat, string) -> Result<Param>, n0: nat,
        j: nat): Result<Param>
    requires j < |cluster|
  {
    reply(n0 + |Asked(base, cluster, j)|, cluster[j])
  }

  /** The entry the merged list has to hold for the j-th cluster name. */
  ghost predicate RightEntry(base: seq<Param>, cluster: seq<string>, reply: (nat, string) -> Result<Param>, n0: nat,
        j: nat, e: Param)
    requires j < |cluster|
  {
    if Kept(Names(base), cluster, j) then e == base[Home(Names(base), cluster, j)]
    else ReplyFor(Names(base), cluster, reply, n0, j) == Ok(e)
  }

  /** The list holds the right entries for the first cluster names. */
  ghost predicate RightEntries(base: seq<Param>, cluster: seq<string>, reply: (nat, string) -> Result<Param>,
        n0: nat, list: seq<Param>)
  {
    && |list| <= |cluster|
    && forall j :: 0 <= j < |list| ==> RightEntry(base, cluster, reply, n0, j, list[j])
  }

  /** The k-th cluster name gets an entry. */
  ghost predicate Settles(base: seq<Param>, cluster: seq<string>, reply: (nat, string) -> Result<Param>, n0: nat,
        k: nat)
    requires k < |cluster|
  {
    Kept(Names(base), cluster, k) || ReplyFor(Names(base), cluster, reply, n0, k).Ok?
  }

  /** Cluster name j is the first whose fetch fails. */
  ghost predicate FirstFailure(base: seq<Param>, cluster: seq<string>, reply: (nat, string) -> Result<Param>,
        n0: nat, j: nat, e: Error)
  {
    && j < |cluster|
    && !Kept(Names(base), cluster, j) && ReplyFor(Names(base), cluster, reply, n0, j) == Err(e)
    && forall k :: 0 <= k < j ==> Settles(base, cluster, reply, n0, k)
  }

  /** The merge gave up on a failed fetch, having asked the names without a home up to that one. */
  ghost predicate StoppedAtFirstFailure(base: seq<Param>, cluster: seq<string>, reply: (nat, string) -> Result<Param>,
                                        asked0: seq<string>, asked: seq<string>, e: Error)
  {
    exists j: nat ::
      FirstFailure(base, cluster, reply, |asked0|, j, e) && asked == asked0 + Asked(Names(base), cluster, j + 1)
  }

  lemma {:induction false} CountBelowSplits(s: seq<string>, x: string)
    requires NonDecreasing(s)
    ensures CountBelow(s, x) <= |s|
    ensures forall k :: 0 <= k < |s| ==> (k < CountBelow(s, x) <==> Less(s[k], x))
  {
    if s != [] {
      var front, last := s[..|s| - 1], s[|s| - 1];
      CountBelowSplits(front, x);
      if Less(last, x) {
        forall k | 0 <= k < |front| ensures Less(front[k], x) {
          LessIsTotal(front[k], last);
          if Less(s[k], last) { LessIsTransitive(s[k], last, x); }
        }
        if |front| > 0 { assert Less(front[|front| - 1], x); }
      }
    }
  }

  /** The pointer into the base list, seen from cluster name j: it has not passed the home of
      j, and it skipped no entry of that name. */
  ghost predicate PointerAt(base: seq<string>, cluster: seq<string>, i: nat, j: nat)
    requires j <= |cluster|
  {
    j < |cluster| ==>
      && i <= Home(base, cluster, j)
      && (forall k :: i <= k < Home(base, cluster, j) && k < |base| ==> base[k] != cluster[j])
      && (forall k :: 0 <= k < i && k < |base| ==> !Less(cluster[j], base[k]))
  }

  lemma PointerStart(base: seq<string>, cluster: seq<string>)
    requires NonDecreasing(base)
    ensures PointerAt(base, cluster, 0, 0)
  {
    if cluster != [] {
      CountBelowSplits(base, cluster[0]);
      LessIsIrreflexive(cluster[0]);
      assert Home(base, cluster, 0) == CountBelow(base, cluster[0]);
    }
  }

  /** A base entry below the current name is skipped. */
  lemma PointerSkips(base: seq<string>, cluster: seq<string>, i: nat, j: nat)
    requires NonDecreasing(base) && i < |base| && j < |cluster| && PointerAt(base, cluster, i, j)
    requires Less(base[i], cluster[j])
    ensures PointerAt(base, cluster, i + 1, j)
  {
    CountBelowSplits(base, cluster[j]);
    LessIsIrreflexive(cluster[j]);
    if Less(cluster[j], base[i]) { LessIsTransitive(cluster[j], base[i], cluster[j]); }
  }

  /** An entry equal to the current name is its home. */
  lemma PointerMatches(base: seq<string>, cluster: seq<string>, i: nat, j: nat)
    requires NonDecreasing(base) && i < |base| && j < |cluster| && PointerAt(base, cluster, i, j)
    requires base[i] == cluster[j]
    ensures Home(base, cluster, j) == i && Kept(base, cluster, j)
  {
  }

  /** With the pointer past every entry, or at one above the current name, the name has no home. */
  lemma PointerMisses(base: seq<string>, cluster: seq<string>, i: nat, j: nat)
    requires NonDecreasing(base) && i <= |base| && j < |cluster| && PointerAt(base, cluster, i, j)
    requires i == |base| || Less(cluster[j], base[i])
    ensures !Kept(base, cluster, j)
  {
    var h := Home(base, cluster, j);
    if i <= h < |base| { NotAboveThere(base, i, h, cluster[j]); }
  }

  lemma NotAboveThere(base: seq<string>, i: nat, h: nat, x: string)
    requires NonDecreasing(base) && i <= h < |base| && Less(x, base[i])
    ensures base[h] != x
  {
    LessIsIrreflexive(x);
  }

  /** On to the next name, past its own entry if it had one. */
  lemma PointerAdvances(base: seq<string>, cluster: seq<string>, i: nat, j: nat)
    requires NonDecreasing(base) && NonDecreasing(cluster)
    requires i <= |base| && j < |cluster| && PointerAt(base, cluster, i, j)
    requires !Kept(base, cluster, j) || (i < |base| && base[i] == cluster[j])
    ensures PointerAt(base, cluster, if Kept(base, cluster, j) then i + 1 else i, j + 1)
  {
    var next := if Kept(base, cluster, j) then i + 1 else i;
    if j + 1 < |cluster| {
      if cluster[j] == cluster[j + 1] {
        PointerAtSameName(base, cluster, i, next, j);
      } else {
        LessIsIrreflexive(cluster[j]);
        PointerAtNewName(base, cluster, next, j + 1);
      }
    }
  }

  /** The home of a repeated name is one further on. */
  lemma NextHome(base: seq<string>, cluster: seq<string>, j: nat)
    requires j + 1 < |cluster| && cluster[j] == cluster[j + 1]
    ensures Home(base, cluster, j + 1) == Home(base, cluster, j) + 1
  {
    assert cluster[..j + 1][..j] == cluster[..j];
  }

  lemma PointerAtSameName(base: seq<string>, cluster: seq<string>, i: nat, next: nat, j: nat)
    requires i <= |base| && j + 1 < |cluster| && cluster[j] == cluster[j + 1] && PointerAt(base, cluster, i, j)
    requires if Kept(base, cluster, j) then next == i + 1 <= |base| && base[i] == cluster[j] else next == i
    ensures PointerAt(base, cluster, next, j + 1)
  {
    NextHome(base, cluster, j);
    LessIsIrreflexive(cluster[j]);
  }

  /** A pointer that has passed only entries up to the previous name is fine for a new one. */
  lemma PointerAtNewName(base: seq<string>, cluster: seq<string>, i: nat, j: nat)
    requires NonDecreasing(base) && NonDecreasing(cluster) && i <= |base| && 0 < j < |cluster|
    requires cluster[j - 1] != cluster[j]
    requires forall k :: 0 <= k < i ==> !Less(cluster[j - 1], base[k])
    ensures PointerAt(base, cluster, i, j)
  {
    var x, y := cluster[j - 1], cluster[j];
    LessIsTotal(x, y);
    NoneAbove(cluster, j);
    CountBelowSplits(base, y);
    LessIsIrreflexive(y);
    forall k | 0 <= k < i ensures Less(base[k], y) && !Less(y, base[k]) {
      LessIsTotal(x, base[k]);
      if Less(base[k], x) { LessIsTransitive(base[k], x, y); }
      if Less(y, base[k]) { LessIsTransitive(y, base[k], y); }
    }
    if i > 0 { assert Less(base[i - 1], y); }
  }

  /** Before a new name in a sorted list there is no occurrence of it. */
  lemma NoneAbove(cluster: seq<string>, j: nat)
    requires NonDecreasing(cluster) && 0 < j < |cluster| && Less(cluster[j - 1], cluster[j])
    ensures CountOf(cluster[..j], cluster[j]) == 0
  {
    forall k | 0 <= k < j ensures cluster[k] != cluster[j] {
      if k < j - 1 { assert !Less(cluster[j - 1], cluster[k]); }
      LessIsIrreflexive(cluster[j]);
    }
    NotThere(cluster[..j], cluster[j]);
  }

  lemma {:induction false} NotThere(s: seq<string>, x: string)
    requires forall k :: 0 <= k < |s| ==> s[k] != x
    ensures CountOf(s, x) == 0
  {
    if s != [] { NotThere(s[..|s| - 1], x); }
  }

  /** The merge has dealt with the first j cluster names and the first i base entries. */
  ghost predicate Progress(base: seq<Param>, cluster: seq<string>, reply: (nat, string) -> Result<Param>,
                           asked0: seq<string>, asked: seq<string>, i: nat, j: nat, result: seq<Param>)
  {
    && i <= |base| && j <= |cluster| && |result| == j
    && PointerAt(Names(base), cluster, i, j)
    && asked == asked0 + Asked(Names(base), cluster, j)
    && RightEntries(base, cluster, reply, |asked0|, result)
  }

  ghost predicate SortedInputs(base: seq<Param>, cluster: seq<string>)
  {
    NonDecreasing(Names(base)) && NonDecreasing(cluster)
  }

  lemma ProgressStart(base: seq<Param>, cluster: seq<string>, reply: (nat, string) -> Result<Param>,
        asked0: seq<string>)
    requires SortedInputs(base, cluster)
    ensures Progress(base, cluster, reply, asked0, asked0, 0, 0, [])
  {
    PointerStart(Names(base), cluster);
  }

  lemma ProgressEnd(base: seq<Param>, cluster: seq<string>, reply: (nat, string) -> Result<Param>,
                    asked0: seq<string>, asked: seq<string>, i: nat, result: seq<Param>)
    requires Progress(base, cluster, reply, asked0, asked, i, |cluster|, result)
    ensures RightEntries(base, cluster, reply, |asked0|, result)
    ensures asked == asked0 + Asked(Names(base), cluster, |cluster|)
  {
  }

  lemma KeepOne(base: seq<Param>, cluster: seq<string>, reply: (nat, string) -> Result<Param>,
                asked0: seq<string>, asked: seq<string>, i: nat, j: nat, result: seq<Param>)
    requires SortedInputs(base, cluster) && Progress(base, cluster, reply, asked0, asked, i, j, result)
    requires i < |base| && j < |cluster| && base[i].name == cluster[j]
    ensures Progress(base, cluster, reply, asked0, asked, i + 1, j + 1, result + [base[i]])
  {
    PointerMatches(Names(base), cluster, i, j);
    PointerAdvances(Names(base), cluster, i, j);
    OneMoreRightEntry(base, cluster, reply, |asked0|, result, base[i]);
  }

  lemma SkipOne(base: seq<Param>, cluster: seq<string>, reply: (nat, string) -> Result<Param>,
                asked0: seq<string>, asked: seq<string>, i: nat, j: nat, result: seq<Param>)
    requires SortedInputs(base, cluster) && Progress(base, cluster, reply, asked0, asked, i, j, result)
    requires i < |base| && j < |cluster| && base[i].name != cluster[j] && !Less(cluster[j], base[i].name)
    ensures Progress(base, cluster, reply, asked0, asked, i + 1, j, result)
  {
    LessIsTotal(base[i].name, cluster[j]);
    PointerSkips(Names(base), cluster, i, j);
  }

  lemma FetchOne(base: seq<Param>, cluster: seq<string>, reply: (nat, string) -> Result<Param>,
                 asked0: seq<string>, asked: seq<string>, i: nat, j: nat, result: seq<Param>)
    requires SortedInputs(base, cluster) && Progress(base, cluster, reply, asked0, asked, i, j, result)
    requires j < |cluster| && (i == |base| || Less(cluster[j], base[i].name))
    ensures match reply(|asked|, cluster[j])
      case Ok(e) => Progress(base, cluster, reply, asked0, asked + [cluster[j]], i, j + 1, result + [e])
      case Err(e) => StoppedAtFirstFailure(base, cluster, reply, asked0, asked + [cluster[j]], e)
  {
    PointerMisses(Names(base), cluster, i, j);
    PointerAdvances(Names(base), cluster, i, j);
    CallForAMissingName(Names(base), cluster, reply, asked0, j);
    match reply(|asked|, cluster[j])
    case Ok(e) => OneMoreRightEntry(base, cluster, reply, |asked0|, result, e);
    case Err(e) => FailureAfterRightEntries(base, cluster, reply, |asked0|, result, e);
  }

  lemma CallForAMissingName(base: seq<string>, cluster: seq<string>, reply: (nat, string) -> Result<Param>,
        asked0: seq<string>, j: nat)
    requires j < |cluster| && !Kept(base, cluster, j)
    ensures var asked := asked0 + Asked(base, cluster, j);
      && asked + [cluster[j]] == asked0 + Asked(base, cluster, j + 1)
      && ReplyFor(base, cluster, reply, |asked0|, j) == reply(|asked|, cluster[j])
  {
  }

  lemma OneMoreRightEntry(base: seq<Param>, cluster: seq<string>, reply: (nat, string) -> Result<Param>, n0: nat,
        list: seq<Param>, e: Param)
    requires RightEntries(base, cluster, reply, n0, list) && |list| < |cluster|
    requires RightEntry(base, cluster, reply, n0, |list|, e)
    ensures RightEntries(base, cluster, reply, n0, list + [e])
  {
  }

  lemma FailureAfterRightEntries(base: seq<Param>, cluster: seq<string>, reply: (nat, string) -> Result<Param>,
        n0: nat, list: seq<Param>, e: Error)
    requires RightEntries(base, cluster, reply, n0, list) && |list| < |cluster|
    requires !Kept(Names(base), cluster, |list|) && ReplyFor(Names(base), cluster, reply, n0, |list|) == Err(e)
    ensures FirstFailure(base, cluster, reply, n0, |list|, e)
  {
    forall k | 0 <= k < |list| ensures Settles(base, cluster, reply, n0, k) {
      assert RightEntry(base, cluster, reply, n0, k, list[k]);
    }
  }

  // Names and sources, sorted inputs or not

  /** Every successful reply carries the name it was asked for. */
  ghost predicate Honest(reply: (nat, string) -> Result<Param>)
  {
    forall n, x :: reply(n, x).Ok? ==> reply(n, x).value.name == x
  }

  /** Where the index came from: the entry of the base list or a reply of the cluster. */
  ghost predicate FromSources(base: seq<Param>, reply: (nat, string) -> Result<Param>, list: seq<Param>)
  {
    forall e :: e in list ==> e in base || exists n :: reply(n, e.name) == Ok(e)
  }

  /** e is a base entry of that name, or was fetched for it. */
  ghost predicate Originates(base: seq<Param>, reply: (nat, string) -> Result<Param>, name: string, e: Param)
  {
    (e in base && e.name == name) || exists n :: reply(n, name) == Ok(e)
  }

  ghost predicate AllOriginate(base: seq<Param>, names: seq<string>, reply: (nat, string) -> Result<Param>,
        list: seq<Param>)
  {
    |list| <= |names| && forall k :: 0 <= k < |list| ==> Originates(base, reply, names[k], list[k])
  }

  lemma HonestMergeHasTheNames(base: seq<Param>, names: seq<string>, reply: (nat, string) -> Result<Param>,
        list: seq<Param>)
    requires AllOriginate(base, names, reply, list) && |list| == |names| && Honest(reply)
    ensures Names(list) == names && FromSources(base, reply, list)
  {
    forall k | 0 <= k < |list| ensures list[k].name == names[k] {
      assert Originates(base, reply, names[k], list[k]);
    }
  }

  // The merge

  /** The merge between two turns of its loops: the calls made, the pointers and the list so
      far; or its outcome and the calls made by then. */
  datatype MergeState =
    | Merging(asked: seq<string>, i: nat, j: nat, list: seq<Param>)
    | Ended(asked: seq<string>, res: Result<seq<Param>>)
  {
    predicate InRange(base: seq<Param>, names: seq<string>)
    {
      Merging? ==> i <= |base| && j <= |names|
    }
  }

  /** One turn of the loops, or the return after them. */
  function Advance(base: seq<Param>, names: seq<string>, reply: (nat, string) -> Result<Param>, m: MergeState):
      (m': MergeState)
    requires m.Merging? && m.InRange(base, names)
    ensures m'.InRange(base, names)
    ensures m'.Merging? ==> m.i <= m'.i && m.j <= m'.j && m.i + m.j < m'.i + m'.j
  {
    if m.j == |names| then Ended(m.asked, Ok(m.list))
    else if m.i < |base| && base[m.i].name == names[m.j] then
      Merging(m.asked, m.i + 1, m.j + 1, m.list + [base[m.i]])
    else if m.i < |base| && !Less(names[m.j], base[m.i].name) then
      Merging(m.asked, m.i + 1, m.j, m.list)
    else
      match reply(|m.asked|, names[m.j])
      case Err(e) => Ended(m.asked + [names[m.j]], Err(e))
      case Ok(e) => Merging(m.asked + [names[m.j]], m.i, m.j + 1, m.list + [e])
  }

  /** Where the loops end from there on. */
  function MergeFrom(base: seq<Param>, names: seq<string>, reply: (nat, string) -> Result<Param>, m: MergeState):
      MergeState
    requires m.InRange(base, names)
    decreases if m.Ended? then 0 else |base| - m.i + |names| - m.j + 1
  {
    if m.Ended? then m else MergeFrom(base, names, reply, Advance(base, names, reply, m))
  }

  /** Every entry so far, or of the returned list, has its origin. */
  ghost predicate OriginsKnown(base: seq<Param>, names: seq<string>, reply: (nat, string) -> Result<Param>,
        m: MergeState)
  {
    match m
    case Merging(_, _, j, list) => |list| == j && AllOriginate(base, names, reply, list)
    case Ended(_, res) => res.Ok? ==> |res.value| == |names| && AllOriginate(base, names, reply, res.value)
  }

  lemma AdvanceKeepsOrigins(base: seq<Param>, names: seq<string>, reply: (nat, string) -> Result<Param>,
        m: MergeState)
    requires m.Merging? && m.InRange(base, names) && OriginsKnown(base, names, reply, m)
    ensures OriginsKnown(base, names, reply, Advance(base, names, reply, m))
  {
    if m.j < |names| && reply(|m.asked|, names[m.j]).Ok? {
      assert Originates(base, reply, names[m.j], reply(|m.asked|, names[m.j]).value);
    }
  }

  lemma {:induction false} MergeKnowsItsOrigins(base: seq<Param>, names: seq<string>,
        reply: (nat, string) -> Result<Param>, m: MergeState)
    requires m.InRange(base, names) && OriginsKnown(base, names, reply, m)
    ensures MergeFrom(base, names, reply, m).Ended?
    ensures OriginsKnown(base, names, reply, MergeFrom(base, names, reply, m))
    decreases if m.Ended? then 0 else |base| - m.i + |names| - m.j + 1
  {
    if m.Merging? {
      AdvanceKeepsOrigins(base, names, reply, m);
      MergeKnowsItsOrigins(base, names, reply, Advance(base, names, reply, m));
    }
  }

  /** The outcome of the merge, by counting alone. */
  ghost predicate RightOutcome(base: seq<Param>, names: seq<string>, reply: (nat, string) -> Result<Param>,
        asked0: seq<string>, res: Result<seq<Param>>, asked: seq<string>)
  {
    match res
    case Ok(list) =>
      && |list| == |names| && RightEntries(base, names, reply, |asked0|, list)
      && asked == asked0 + Asked(Names(base), names, |names|)
    case Err(e) => StoppedAtFirstFailure(base, names, reply, asked0, asked, e)
  }

  /** On the way to the right outcome. */
  ghost predicate OnTrack(base: seq<Param>, names: seq<string>, reply: (nat, string) -> Result<Param>,
        asked0: seq<string>, m: MergeState)
  {
    match m
    case Merging(asked, i, j, list) => Progress(base, names, reply, asked0, asked, i, j, list)
    case Ended(asked, res) => RightOutcome(base, names, reply, asked0, res, asked)
  }

  lemma ReadingStaysOnTrack(base: seq<Param>, names: seq<string>, reply: (nat, string) -> Result<Param>,
        asked0: seq<string>, m: MergeState)
    requires SortedInputs(base, names)
    requires m.Merging? && m.InRange(base, names) && OnTrack(base, names, reply, asked0, m)
    requires m.i < |base| && m.j < |names| && !Less(names[m.j], base[m.i].name)
    ensures OnTrack(base, names, reply, asked0, Advance(base, names, reply, m))
  {
    if base[m.i].name == names[m.j] {
      KeepOne(base, names, reply, asked0, m.asked, m.i, m.j, m.list);
    } else {
      SkipOne(base, names, reply, asked0, m.asked, m.i, m.j, m.list);
    }
  }

  lemma FetchingStaysOnTrack(base: seq<Param>, names: seq<string>, reply: (nat, string) -> Result<Param>,
        asked0: seq<string>, m: MergeState)
    requires SortedInputs(base, names)
    requires m.Merging? && m.InRange(base, names) && OnTrack(base, names, reply, asked0, m)
    requires m.j < |names| && (m.i == |base| || Less(names[m.j], base[m.i].name))
    ensures OnTrack(base, names, reply, asked0, Advance(base, names, reply, m))
  {
    LessIsIrreflexive(names[m.j]);
    FetchOne(base, names, reply, asked0, m.asked, m.i, m.j, m.list);
  }

  lemma AdvanceStaysOnTrack(base: seq<Param>, names: seq<string>, reply: (nat, string) -> Result<Param>,
        asked0: seq<string>, m: MergeState)
    requires SortedInputs(base, names)
    requires m.Merging? && m.InRange(base, names) && OnTrack(base, names, reply, asked0, m)
    ensures OnTrack(base, names, reply, asked0, Advance(base, names, reply, m))
  {
    if m.j == |names| {
      ProgressEnd(base, names, reply, asked0, m.asked, m.i, m.list);
    } else if m.i == |base| || Less(names[m.j], base[m.i].name) {
      FetchingStaysOnTrack(base, names, reply, asked0, m);
    } else {
      ReadingStaysOnTrack(base, names, reply, asked0, m);
    }
  }

  lemma {:induction false} MergeHasTheRightOutcome(base: seq<Param>, names: seq<string>,
        reply: (nat, string) -> Result<Param>, asked0: seq<string>, m: MergeState)
    requires SortedInputs(base, names) && m.InRange(base, names) && OnTrack(base, names, reply, asked0, m)
    ensures MergeFrom(base, names, reply, m).Ended?
    ensures OnTrack(base, names, reply, asked0, MergeFrom(base, names, reply, m))
    decreases if m.Ended? then 0 else |base| - m.i + |names| - m.j + 1
  {
    if m.Merging? {
      AdvanceStaysOnTrack(base, names, reply, asked0, m);
      MergeHasTheRightOutcome(base, names, reply, asked0, Advance(base, names, reply, m));
    }
  }

  lemma WholeMerge(base: seq<Param>, names: seq<string>, reply: (nat, string) -> Result<Param>, asked0: seq<string>)
    ensures var end := MergeFrom(base, names, reply, Merging(asked0, 0, 0, []));
      && end.Ended?
      && (end.res.Ok? ==> |end.res.value| == |names| && AllOriginate(base, names, reply, end.res.value))
      && (end.res.Ok? && Honest(reply) ==> Names(end.res.value) == names && FromSources(base, reply, end.res.value))
      && (SortedInputs(base, names) ==> RightOutcome(base, names, reply, asked0, end.res, end.asked))
  {
    var start := Merging(asked0, 0, 0, []);
    var end := MergeFrom(base, names, reply, start);
    MergeKnowsItsOrigins(base, names, reply, start);
    if end.res.Ok? && Honest(reply) { HonestMergeHasTheNames(base, names, reply, end.res.value); }
    if SortedInputs(base, names) {
      ProgressStart(base, names, reply, asked0);
      MergeHasTheRightOutcome(base, names, reply, asked0, start);
    }
  }

  /** The two-pointer merge. Whatever the inputs, a returned list is as long as the cluster
      list and holds for each of its names an entry of that name in the base list or one fetched
      for it; so with honest replies it has the cluster's names, in order. On sorted inputs it
      holds for every cluster name its right entry, found by counting alone, and the callback
      was asked exactly the names without a home, in order; it fails exactly when one of these
      fetches fails, right after the first that does. */
  method MergeParams(base: seq<Param>, names: seq<string>, cluster: Cluster) returns (res: Result<seq<Param>>)
    modifies cluster
    ensures res.Ok? ==> |res.value| == |names| && AllOriginate(base, names, cluster.reply, res.value)
    ensures res.Ok? && Honest(cluster.reply) ==>
      Names(res.value) == names && FromSources(base, cluster.reply, res.value)
    ensures SortedInputs(base, names) ==>
      RightOutcome(base, names, cluster.reply, old(cluster.asked), res, cluster.asked)
  {
    ghost var asked0 := cluster.asked;
    ghost var end := MergeFrom(base, names, cluster.reply, Merging(asked0, 0, 0, []));
    var result: seq<Param> := [];
    var i, j := 0, 0;
    while i < |base| && j < |names|
      invariant 0 <= i <= |base| && 0 <= j <= |names|
      invariant end == MergeFrom(base, names, cluster.reply, Merging(cluster.asked, i, j, result))
      decreases |base| - i + |names| - j
    {
      var a, b := base[i].name, names[j];
      if a == b {
        result := result + [base[i]];
        i, j := i + 1, j + 1;
      } else if Less(b, a) {
        var fetched := cluster.Fetch(b);
        if fetched.Err? {
          WholeMerge(base, names, cluster.reply, asked0);
          return Err(fetched.error);
        }
        result := result + [fetched.value];
        j := j + 1;
      } else {
        i := i + 1;
      }
    }
    while j < |names|
      invariant 0 <= j <= |names|
      invariant j < |names| ==> i == |base|
      invariant end == MergeFrom(base, names, cluster.reply, Merging(cluster.asked, i, j, result))
    {
      var fetched := cluster.Fetch(names[j]);
      if fetched.Err? {
        WholeMerge(base, names, cluster.reply, asked0);
        return Err(fetched.error);
      }
      result := result + [fetched.value];
      j := j + 1;
    }
    WholeMerge(base, names, cluster.reply, asked0);
    return Ok(result);
  }

  // Strictly increasing inputs: the merge is a plain lookup

  lemma IncreasingIsNonDecreasing(s: seq<string>)
    requires StrictlyIncreasing(s)
    ensures NonDecreasing(s)
  {
    forall i, j | 0 <= i < j < |s| ensures !Less(s[j], s[i]) {
      LessIsIrreflexive(s[i]);
      if Less(s[j], s[i]) { LessIsTransitive(s[i], s[j], s[i]); }
    }
  }

  lemma NotAfter(s: seq<string>, c: nat, i: nat)
    requires StrictlyIncreasing(s) && c < |s| && i < |s| && !Less(s[c], s[i])
    ensures i <= c
  {
  }

  lemma {:induction false} CountOfIncreasing(s: seq<string>, x: string)
    requires StrictlyIncreasing(s) && x in s
    ensures CountBelow(s, x) < |s| && s[CountBelow(s, x)] == x
  {
    var i :| 0 <= i < |s| && s[i] == x;
    IncreasingIsNonDecreasing(s);
    CountBelowSplits(s, x);
    LessIsIrreflexive(x);
    var c := CountBelow(s, x);
    assert i < c <==> Less(s[i], x);
    NotAfter(s, c, i);
  }

  /** On strictly increasing lists a name is kept exactly when the base has it. */
  lemma StrictlyKept(base: seq<string>, cluster: seq<string>, j: nat)
    requires StrictlyIncreasing(base) && StrictlyIncreasing(cluster) && j < |cluster|
    ensures Kept(base, cluster, j) <==> cluster[j] in base
  {
    LessIsIrreflexive(cluster[j]);
    NotThere(cluster[..j], cluster[j]);
    if cluster[j] in base { CountOfIncreasing(base, cluster[j]); }
  }

  lemma IncreasingIsInjective(s: seq<string>, a: nat, b: nat)
    requires StrictlyIncreasing(s) && a < |s| && b < |s| && s[a] == s[b]
    ensures a == b
  {
    LessIsIrreflexive(s[a]);
  }

  lemma LookupFinds(base: seq<Param>, cluster: seq<string>, j: nat, i: nat)
    requires StrictlyIncreasing(Names(base)) && StrictlyIncreasing(cluster) && j < |cluster|
    requires i < |base| && base[i].name == cluster[j]
    ensures Kept(Names(base), cluster, j) && Home(Names(base), cluster, j) == i
  {
    var names := Names(base);
    assert names[i] == cluster[j];
    StrictlyKept(names, cluster, j);
    IncreasingIsInjective(names, Home(names, cluster, j), i);
  }

  lemma KnownNamesKeepTheirEntry(base: seq<Param>, cluster: seq<string>, reply: (nat, string) -> Result<Param>,
        n0: nat, j: nat, e: Param, i: nat)
    requires StrictlyIncreasing(Names(base)) && StrictlyIncreasing(cluster) && j < |cluster|
    requires RightEntry(base, cluster, reply, n0, j, e) && i < |base| && base[i].name == cluster[j]
    ensures e == base[i]
  {
    LookupFinds(base, cluster, j, i);
  }

  lemma NewNamesAreFetched(base: seq<Param>, cluster: seq<string>, reply: (nat, string) -> Result<Param>, n0: nat,
        j: nat, e: Param)
    requires StrictlyIncreasing(Names(base)) && StrictlyIncreasing(cluster) && j < |cluster|
    requires RightEntry(base, cluster, reply, n0, j, e) && cluster[j] !in Names(base)
    ensures ReplyFor(Names(base), cluster, reply, n0, j) == Ok(e)
  {
    StrictlyKept(Names(base), cluster, j);
  }

  /** There the merged list is a lookup by name: the entry of the base list that has the name,
      and what the cluster replied for it if there is none. */
  lemma StrictMergeIsLookup(base: seq<Param>, cluster: seq<string>, reply: (nat, string) -> Result<Param>, n0: nat,
        list: seq<Param>, j: nat)
    requires StrictlyIncreasing(Names(base)) && StrictlyIncreasing(cluster)
    requires RightEntries(base, cluster, reply, n0, list) && j < |list|
    ensures forall i :: 0 <= i < |base| && base[i].name == cluster[j] ==> list[j] == base[i]
    ensures cluster[j] !in Names(base) ==> ReplyFor(Names(base), cluster, reply, n0, j) == Ok(list[j])
  {
    assert RightEntry(base, cluster, reply, n0, j, list[j]);
    forall i | 0 <= i < |base| && base[i].name == cluster[j] ensures list[j] == base[i] {
      KnownNamesKeepTheirEntry(base, cluster, reply, n0, j, list[j], i);
    }
    if cluster[j] !in Names(base) { NewNamesAreFetched(base, cluster, reply, n0, j, list[j]); }
  }

  lemma {:induction false} AskedAreUnkept(base: seq<string>, cluster: seq<string>, n: nat, x: string) returns (j: nat)
    requires n <= |cluster| && x in Asked(base, cluster, n)
    ensures j < n && cluster[j] == x && !Kept(base, cluster, j)
  {
    if x in Asked(base, cluster, n - 1) { j := AskedAreUnkept(base, cluster, n - 1, x); } else { j := n - 1; }
  }

  lemma {:induction false} UnkeptAreAsked(base: seq<string>, cluster: seq<string>, n: nat, j: nat)
    requires j < n <= |cluster| && !Kept(base, cluster, j)
    ensures cluster[j] in Asked(base, cluster, n)
  {
    if j < n - 1 { UnkeptAreAsked(base, cluster, n - 1, j); }
  }

  lemma AskedAreTheMissing(base: seq<string>, cluster: seq<string>, n: nat, x: string)
    requires StrictlyIncreasing(base) && StrictlyIncreasing(cluster) && n <= |cluster|
    ensures x in Asked(base, cluster, n) <==> x in cluster[..n] && x !in base
  {
    if x in Asked(base, cluster, n) {
      var j := AskedAreUnkept(base, cluster, n, x);
      StrictlyKept(base, cluster, j);
      assert cluster[..n][j] == x;
    } else if j: nat :| j < |cluster[..n]| && cluster[..n][j] == x {
      StrictlyKept(base, cluster, j);
      if x !in base { UnkeptAreAsked(base, cluster, n, j); }
    }
  }

  lemma AppendKeepsIncreasing(s: seq<string>, x: string)
    requires StrictlyIncreasing(s) && forall y :: y in s ==> Less(y, x)
    ensures StrictlyIncreasing(s + [x])
  {
  }

  lemma {:induction false} AskedIsIncreasing(base: seq<string>, cluster: seq<string>, n: nat)
    requires StrictlyIncreasing(base) && StrictlyIncreasing(cluster) && n <= |cluster|
    ensures StrictlyIncreasing(Asked(base, cluster, n))
  {
    if n > 0 {
      var front := Asked(base, cluster, n - 1);
      AskedIsIncreasing(base, cluster, n - 1);
      forall y | y in front ensures Less(y, cluster[n - 1]) { AskedAreTheMissing(base, cluster, n - 1, y); }
      AppendKeepsIncreasing(front, cluster[n - 1]);
    }
  }

  /** There, the callback is asked exactly the cluster names the base lacks, each once, in
      increasing order. */
  lemma StrictMergeAsksTheMissing(base: seq<string>, cluster: seq<string>, n: nat)
    requires StrictlyIncreasing(base) && StrictlyIncreasing(cluster) && n <= |cluster|
    ensures StrictlyIncreasing(Asked(base, cluster, n))
    ensures forall x :: x in Asked(base, cluster, n) <==> x in cluster[..n] && x !in base
  {
    AskedIsIncreasing(base, cluster, n);
    forall x ensures x in Asked(base, cluster, n) <==> x in cluster[..n] && x !in base {
      AskedAreTheMissing(base, cluster, n, x);
    }
  }

  // NewConfig

  datatype Config = Config(params: seq<Param>)

  function Entries(res: Result<Config>): Result<seq<Param>>
  {
    match res
    case Ok(config) => Ok(config.params)
    case Err(e) => Err(e)
  }

  ghost predicate SortedListing(listing: seq<string>, names: seq<string>)
  {
    multiset(names) == multiset(listing) && NonDecreasing(names)
  }

  /** The outcome of a construction and the calls it made are the right ones for the sorted
      listing: entries, failure and help commands alike. */
  ghost predicate BuiltFrom(base: seq<Param>, listing: seq<string>, reply: (nat, string) -> Result<Param>,
        asked0: seq<string>, res: Result<Config>, asked: seq<string>)
  {
    exists names :: SortedListing(listing, names) && RightOutcome(base, names, reply, asked0, Entries(res), asked)
  }

  /** base is the embedded list, listing the reply to "config ls". On a sorted base list the
      entries, the help commands and the failure are the right ones for the sorted listing. With
      honest replies a new index has exactly the cluster's names, sorted, so strictly increasing
      exactly when the cluster repeats none. */
  method NewConfig(base: seq<Param>, listing: Result<seq<string>>, cluster: Cluster, skipUpdate: bool)
    returns (res: Result<Config>)
    modifies cluster
    ensures skipUpdate ==> res == Ok(Config(base)) && cluster.asked == old(cluster.asked)
    ensures !skipUpdate && listing.Err? ==> res == Err(listing.error) && cluster.asked == old(cluster.asked)
    ensures !skipUpdate && res.Ok? ==> listing.Ok? && |res.value.params| == |listing.value|
    ensures !skipUpdate && listing.Ok? && NonDecreasing(Names(base)) ==>
      BuiltFrom(base, listing.value, cluster.reply, old(cluster.asked), res, cluster.asked)
    ensures !skipUpdate && res.Ok? && Honest(cluster.reply) ==>
      && multiset(Names(res.value.params)) == multiset(listing.value)
      && NonDecreasing(Names(res.value.params))
      && FromSources(base, cluster.reply, res.value.params)
      && (StrictlyIncreasing(Names(res.value.params)) <==> NoRepeats(listing.value))
  {
    if skipUpdate { return Ok(Config(base)); }
    if listing.Err? { return Err(listing.error); }
    LessIsWeakOrder();
    var names := SortSlice(listing.value, Less);
    assert SortedListing(listing.value, names);
    var result := MergeParams(base, names, cluster);
    if result.Err? { return Err(result.error); }
    assert |names| == |multiset(names)| == |listing.value|;
    WhenSortedNamesAreStrict(listing.value, names);
    return Ok(Config(result.value));
  }

  lemma WhenSortedNamesAreStrict(a: seq<string>, b: seq<string>)
    requires multiset(a) == multiset(b) && NonDecreasing(b)
    ensures StrictlyIncreasing(b) <==> NoRepeats(a)
  {
    if NoRepeats(a) {
      PermutationsKeepNoRepeats(a, b);
      forall i, j | 0 <= i < j < |b| ensures Less(b[i], b[j]) { LessIsTotal(b[i], b[j]); }
    }
    if StrictlyIncreasing(b) {
      forall i, j | 0 <= i < j < |b| ensures b[i] != b[j] { LessIsIrreflexive(b[i]); }
      PermutationsKeepNoRepeats(b, a);
    }
  }

  /** On a strictly increasing base list and a listing without repetitions: every base entry
      whose name is listed is in the new index, and the help commands issued are for exactly the
      listed names that the base lacks, each once, in increasing order. */
  lemma NewIndexIsLookup(base: seq<Param>, listing: seq<string>, reply: (nat, string) -> Result<Param>,
        asked0: seq<string>, config: Config, asked: seq<string>)
    requires StrictlyIncreasing(Names(base)) && NoRepeats(listing)
    requires BuiltFrom(base, listing, reply, asked0, Ok(config), asked)
    ensures forall i :: 0 <= i < |base| && base[i].name in listing ==> base[i] in config.params
    ensures asked0 <= asked && StrictlyIncreasing(asked[|asked0|..])
    ensures forall x :: x in asked[|asked0|..] <==> x in listing && x !in Names(base)
  {
    var names :| SortedListing(listing, names) && RightOutcome(base, names, reply, asked0, Ok(config.params), asked);
    WhenSortedNamesAreStrict(listing, names);
    SameMembers(names, listing);
    StrictMergeAsksTheMissing(Names(base), names, |names|);
    assert names[..|names|] == names && asked[|asked0|..] == Asked(Names(base), names, |names|);
    forall i | 0 <= i < |base| && base[i].name in listing ensures base[i] in config.params {
      var j :| 0 <= j < |names| && names[j] == base[i].name;
      StrictMergeIsLookup(base, names, reply, |asked0|, config.params, j);
    }
  }

  /** In a strictly increasing list the names up to position j are those not above the j-th. */
  lemma UpToMeansNotAbove(names: seq<string>, j: nat, x: string)
    requires StrictlyIncreasing(names) && j < |names|
    ensures x in names[..j + 1] <==> x in names && !Less(names[j], x)
  {
    IncreasingIsNonDecreasing(names);
    LessIsIrreflexive(names[j]);
    if x in names && !Less(names[j], x) {
      var k :| 0 <= k < |names| && names[k] == x;
      NotAfter(names, j, k);
      assert x == names[..j + 1][k];
    }
    if x in names[..j + 1] {
      var k :| 0 <= k <= j && names[..j + 1][k] == x;
      assert names[k] == x && (k < j ==> !Less(names[j], names[k]));
    }
  }

  lemma MissingUpTo(base: seq<string>, names: seq<string>, j: nat, x: string)
    requires StrictlyIncreasing(base) && StrictlyIncreasing(names) && j < |names|
    ensures x in Asked(base, names, j + 1) <==> x in names && x !in base && !Less(names[j], x)
  {
    AskedAreTheMissing(base, names, j + 1, x);
    UpToMeansNotAbove(names, j, x);
  }

  lemma CallsUpToAFailure(base: seq<string>, listing: seq<string>, names: seq<string>, j: nat)
    requires StrictlyIncreasing(base) && NoRepeats(listing) && SortedListing(listing, names)
    requires j < |names| && !Kept(base, names, j)
    ensures var calls := Asked(base, names, j + 1);
      && StrictlyIncreasing(calls)
      && forall x :: x in calls <==> x in listing && x !in base && !Less(names[j], x)
  {
    WhenSortedNamesAreStrict(listing, names);
    SameMembers(names, listing);
    AskedIsIncreasing(base, names, j + 1);
    forall x ensures x in Asked(base, names, j + 1) <==> x in listing && x !in base && !Less(names[j], x) {
      MissingUpTo(base, names, j, x);
    }
  }

  /** The failed fetch was the last call. */
  lemma FailedFetch(base: seq<Param>, names: seq<string>, reply: (nat, string) -> Result<Param>,
        asked0: seq<string>, e: Error, asked: seq<string>)
    returns (j: nat)
    requires StoppedAtFirstFailure(base, names, reply, asked0, asked, e)
    ensures j < |names| && !Kept(Names(base), names, j)
    ensures asked == asked0 + Asked(Names(base), names, j + 1)
    ensures asked0 < asked && asked[|asked| - 1] == names[j] && reply(|asked| - 1, names[j]) == Err(e)
  {
    j :| FirstFailure(base, names, reply, |asked0|, j, e) && asked == asked0 + Asked(Names(base), names, j + 1);
  }

  /** There, a construction fails exactly as its last help command does; it was for a listed
      name that the base lacks, and the commands issued are for it and all such names below it,
      each once, in increasing order. */
  lemma FailedIndexStopsAtTheFailure(base: seq<Param>, listing: seq<string>, reply: (nat, string) -> Result<Param>,
        asked0: seq<string>, e: Error, asked: seq<string>)
    requires StrictlyIncreasing(Names(base)) && NoRepeats(listing)
    requires BuiltFrom(base, listing, reply, asked0, Err(e), asked)
    ensures asked0 < asked && StrictlyIncreasing(asked[|asked0|..])
    ensures reply(|asked| - 1, asked[|asked| - 1]) == Err(e)
    ensures forall x :: x in asked[|asked0|..] <==>
      x in listing && x !in Names(base) && !Less(asked[|asked| - 1], x)
  {
    var names :| SortedListing(listing, names) && RightOutcome(base, names, reply, asked0, Err(e), asked);
    var j := FailedFetch(base, names, reply, asked0, e, asked);
    CallsUpToAFailure(Names(base), listing, names, j);
    assert asked[|asked0|..] == Asked(Names(base), names, j + 1);
  }
}
