// Go's built-in string order, and the library sorts that the service and the
// configuration index rely on.

// Go compares strings byte by byte; a char stands for one byte here.
module GoStrings {

  predicate Less(a: string, b: string)
  {
    |b| > 0 && (|a| == 0 || a[0] < b[0] || (a[0] == b[0] && Less(a[1..], b[1..])))
  }

  ghost predicate StrictlyIncreasing(s: seq<string>)
  {
    forall i, j :: 0 <= i < j < |s| ==> Less(s[i], s[j])
  }

  lemma {:induction false} LessIsIrreflexive(a: string)
    ensures !Less(a, a)
  {
    if a != [] { LessIsIrreflexive(a[1..]); }
  }

  lemma {:induction false} LessIsTransitive(a: string, b: string, c: string)
    requires Less(a, b) && Less(b, c)
    ensures Less(a, c)
  {
    if |a| > 0 && a[0] == b[0] && b[0] == c[0] { LessIsTransitive(a[1..], b[1..], c[1..]); }
  }

  lemma {:induction false} LessIsTotal(a: string, b: string)
    ensures Less(a, b) || a == b || Less(b, a)
  {
    if |a| > 0 && |b| > 0 && a[0] == b[0] {
      LessIsTotal(a[1..], b[1..]);
      assert a == [a[0]] + a[1..] && b == [b[0]] + b[1..];
    }
  }

  /** At position k the strings differ for the first time, and a is the lesser one there or over. */
  ghost predicate LesserFrom(a: string, b: string, k: nat)
  {
    k <= |a| && k < |b| && a[..k] == b[..k] && (k == |a| || a[k] < b[k])
  }

  lemma {:induction false} FirstDifference(a: string, b: string) returns (k: nat)
    requires Less(a, b)
    ensures LesserFrom(a, b, k)
  {
    if a == "" || a[0] < b[0] {
      k := 0;
    } else {
      k := FirstDifference(a[1..], b[1..]);
      assert a[..k + 1] == [a[0]] + a[1..][..k] && b[..k + 1] == [b[0]] + b[1..][..k];
      k := k + 1;
    }
  }

  lemma {:induction false} DifferenceDecides(a: string, b: string, k: nat)
    requires LesserFrom(a, b, k)
    ensures Less(a, b)
  {
    if k > 0 {
      assert a[..k][0] == b[..k][0];
      assert a[1..][..k - 1] == a[..k][1..] && b[1..][..k - 1] == b[..k][1..];
      DifferenceDecides(a[1..], b[1..], k - 1);
    }
  }

  /** Less is the lexicographic order of the bytes, a proper prefix coming first. */
  lemma LessIsLexicographic(a: string, b: string)
    ensures Less(a, b) <==> exists k :: LesserFrom(a, b, k)
  {
    if Less(a, b) {
      var k := FirstDifference(a, b);
    }
    if k :| LesserFrom(a, b, k) {
      DifferenceDecides(a, b, k);
    }
  }

  /** The order laws in one place: Less is a strict total order. */
  lemma LessIsAStrictTotalOrder()
    ensures forall a :: !Less(a, a)
    ensures forall a, b, c :: Less(a, b) && Less(b, c) ==> Less(a, c)
    ensures forall a, b {:trigger Less(a, b)} :: Less(a, b) || a == b || Less(b, a)
  {
    forall a ensures !Less(a, a) { LessIsIrreflexive(a); }
    forall a, b, c | Less(a, b) && Less(b, c) ensures Less(a, c) { LessIsTransitive(a, b, c); }
    forall a, b ensures Less(a, b) || a == b || Less(b, a) { LessIsTotal(a, b); }
  }

  /** A strictly increasing list is determined by the set of its elements. */
  lemma {:induction false} IncreasingListsWithEqualElementsAreEqual(a: seq<string>, b: seq<string>)
    requires StrictlyIncreasing(a) && StrictlyIncreasing(b)
    requires forall x :: x in a <==> x in b
    ensures a == b
  {
    HeadIsMember(a);
    HeadIsMember(b);
    if a != [] {
      assert a[0] in b && b[0] in a;
      LessIsAStrictTotalOrder();
      var i :| 0 <= i < |b| && b[i] == a[0];
      var j :| 0 <= j < |a| && a[j] == b[0];
      assert i == 0;
      forall x ensures x in a[1..] <==> x in b[1..] {
        TailMembership(a, x);
        TailMembership(b, x);
      }
      IncreasingListsWithEqualElementsAreEqual(a[1..], b[1..]);
      assert a == [a[0]] + a[1..] && b == [b[0]] + b[1..];
    }
  }

  lemma HeadIsMember(s: seq<string>)
    ensures s == [] || s[0] in s
  {
  }

  lemma TailMembership(s: seq<string>, x: string)
    requires StrictlyIncreasing(s) && s != []
    ensures x in s[1..] <==> x in s && x != s[0]
  {
    LessIsIrreflexive(s[0]);
    if x in s && x != s[0] {
      var i :| 0 <= i < |s| && s[i] == x;
      assert s[1..][i - 1] == x;
    }
  }
}

// The contract of sort.Slice: it is not stable, so callers may use no more than
// "a permutation, ordered by less". The bodies only witness that the contract can be met.
module Sorting {
  import opened GoStrings

  ghost predicate StrictWeakOrder<T(!new)>(less: (T, T) -> bool)
  {
    && (forall a, b :: less(a, b) ==> !less(b, a))
    && (forall a, b, c :: less(a, b) && less(b, c) ==> less(a, c))
    && (forall a, b, c {:trigger less(a, b), less(a, c)} :: less(a, c) ==> less(a, b) || less(b, c))
  }

  ghost predicate Ordered<T>(less: (T, T) -> bool, s: seq<T>)
  {
    forall i, j :: 0 <= i < j < |s| ==> !less(s[j], s[i])
  }

  lemma InsertKeepsOrder<T(!new)>(less: (T, T) -> bool, s: seq<T>, p: nat, x: T)
    requires StrictWeakOrder(less) && Ordered(less, s) && p <= |s|
    requires forall k :: 0 <= k < p ==> !less(x, s[k])
    requires p < |s| ==> less(x, s[p])
    ensures Ordered(less, s[..p] + [x] + s[p..])
  {
  }

  method SortSlice<T(!new)>(s: seq<T>, less: (T, T) -> bool) returns (r: seq<T>)
    requires StrictWeakOrder(less)
    ensures multiset(r) == multiset(s)
    ensures Ordered(less, r)
  {
    r := [];
    for i := 0 to |s|
      invariant multiset(r) == multiset(s[..i])
      invariant Ordered(less, r)
    {
      var p := 0;
      while p < |r| && !less(s[i], r[p])
        invariant p <= |r|
        invariant forall k :: 0 <= k < p ==> !less(s[i], r[k])
      {
        p := p + 1;
      }
      InsertKeepsOrder(less, r, p, s[i]);
      assert r == r[..p] + r[p..];
      assert s[..i + 1] == s[..i] + [s[i]];
      r := r[..p] + [s[i]] + r[p..];
    }
    assert s[..|s|] == s;
  }

  lemma LessIsWeakOrder()
    ensures StrictWeakOrder(Less)
  {
    var less := Less;
    forall a, b | less(a, b) ensures !less(b, a) {
      LessIsIrreflexive(a);
      if Less(b, a) { LessIsTransitive(a, b, a); }
    }
    forall a, b, c | less(a, b) && less(b, c) ensures less(a, c) { LessIsTransitive(a, b, c); }
    forall a, b, c | less(a, c) ensures less(a, b) || less(b, c) {
      LessIsTotal(a, b);
      if Less(b, a) { LessIsTransitive(b, a, c); }
    }
    assert StrictWeakOrder(less);
  }

  /** Permutations have the same members. */
  lemma SameMembers<T>(a: seq<T>, b: seq<T>)
    requires multiset(a) == multiset(b)
    ensures forall x :: x in a <==> x in b
  {
    forall x ensures x in a <==> x in b {
      assert x in a <==> x in multiset(a);
      assert x in b <==> x in multiset(b);
    }
  }

  ghost predicate NoRepeats<T>(s: seq<T>)
  {
    forall i, j :: 0 <= i < j < |s| ==> s[i] != s[j]
  }

  lemma {:induction false} NoRepeatsMeansOnce<T>(s: seq<T>, x: T)
    requires NoRepeats(s)
    ensures multiset(s)[x] <= 1
  {
    if s != [] {
      var front, last := s[..|s| - 1], s[|s| - 1];
      NoRepeatsMeansOnce(front, x);
      assert s == front + [last];
      assert last !in front;
    }
  }

  lemma PermutationsKeepNoRepeats<T>(a: seq<T>, b: seq<T>)
    requires multiset(a) == multiset(b) && NoRepeats(a)
    ensures NoRepeats(b)
  {
    forall i, j | 0 <= i < j < |b| ensures b[i] != b[j] {
      NoRepeatsMeansOnce(a, b[j]);
      assert b == b[..j] + [b[j]] + b[j + 1..];
      assert b[i] in b[..j];
    }
  }

  lemma OrderedPermutationsShareHeads<T(!new)>(less: (T, T) -> bool, a: seq<T>, b: seq<T>)
    requires forall x :: !less(x, x)
    requires multiset(a) == multiset(b) && a != [] && b != [] && Ordered(less, b)
    requires forall i :: 0 < i < |a| ==> less(a[0], a[i])
    ensures a[0] == b[0]
  {
    SameMembers(a, b);
    assert b[0] in b && a[0] in a;
    var p :| 0 <= p < |b| && b[p] == a[0];
    assert p > 0 ==> !less(b[p], b[0]);
  }

  lemma SplitHead<T>(s: seq<T>)
    requires s != []
    ensures s == [s[0]] + s[1..] && multiset(s[1..]) == multiset(s) - multiset{s[0]}
  {
  }

  /** A strictly ordered list is the only ordered permutation of itself, so an unstable sort
      of it has one possible result. */
  lemma {:induction false} OrderedPermutationIsUnique<T(!new)>(less: (T, T) -> bool, a: seq<T>, b: seq<T>)
    requires forall x :: !less(x, x)
    requires multiset(a) == multiset(b) && Ordered(less, b)
    requires forall i, j :: 0 <= i < j < |a| ==> less(a[i], a[j])
    ensures a == b
  {
    assert |a| == |multiset(a)| == |multiset(b)| == |b|;
    if a != [] {
      OrderedPermutationsShareHeads(less, a, b);
      SplitHead(a);
      SplitHead(b);
      OrderedPermutationIsUnique(less, a[1..], b[1..]);
    }
  }
}
