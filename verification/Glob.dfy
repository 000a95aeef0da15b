// The pattern language of filepath.Match on Unix, as its documentation defines it:
// '*' any run of non-'/', '?' one non-'/', [ranges] one of a class, '\' quotes.
// One char is one byte, so '?' and classes take one byte here.
module Glob {
  import opened Wrappers

  datatype Term = Lit(c: char) | AnyRun | AnyOne | Class(negated: bool, ranges: seq<(char, char)>)

  /** One bound of a range, and what follows it; it may not be the end of the pattern. */
  function Bound(p: string): Option<(char, string)>
  {
    if p == "" || p[0] == '-' || p[0] == ']' then None
    else
      var q := if p[0] == '\\' then p[1..] else p;
      if |q| < 2 then None else Some((q[0], q[1..]))
  }

  /** The ranges up to the closing bracket (at least one), and what follows it. */
  function Ranges(p: string, acc: seq<(char, char)>): (r: Option<(seq<(char, char)>, string)>)
    ensures r.Some? ==> |r.value.1| < |p|
    decreases |p|
  {
    if p != "" && p[0] == ']' && acc != [] then Some((acc, p[1..]))
    else match Bound(p)
      case None => None
      case Some((lo, rest)) =>
        if rest[0] == '-' then
          match Bound(rest[1..])
          case None => None
          case Some((hi, rest')) => Ranges(rest', acc + [(lo, hi)])
        else Ranges(rest, acc + [(lo, lo)])
  }

  /** The terms of a pattern; None if it is malformed. */
  function Parse(p: string): Option<seq<Term>>
    decreases |p|
  {
    if p == "" then Some([])
    else if p[0] == '*' then Prepend(AnyRun, Parse(p[1..]))
    else if p[0] == '?' then Prepend(AnyOne, Parse(p[1..]))
    else if p[0] == '\\' then
      if |p| == 1 then None else Prepend(Lit(p[1]), Parse(p[2..]))
    else if p[0] == '[' then
      var negated := |p| > 1 && p[1] == '^';
      match Ranges(if negated then p[2..] else p[1..], [])
      case None => None
      case Some((ranges, rest)) => Prepend(Class(negated, ranges), Parse(rest))
    else Prepend(Lit(p[0]), Parse(p[1..]))
  }

  function Prepend(t: Term, ts: Option<seq<Term>>): Option<seq<Term>>
  {
    match ts case None => None case Some(rest) => Some([t] + rest)
  }

  predicate InClass(c: char, ranges: seq<(char, char)>)
  {
    exists i :: 0 <= i < |ranges| && ranges[i].0 <= c <= ranges[i].1
  }

  predicate Matches(ts: seq<Term>, s: string)
    decreases |ts|, |s|
  {
    if ts == [] then s == ""
    else match ts[0]
      case AnyRun => Matches(ts[1..], s) || (s != "" && s[0] != '/' && Matches(ts, s[1..]))
      case AnyOne => s != "" && s[0] != '/' && Matches(ts[1..], s[1..])
      case Lit(c) => s != "" && s[0] == c && Matches(ts[1..], s[1..])
      case Class(negated, ranges) => s != "" && InClass(s[0], ranges) != negated && Matches(ts[1..], s[1..])
  }

  /** matchWildcard: a malformed pattern matches nothing. */
  predicate MatchWildcard(s: string, pattern: string)
  {
    var ts := Parse(pattern);
    ts.Some? && Matches(ts.value, s)
  }

  // Patterns without wildcards

  /** None of the four characters that Search takes for a wildcard. */
  predicate Plain(p: string)
  {
    forall i :: 0 <= i < |p| ==> p[i] != '*' && p[i] != '?' && p[i] != '[' && p[i] != ']'
  }

  /** The one string a plain pattern stands for: quotes removed; None if a quote ends it. */
  function Unquoted(p: string): Option<string>
    decreases |p|
  {
    if p == "" then Some("")
    else if p[0] == '\\' then
      if |p| == 1 then None
      else match Unquoted(p[2..]) case None => None case Some(r) => Some([p[1]] + r)
    else match Unquoted(p[1..]) case None => None case Some(r) => Some([p[0]] + r)
  }

  function Literals(s: string): seq<Term>
  {
    seq(|s|, i requires 0 <= i < |s| => Lit(s[i]))
  }

  lemma {:induction false} PlainPatternsParseToLiterals(p: string)
    requires Plain(p)
    ensures Parse(p) == match Unquoted(p) case None => None case Some(s) => Some(Literals(s))
    decreases |p|
  {
    assert Literals("") == [];
    if p != "" {
      var n := if p[0] == '\\' then 2 else 1;
      if n <= |p| {
        PlainPatternsParseToLiterals(p[n..]);
        if Unquoted(p[n..]).Some? {
          var c, r := p[n - 1], Unquoted(p[n..]).value;
          assert Literals([c] + r) == [Lit(c)] + Literals(r);
        }
      }
    }
  }

  lemma {:induction false} LiteralsMatchOneString(s: string, name: string)
    ensures Matches(Literals(s), name) <==> name == s
  {
    if s == "" {
      assert Literals(s) == [];
    } else {
      assert Literals(s)[0] == Lit(s[0]) && Literals(s)[1..] == Literals(s[1..]);
      if name != "" {
        LiteralsMatchOneString(s[1..], name[1..]);
        assert s == [s[0]] + s[1..] && name == [name[0]] + name[1..];
      }
    }
  }

  /** A pattern without * ? [ ], quotes included, matches exactly the string it unquotes to,
      so at most one string. */
  lemma PlainPatternsMatchOneString(name: string, p: string)
    requires Plain(p)
    ensures MatchWildcard(name, p) <==> Unquoted(p) == Some(name)
  {
    PlainPatternsParseToLiterals(p);
    if Unquoted(p).Some? { LiteralsMatchOneString(Unquoted(p).value, name); }
  }

  /** A plain pattern for a given plain string: every backslash doubled. */
  function Quoted(s: string): string
  {
    if s == "" then "" else (if s[0] == '\\' then "\\\\" else [s[0]]) + Quoted(s[1..])
  }

  /** A quoted character in front of a pattern puts that character in front of its string. */
  lemma QuotedHead(c: char, rest: string)
    requires Unquoted(rest).Some?
    ensures Unquoted((if c == '\\' then "\\\\" else [c]) + rest) == Some([c] + Unquoted(rest).value)
  {
    if c == '\\' {
      assert ("\\\\" + rest)[2..] == rest;
    } else {
      assert ([c] + rest)[1..] == rest;
    }
  }

  lemma {:induction false} QuotedStandsForItself(s: string)
    requires Plain(s)
    ensures Plain(Quoted(s)) && Unquoted(Quoted(s)) == Some(s)
    ensures s != "" ==> Quoted(s) != ""
  {
    if s != "" {
      QuotedStandsForItself(s[1..]);
      QuotedHead(s[0], Quoted(s[1..]));
      assert s == [s[0]] + s[1..];
    }
  }

  // Patterns with a wildcard between plain parts

  lemma {:induction false} PlainPartsParse(p: string, q: string)
    requires Plain(p) && Unquoted(p).Some?
    ensures Parse(p + q) == match Parse(q) case None => None case Some(ts) => Some(Literals(Unquoted(p).value) + ts)
    decreases |p|
  {
    if p == "" {
      assert p + q == q && Literals("") == [];
      assert Parse(q).Some? ==> [] + Parse(q).value == Parse(q).value;
    } else {
      var n := if p[0] == '\\' then 2 else 1;
      PlainPartsParse(p[n..], q);
      assert (p + q)[n..] == p[n..] + q && (p + q)[n - 1] == p[n - 1];
      var c, r := p[n - 1], Unquoted(p[n..]).value;
      assert Unquoted(p) == Some([c] + r) && Parse(p + q) == Prepend(Lit(c), Parse(p[n..] + q));
      if Parse(q).Some? { LiteralsCons(c, r, Parse(q).value); }
    }
  }

  lemma LiteralsCons(c: char, r: string, ts: seq<Term>)
    ensures Literals([c] + r) + ts == [Lit(c)] + (Literals(r) + ts)
  {
    assert Literals([c] + r) == [Lit(c)] + Literals(r);
  }

  lemma PrefixByHead(s: string, name: string)
    requires s != ""
    ensures s <= name <==> name != "" && name[0] == s[0] && s[1..] <= name[1..]
    ensures s <= name ==> name[|s|..] == name[1..][|s| - 1..]
  {
    if name != "" && name[0] == s[0] && s[1..] <= name[1..] {
      assert name[1..][..|s| - 1] == s[1..];
      assert name[..|s|] == [name[0]] + name[1..][..|s| - 1] == s;
    }
    if s <= name { assert name[..|s|] == s && name[1..][..|s| - 1] == s[1..]; }
  }

  lemma {:induction false} LiteralsMatchAPrefix(s: string, ts: seq<Term>, name: string)
    ensures Matches(Literals(s) + ts, name) <==> s <= name && Matches(ts, name[|s|..])
  {
    var all := Literals(s) + ts;
    if s == "" {
      assert all == ts && name[0..] == name;
    } else {
      assert all[0] == Lit(s[0]) && all[1..] == Literals(s[1..]) + ts;
      PrefixByHead(s, name);
      if name != "" && name[0] == s[0] { LiteralsMatchAPrefix(s[1..], ts, name[1..]); }
    }
  }

  lemma {:induction false} RunsMatchBySplitting(ts: seq<Term>, s: string)
    ensures Matches([AnyRun] + ts, s) <==> exists k :: 0 <= k <= |s| && '/' !in s[..k] && Matches(ts, s[k..])
    decreases |s|
  {
    assert ([AnyRun] + ts)[1..] == ts && s[0..] == s && '/' !in s[..0];
    if s != "" {
      forall k | 0 < k <= |s| { LongerRun(s, k); }
      if s[0] != '/' {
        RunsMatchBySplitting(ts, s[1..]);
        if k :| 0 <= k <= |s[1..]| && '/' !in s[1..][..k] && Matches(ts, s[1..][k..]) { LongerRun(s, k + 1); }
        if k :| 0 < k <= |s| && '/' !in s[..k] && Matches(ts, s[k..]) { assert Matches(ts, s[1..][k - 1..]); }
      }
    }
  }

  lemma LongerRun(s: string, k: nat)
    requires 0 < k <= |s|
    ensures '/' !in s[..k] <==> s[0] != '/' && '/' !in s[1..][..k - 1]
    ensures s[k..] == s[1..][k - 1..]
  {
    assert s[..k] == [s[0]] + s[1..][..k - 1];
  }

  lemma RunBeforeLiterals(rest: string, last: string)
    ensures Matches([AnyRun] + Literals(last), rest) <==> exists run :: '/' !in run && rest == run + last
  {
    RunsMatchBySplitting(Literals(last), rest);
    if k :| 0 <= k <= |rest| && '/' !in rest[..k] && Matches(Literals(last), rest[k..]) {
      LiteralsMatchOneString(last, rest[k..]);
      assert rest == rest[..k] + last;
    }
    if run :| '/' !in run && rest == run + last {
      LiteralsMatchOneString(last, rest[|run|..]);
      assert rest[..|run|] == run && rest[|run|..] == last;
    }
  }

  lemma PlainThen(name: string, p: string, w: string, ts: seq<Term>)
    requires Plain(p) && Unquoted(p).Some? && Parse(w) == Some(ts)
    ensures MatchWildcard(name, p + w) <==>
            Unquoted(p).value <= name && Matches(ts, name[|Unquoted(p).value|..])
  {
    PlainPartsParse(p, w);
    LiteralsMatchAPrefix(Unquoted(p).value, ts, name);
  }

  lemma PrefixMeansSplit(name: string, first: string, rest: string)
    ensures name == first + rest <==> first <= name && name[|first|..] == rest
  {
  }

  /** '*' between two plain parts stands for any run of characters other than '/', an empty one
      included. */
  lemma StarMatchesAnyRun(name: string, p: string, q: string)
    requires Plain(p) && Plain(q) && Unquoted(p).Some? && Unquoted(q).Some?
    ensures MatchWildcard(name, p + ("*" + q)) <==>
            exists run :: '/' !in run && name == Unquoted(p).value + (run + Unquoted(q).value)
  {
    var first, last := Unquoted(p).value, Unquoted(q).value;
    assert ("*" + q)[1..] == q;
    PlainPatternsParseToLiterals(q);
    PlainThen(name, p, "*" + q, [AnyRun] + Literals(last));
    forall run ensures name == first + (run + last) <==> first <= name && name[|first|..] == run + last {
      PrefixMeansSplit(name, first, run + last);
    }
    if first <= name { RunBeforeLiterals(name[|first|..], last); }
  }

  /** A single term between two plain parts stands for one character it accepts. */
  lemma OneTermMatchesOneCharacter(name: string, first: string, t: Term, last: string)
    requires !t.AnyRun?
    ensures Matches(Literals(first) + ([t] + Literals(last)), name) <==>
            exists c :: Matches([t], [c]) && name == first + [c] + last
  {
    LiteralsMatchAPrefix(first, [t] + Literals(last), name);
    assert ([t] + Literals(last))[1..] == Literals(last) && [t][1..] == [];
    if first <= name && |name| > |first| {
      var rest := name[|first|..];
      LiteralsMatchOneString(last, rest[1..]);
      assert name == first + rest && rest == [rest[0]] + rest[1..] && [rest[0]][1..] == "";
      assert Matches([t], [rest[0]]) <==> Matches([t] + Literals(last), [rest[0]] + last) by {
        assert ([rest[0]] + last)[1..] == last;
        LiteralsMatchOneString(last, last);
      }
      if rest[1..] == last { assert name == first + [rest[0]] + last; }
    }
    if c :| Matches([t], [c]) && name == first + [c] + last {
      assert first <= name && name[|first|..] == [c] + last && name[|first|..][1..] == last;
    }
  }

  /** '?' stands for one character other than '/'. */
  lemma QuestionMatchesOne(name: string, p: string, q: string)
    requires Plain(p) && Plain(q) && Unquoted(p).Some? && Unquoted(q).Some?
    ensures MatchWildcard(name, p + "?" + q) <==>
            exists c :: c != '/' && name == Unquoted(p).value + [c] + Unquoted(q).value
  {
    assert p + "?" + q == p + ("?" + q) && ("?" + q)[1..] == q;
    PlainPatternsParseToLiterals(q);
    PlainPartsParse(p, "?" + q);
    OneTermMatchesOneCharacter(name, Unquoted(p).value, AnyOne, Unquoted(q).value);
    forall c ensures Matches([AnyOne], [c]) <==> c != '/' { assert [AnyOne][1..] == [] && [c][1..] == ""; }
  }

  /** A character inside brackets: itself, or quoted where it would not stand for itself. */
  function InBrackets(c: char): string
  {
    if c == '-' || c == ']' || c == '\\' || c == '^' then ['\\', c] else [c]
  }

  /** The pattern of a class: what is in the brackets, after a '^' if it is to be avoided. */
  function Bracketed(inside: string, negated: bool): string
  {
    (if negated then "[^" else "[") + inside + "]"
  }

  lemma BoundOfOne(c: char, rest: string)
    requires rest != ""
    ensures Bound(InBrackets(c) + rest) == Some((c, rest))
  {
    var p := InBrackets(c) + rest;
    if |InBrackets(c)| == 2 { assert p[1..] == [c] + rest; }
    assert ([c] + rest)[1..] == rest;
  }

  lemma BracketedParses(inside: string, negated: bool, q: string, ranges: seq<(char, char)>)
    requires inside != "" && inside[0] != '^' && Ranges(inside + ("]" + q), []) == Some((ranges, q))
    ensures Parse(Bracketed(inside, negated) + q) == Prepend(Class(negated, ranges), Parse(q))
  {
    var opening, body := if negated then "[^" else "[", inside + ("]" + q);
    Regroup(opening, inside, "]", q);
    assert body[0] == inside[0];
    AfterTheBracket(opening, body);
  }

  lemma Regroup(a: string, b: string, c: string, d: string)
    ensures a + b + c + d == a + (b + (c + d))
  {
  }

  lemma AfterTheBracket(opening: string, body: string)
    requires opening == "[" || opening == "[^"
    requires body != "" && (opening == "[" ==> body[0] != '^')
    ensures Parse(opening + body) ==
            match Ranges(body, []) case None => None case Some((ranges, rest)) =>
              Prepend(Class(opening == "[^", ranges), Parse(rest))
  {
    var p := opening + body;
    assert p[|opening|..] == body && p[0] == '[' && p[1] == (if |opening| == 2 then '^' else body[0]);
  }

  /** A class between two plain parts stands for one character in its ranges, or outside them. */
  lemma ClassMatchesOne(name: string, p: string, inside: string, negated: bool, q: string, ranges: seq<(char, char)>)
    requires Plain(p) && Plain(q) && Unquoted(p).Some? && Unquoted(q).Some?
    requires inside != "" && inside[0] != '^' && Ranges(inside + ("]" + q), []) == Some((ranges, q))
    ensures MatchWildcard(name, p + (Bracketed(inside, negated) + q)) <==>
            exists c :: InClass(c, ranges) != negated && name == Unquoted(p).value + [c] + Unquoted(q).value
  {
    var t := Class(negated, ranges);
    PlainPatternsParseToLiterals(q);
    BracketedParses(inside, negated, q, ranges);
    PlainPartsParse(p, Bracketed(inside, negated) + q);
    OneTermMatchesOneCharacter(name, Unquoted(p).value, t, Unquoted(q).value);
    forall c ensures Matches([t], [c]) <==> InClass(c, ranges) != negated {
      assert [t][1..] == [] && [c][1..] == "";
    }
  }

  lemma RangeReads(lo: char, hi: char, q: string)
    ensures Ranges(InBrackets(lo) + "-" + InBrackets(hi) + ("]" + q), []) == Some(([(lo, hi)], q))
  {
    var end := "]" + q;
    var rest := "-" + (InBrackets(hi) + end);
    assert InBrackets(lo) + "-" + InBrackets(hi) + end == InBrackets(lo) + rest;
    BoundOfOne(lo, rest);
    BoundOfOne(hi, end);
    OneRange(InBrackets(lo) + rest, lo, hi, rest, end);
    RangesEnd([(lo, hi)], q);
  }

  lemma RangesEnd(acc: seq<(char, char)>, q: string)
    requires acc != []
    ensures Ranges("]" + q, acc) == Some((acc, q))
  {
    assert ("]" + q)[1..] == q;
  }

  lemma OneRange(p: string, lo: char, hi: char, rest: string, end: string)
    requires p != "" && p[0] != ']' && rest != "" && rest[0] == '-'
    requires Bound(p) == Some((lo, rest)) && Bound(rest[1..]) == Some((hi, end))
    ensures Ranges(p, []) == Ranges(end, [(lo, hi)])
  {
    assert [] + [(lo, hi)] == [(lo, hi)];
  }

  lemma OneSingle(p: string, c: char, rest: string, acc: seq<(char, char)>)
    requires p != "" && p[0] != ']' && rest != "" && rest[0] != '-' && Bound(p) == Some((c, rest))
    ensures Ranges(p, acc) == Ranges(rest, acc + [(c, c)])
  {
  }

  /** A range in brackets stands for one character in it, or with '^' for one outside it. */
  lemma RangeMatchesOne(name: string, p: string, lo: char, hi: char, negated: bool, q: string)
    requires Plain(p) && Plain(q) && Unquoted(p).Some? && Unquoted(q).Some?
    ensures MatchWildcard(name, p + (Bracketed(InBrackets(lo) + "-" + InBrackets(hi), negated) + q)) <==>
            exists c :: (lo <= c <= hi) != negated && name == Unquoted(p).value + [c] + Unquoted(q).value
  {
    RangeReads(lo, hi, q);
    ClassMatchesOne(name, p, InBrackets(lo) + "-" + InBrackets(hi), negated, q, [(lo, hi)]);
    forall c ensures InClass(c, [(lo, hi)]) <==> lo <= c <= hi { assert [(lo, hi)][0] == (lo, hi); }
  }

  function AllInBrackets(cs: string): string
  {
    if cs == "" then "" else InBrackets(cs[0]) + AllInBrackets(cs[1..])
  }

  function Singles(cs: string): seq<(char, char)>
  {
    seq(|cs|, i requires 0 <= i < |cs| => (cs[i], cs[i]))
  }

  lemma {:induction false} CharactersRead(cs: string, acc: seq<(char, char)>, q: string)
    requires cs != "" || acc != []
    ensures Ranges(AllInBrackets(cs) + ("]" + q), acc) == Some((acc + Singles(cs), q))
    decreases |cs|
  {
    var end := "]" + q;
    if cs == "" {
      assert AllInBrackets(cs) + end == end && acc + Singles(cs) == acc;
      RangesEnd(acc, q);
    } else {
      var rest := AllInBrackets(cs[1..]) + end;
      assert AllInBrackets(cs) + end == InBrackets(cs[0]) + rest;
      BoundOfOne(cs[0], rest);
      NoDashAfterOne(cs[1..], end);
      OneSingle(InBrackets(cs[0]) + rest, cs[0], rest, acc);
      CharactersRead(cs[1..], acc + [(cs[0], cs[0])], q);
      assert acc + Singles(cs) == acc + [(cs[0], cs[0])] + Singles(cs[1..]);
    }
  }

  lemma NoDashAfterOne(cs: string, end: string)
    requires end != "" && end[0] == ']'
    ensures (AllInBrackets(cs) + end)[0] != '-'
  {
    if cs == "" {
      assert AllInBrackets(cs) + end == end;
    } else {
      assert (AllInBrackets(cs) + end)[0] == InBrackets(cs[0])[0];
    }
  }

  /** Characters in brackets stand for one of them, or with '^' for any other one. */
  lemma CharactersMatchOne(name: string, p: string, cs: string, negated: bool, q: string)
    requires Plain(p) && Plain(q) && Unquoted(p).Some? && Unquoted(q).Some? && cs != ""
    ensures MatchWildcard(name, p + (Bracketed(AllInBrackets(cs), negated) + q)) <==>
            exists c :: (c in cs) != negated && name == Unquoted(p).value + [c] + Unquoted(q).value
  {
    CharactersRead(cs, [], q);
    assert [] + Singles(cs) == Singles(cs);
    ClassMatchesOne(name, p, AllInBrackets(cs), negated, q, Singles(cs));
    forall c ensures InClass(c, Singles(cs)) <==> c in cs { SinglesHoldTheCharacters(c, cs); }
  }

  lemma SinglesHoldTheCharacters(c: char, cs: string)
    ensures InClass(c, Singles(cs)) <==> c in cs
  {
    if i :| 0 <= i < |cs| && cs[i] == c { assert Singles(cs)[i] == (c, c); }
  }

  /** An open bracket without its end makes the pattern malformed: it matches nothing. */
  lemma OpenBracketMatchesNothing(name: string, p: string)
    requires Plain(p) && Unquoted(p).Some?
    ensures !MatchWildcard(name, p + "[")
  {
    PlainPartsParse(p, "[");
    assert "["[1..] == "";
  }
}
