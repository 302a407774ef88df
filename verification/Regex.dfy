/**
 Backtracking regular expressions as Python's `re` runs them: the possible match ends at a
 position, in the order in which the matcher would try them, and the leftmost search.
 */
module Regex {
  import opened Basics
  import opened Text

  /** The character classes of the service's patterns. */
  datatype Class = Local | Label | Tail | Digit | Leading | Separator | Only(c: char)

  predicate In(c: char, cls: Class) {
    match cls
    case Local => IsAlnum(c) || c in "_.+-"
    case Label => IsAlnum(c) || c == '-'
    case Tail => IsAlnum(c) || c == '-' || c == '.'
    case Digit => IsDigit(c)
    case Leading => '1' <= c <= '9'
    case Separator => c == '-' || c == '.' || IsSpace(c)
    case Only(d) => c == d
  }

  /** A greedy repetition of one class, a sequence, an ordered choice, or a greedy option. */
  datatype Regex =
    | Many(cls: Class, least: nat, most: Option<nat>)
    | Then(first: Regex, second: Regex)
    | Or(first: Regex, second: Regex)
    | Maybe(body: Regex)

  function One(cls: Class): Regex {
    Many(cls, 1, Some(1))
  }

  function Optional(cls: Class): Regex {
    Many(cls, 0, Some(1))
  }

  /** Where the run of characters of a class that starts at i ends. */
  function RunEnd(cls: Class, s: string, i: nat): (e: nat)
    requires i <= |s|
    ensures i <= e <= |s|
    ensures forall k :: i <= k < e ==> In(s[k], cls)
    ensures e < |s| ==> !In(s[e], cls)
    decreases |s| - i
  {
    if i < |s| && In(s[i], cls) then RunEnd(cls, s, i + 1) else i
  }

  lemma {:induction false} RunEndUnique(cls: Class, s: string, i: nat, e: nat)
    requires i <= e <= |s| && (forall k :: i <= k < e ==> In(s[k], cls)) && (e < |s| ==> !In(s[e], cls))
    ensures RunEnd(cls, s, i) == e
  {
  }

  function CappedEnd(cls: Class, s: string, i: nat, most: Option<nat>): (e: nat)
    requires i <= |s|
    ensures i <= e <= |s|
  {
    var e := RunEnd(cls, s, i);
    if most.Some? && i + most.value < e then i + most.value else e
  }

  /** hi, hi - 1, ..., lo */
  function Down(hi: nat, lo: nat): (r: seq<nat>)
    ensures forall e :: e in r <==> lo <= e <= hi
    decreases hi
  {
    if hi < lo then []
    else if hi == 0 then [0]
    else [hi] + Down(hi - 1, lo)
  }

  predicate AllWithin(ends: seq<nat>, lo: nat, hi: nat) {
    forall p :: 0 <= p < |ends| ==> lo <= ends[p] <= hi
  }

  /** The ends of the matches at i, best first. */
  function Ends(r: Regex, s: string, i: nat): (ends: seq<nat>)
    requires i <= |s|
    ensures AllWithin(ends, i, |s|)
    decreases r, 0
  {
    match r
    case Many(cls, least, most) => DownWithin(CappedEnd(cls, s, i, most), i + least, i, |s|)
    case Then(a, b) => EndsFrom(b, s, Ends(a, s, i), i)
    case Or(a, b) => Ends(a, s, i) + Ends(b, s, i)
    case Maybe(a) => Ends(a, s, i) + [i]
  }

  function DownWithin(hi: nat, lo: nat, i: nat, size: nat): (r: seq<nat>)
    requires i <= lo && hi <= size
    ensures AllWithin(r, i, size)
    ensures r == Down(hi, lo)
  {
    var r := Down(hi, lo);
    assert forall p :: 0 <= p < |r| ==> r[p] in r;
    r
  }

  /** The ends of the matches at each of the starts, in their order. */
  function EndsFrom(r: Regex, s: string, starts: seq<nat>, i: nat): (ends: seq<nat>)
    requires AllWithin(starts, i, |s|)
    ensures AllWithin(ends, i, |s|)
    decreases r, 1, |starts|
  {
    if starts == [] then [] else Ends(r, s, starts[0]) + EndsFrom(r, s, starts[1..], i)
  }

  function FirstOf(ends: seq<nat>): Option<nat> {
    if ends == [] then None else Some(ends[0])
  }

  /** `re.search` from position i on: the leftmost start with a match, and its best end. */
  function SearchFrom(r: Regex, s: string, i: nat): (m: Option<(nat, nat)>)
    requires i <= |s|
    ensures m.Some? ==> i <= m.value.0 <= m.value.1 <= |s|
    ensures m.Some? ==> FirstOf(Ends(r, s, m.value.0)) == Some(m.value.1)
    ensures forall k :: i <= k < (if m.Some? then m.value.0 else |s| + 1) ==> Ends(r, s, k) == []
    decreases |s| - i
  {
    if Ends(r, s, i) != [] then Some((i, Ends(r, s, i)[0]))
    else if i < |s| then SearchFrom(r, s, i + 1)
    else None
  }

  function Search(r: Regex, s: string): (m: Option<(nat, nat)>)
    ensures m.Some? ==> m.value.0 <= m.value.1 <= |s|
    ensures m.Some? ==> FirstOf(Ends(r, s, m.value.0)) == Some(m.value.1)
    ensures forall k :: 0 <= k < (if m.Some? then m.value.0 else |s| + 1) ==> Ends(r, s, k) == []
  {
    SearchFrom(r, s, 0)
  }

  // ---------------------------------------------------------------- the language

  /** The strings a pattern describes, without any order of attempts. */
  ghost predicate Describes(r: Regex, t: string) {
    match r
    case Many(cls, least, most) =>
      least <= |t| && (most.Some? ==> |t| <= most.value) && forall k :: 0 <= k < |t| ==> In(t[k], cls)
    case Then(a, b) => exists k :: 0 <= k <= |t| && Describes(a, t[..k]) && Describes(b, t[k..])
    case Or(a, b) => Describes(a, t) || Describes(b, t)
    case Maybe(a) => t == [] || Describes(a, t)
  }

  lemma ManyEnds(cls: Class, least: nat, most: Option<nat>, s: string, i: nat, e: nat)
    requires i <= e <= |s|
    ensures e in Ends(Many(cls, least, most), s, i) <==> Describes(Many(cls, least, most), s[i..e])
  {
    var t := s[i..e];
    assert forall k :: i <= k < e ==> t[k - i] == s[k];
  }

  lemma {:induction false} InEndsFrom(r: Regex, s: string, starts: seq<nat>, i: nat, e: nat)
    requires AllWithin(starts, i, |s|)
    ensures e in EndsFrom(r, s, starts, i) <==>
            exists p :: 0 <= p < |starts| && e in Ends(r, s, starts[p])
    decreases |starts|
  {
    if starts != [] {
      InEndsFrom(r, s, starts[1..], i, e);
      if e in EndsFrom(r, s, starts[1..], i) {
        var p :| 0 <= p < |starts[1..]| && e in Ends(r, s, starts[1..][p]);
        assert starts[p + 1] == starts[1..][p];
      }
      if p :| 0 <= p < |starts| && e in Ends(r, s, starts[p]) {
        if p > 0 {
          assert starts[1..][p - 1] == starts[p];
        }
      }
    }
  }

  /** The backtracking matcher is sound and complete: its ends at i are exactly those of the
      strings of the language that start there. */
  lemma {:induction false} EndsExactly(r: Regex, s: string, i: nat, e: nat)
    requires i <= e <= |s|
    ensures e in Ends(r, s, i) <==> Describes(r, s[i..e])
    decreases r
  {
    match r
    case Many(cls, least, most) => ManyEnds(cls, least, most, s, i, e);
    case Or(a, b) =>
      EndsExactly(a, s, i, e);
      EndsExactly(b, s, i, e);
    case Maybe(a) => EndsExactly(a, s, i, e);
    case Then(a, b) =>
      if e in Ends(r, s, i) {
        ThenSound(a, b, s, i, e);
      }
      if Describes(r, s[i..e]) {
        ThenComplete(a, b, s, i, e);
      }
  }

  lemma {:induction false} ThenSound(a: Regex, b: Regex, s: string, i: nat, e: nat)
    requires i <= e <= |s| && e in Ends(Then(a, b), s, i)
    ensures Describes(Then(a, b), s[i..e])
    decreases Then(a, b), 0
  {
    var starts := Ends(a, s, i);
    InEndsFrom(b, s, starts, i, e);
    var p :| 0 <= p < |starts| && e in Ends(b, s, starts[p]);
    var q :| 0 <= q < |Ends(b, s, starts[p])| && Ends(b, s, starts[p])[q] == e;
    EndsExactly(a, s, i, starts[p]);
    EndsExactly(b, s, starts[p], e);
    SplitDescribes(a, b, s, i, starts[p], e);
  }

  lemma {:induction false} ThenComplete(a: Regex, b: Regex, s: string, i: nat, e: nat)
    requires i <= e <= |s| && Describes(Then(a, b), s[i..e])
    ensures e in Ends(Then(a, b), s, i)
    decreases Then(a, b), 0
  {
    var m := DescribedSplit(a, b, s, i, e);
    EndsExactly(a, s, i, m);
    EndsExactly(b, s, m, e);
    InEndsFrom(b, s, Ends(a, s, i), i, e);
  }

  lemma DescribedSplit(a: Regex, b: Regex, s: string, i: nat, e: nat) returns (m: nat)
    requires i <= e <= |s| && Describes(Then(a, b), s[i..e])
    ensures i <= m <= e && Describes(a, s[i..m]) && Describes(b, s[m..e])
  {
    var t := s[i..e];
    var k :| 0 <= k <= |t| && Describes(a, t[..k]) && Describes(b, t[k..]);
    m := i + k;
    SplitSlice(s, i, m, e);
  }

  lemma SplitSlice(s: string, i: nat, m: nat, e: nat)
    requires i <= m <= e <= |s|
    ensures s[i..e][..m - i] == s[i..m] && s[i..e][m - i..] == s[m..e]
  {
    SliceOfSlice(s, i, e, 0, m - i);
    SliceOfSlice(s, i, e, m - i, e - i);
  }

  lemma SplitDescribes(a: Regex, b: Regex, s: string, i: nat, m: nat, e: nat)
    requires i <= m <= e <= |s| && Describes(a, s[i..m]) && Describes(b, s[m..e])
    ensures Describes(Then(a, b), s[i..e])
  {
    SplitSlice(s, i, m, e);
  }

  /** No string of the language starts at k. */
  ghost predicate NoneStartsAt(r: Regex, s: string, k: nat)
    requires k <= |s|
  {
    forall f :: k <= f <= |s| ==> !Describes(r, s[k..f])
  }

  lemma EmptyEndsExactly(r: Regex, s: string, k: nat)
    requires k <= |s|
    ensures Ends(r, s, k) == [] <==> NoneStartsAt(r, s, k)
  {
    forall f | k <= f <= |s| ensures f in Ends(r, s, k) <==> Describes(r, s[k..f]) {
      EndsExactly(r, s, k, f);
    }
    if Ends(r, s, k) != [] {
      assert Ends(r, s, k)[0] in Ends(r, s, k);
    }
  }

  /** The search finds the leftmost start of any string of the language, or proves there is none. */
  lemma SearchIsLeftmost(r: Regex, s: string)
    ensures var m := Search(r, s);
            (m.Some? ==> Describes(r, s[m.value.0..m.value.1]) && !NoneStartsAt(r, s, m.value.0)) &&
            forall k :: 0 <= k < (if m.Some? then m.value.0 else |s| + 1) ==> NoneStartsAt(r, s, k)
  {
    forall k | 0 <= k <= |s| ensures Ends(r, s, k) == [] <==> NoneStartsAt(r, s, k) {
      EmptyEndsExactly(r, s, k);
    }
    if Search(r, s).Some? {
      EndsExactly(r, s, Search(r, s).value.0, Search(r, s).value.1);
    }
  }

  // ---------------------------------------------------------------- computing with ends

  lemma {:induction false} NoneFrom(r: Regex, s: string, starts: seq<nat>, i: nat)
    requires AllWithin(starts, i, |s|)
    requires forall p :: 0 <= p < |starts| ==> Ends(r, s, starts[p]) == []
    ensures EndsFrom(r, s, starts, i) == []
    decreases |starts|
  {
    if starts != [] {
      NoneFrom(r, s, starts[1..], i);
    }
  }

  /** The best end of a sequence follows the best end of its first part, if the second matches there. */
  lemma ThenBest(a: Regex, b: Regex, s: string, i: nat, m: nat)
    requires i <= m <= |s| && FirstOf(Ends(a, s, i)) == Some(m) && Ends(b, s, m) != []
    ensures FirstOf(Ends(Then(a, b), s, i)) == FirstOf(Ends(b, s, m))
  {
  }

  /** If the second part cannot start on a character of the run, only the whole run counts. */
  lemma WholeRun(cls: Class, b: Regex, s: string, i: nat)
    requires i <= |s|
    requires var e := RunEnd(cls, s, i); e > i && forall k :: i < k < e ==> Ends(b, s, k) == []
    ensures Ends(Then(Many(cls, 1, None), b), s, i) == Ends(b, s, RunEnd(cls, s, i))
  {
    var e := RunEnd(cls, s, i);
    var starts := Ends(Many(cls, 1, None), s, i);
    assert starts == Down(e, i + 1);
    assert starts[0] == e && starts[1..] == Down(e - 1, i + 1);
    forall p | 0 <= p < |starts[1..]| ensures Ends(b, s, starts[1..][p]) == [] {
      assert starts[1..][p] in Down(e - 1, i + 1);
    }
    NoneFrom(b, s, starts[1..], i);
  }

  lemma EmptyRun(cls: Class, b: Regex, s: string, i: nat)
    requires i <= |s| && RunEnd(cls, s, i) == i
    ensures Ends(Then(Many(cls, 1, None), b), s, i) == []
  {
    assert Ends(Many(cls, 1, None), s, i) == [];
  }

  /** A single required character. */
  lemma OneEnds(cls: Class, s: string, i: nat)
    requires i <= |s|
    ensures Ends(One(cls), s, i) == if i < |s| && In(s[i], cls) then [i + 1] else []
  {
    if i < |s| && In(s[i], cls) {
      assert RunEnd(cls, s, i) >= i + 1;
      assert Down(i + 1, i + 1) == [i + 1] + Down(i, i + 1);
    }
  }

  lemma OneThen(cls: Class, b: Regex, s: string, i: nat)
    requires i <= |s|
    ensures Ends(Then(One(cls), b), s, i) ==
            if i < |s| && In(s[i], cls) then Ends(b, s, i + 1) else []
  {
    OneEnds(cls, s, i);
    var starts := Ends(One(cls), s, i);
    if starts != [] {
      assert EndsFrom(b, s, starts[1..], i) == [];
      assert Ends(b, s, i + 1) + [] == Ends(b, s, i + 1);
    }
  }
}
