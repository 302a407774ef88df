/** The email pattern: its leftmost-greedy search is a linear scan over the "@" signs. */
module EmailSearch {
  import opened Basics
  import opened Regex

  const DOT_TAIL := Then(One(Only('.')), Many(Tail, 1, None))
  const DOMAIN := Then(Many(Label, 1, None), DOT_TAIL)
  const AT_DOMAIN := Then(One(Only('@')), DOMAIN)

  /** [a-zA-Z0-9_.+-]+@[a-zA-Z0-9-]+\.[a-zA-Z0-9-.]+ */
  const EMAIL := Then(Many(Local, 1, None), AT_DOMAIN)

  /** The end of a dot and a non-empty tail at i. */
  function DotTailEnd(s: string, i: nat): Option<nat>
    requires i <= |s|
  {
    if i < |s| && s[i] == '.' && RunEnd(Tail, s, i + 1) > i + 1 then Some(RunEnd(Tail, s, i + 1)) else None
  }

  /** The end of a label, a dot and a tail at i. */
  function DomainEnd(s: string, i: nat): Option<nat>
    requires i <= |s|
  {
    if RunEnd(Label, s, i) > i then DotTailEnd(s, RunEnd(Label, s, i)) else None
  }

  function AtDomainEnd(s: string, i: nat): Option<nat>
    requires i <= |s|
  {
    if i < |s| && s[i] == '@' then DomainEnd(s, i + 1) else None
  }

  /** The end of the match at i, computed from maximal runs without backtracking. */
  function EmailEnd(s: string, i: nat): Option<nat>
    requires i <= |s|
  {
    if RunEnd(Local, s, i) > i then AtDomainEnd(s, RunEnd(Local, s, i)) else None
  }

  lemma TailEnds(s: string, i: nat)
    requires i <= |s|
    ensures FirstOf(Ends(Many(Tail, 1, None), s, i)) ==
            if RunEnd(Tail, s, i) > i then Some(RunEnd(Tail, s, i)) else None
  {
  }

  lemma DotTailEnds(s: string, i: nat)
    requires i <= |s|
    ensures FirstOf(Ends(DOT_TAIL, s, i)) == DotTailEnd(s, i)
  {
    OneThen(Only('.'), Many(Tail, 1, None), s, i);
    if i < |s| {
      TailEnds(s, i + 1);
    }
  }

  /** Only the whole label can be followed by the dot. */
  lemma DomainByRun(s: string, i: nat)
    requires i <= |s|
    ensures var e := RunEnd(Label, s, i);
            Ends(DOMAIN, s, i) == if e == i then [] else Ends(DOT_TAIL, s, e)
  {
    var e := RunEnd(Label, s, i);
    if e == i {
      EmptyRun(Label, DOT_TAIL, s, i);
    } else {
      forall k | i < k < e ensures Ends(DOT_TAIL, s, k) == [] {
        OneThen(Only('.'), Many(Tail, 1, None), s, k);
      }
      WholeRun(Label, DOT_TAIL, s, i);
    }
  }

  lemma DomainEnds(s: string, i: nat)
    requires i <= |s|
    ensures FirstOf(Ends(DOMAIN, s, i)) == DomainEnd(s, i)
  {
    DomainByRun(s, i);
    DotTailEnds(s, RunEnd(Label, s, i));
  }

  lemma AtDomainEnds(s: string, i: nat)
    requires i <= |s|
    ensures FirstOf(Ends(AT_DOMAIN, s, i)) == AtDomainEnd(s, i)
  {
    OneThen(Only('@'), DOMAIN, s, i);
    if i < |s| {
      DomainEnds(s, i + 1);
    }
  }

  /** Only the whole run of local characters can be followed by "@". */
  lemma EmailByRun(s: string, i: nat)
    requires i <= |s|
    ensures var e := RunEnd(Local, s, i);
            Ends(EMAIL, s, i) == if e == i then [] else Ends(AT_DOMAIN, s, e)
  {
    var e := RunEnd(Local, s, i);
    if e == i {
      EmptyRun(Local, AT_DOMAIN, s, i);
    } else {
      forall k | i < k < e ensures Ends(AT_DOMAIN, s, k) == [] {
        OneThen(Only('@'), DOMAIN, s, k);
      }
      WholeRun(Local, AT_DOMAIN, s, i);
    }
  }

  /** The backtracking matcher's best end is the one computed from maximal runs. */
  lemma EmailEnds(s: string, i: nat)
    requires i <= |s|
    ensures FirstOf(Ends(EMAIL, s, i)) == EmailEnd(s, i)
  {
    EmailByRun(s, i);
    AtDomainEnds(s, RunEnd(Local, s, i));
  }

  // ---------------------------------------------------------------- the linear scan

  /** Where the run of local characters that ends at k starts. */
  function RunStart(s: string, k: nat): (b: nat)
    requires k <= |s|
    ensures b <= k
    ensures forall j :: b <= j < k ==> In(s[j], Local)
    ensures b > 0 ==> !In(s[b - 1], Local)
  {
    if k > 0 && In(s[k - 1], Local) then RunStart(s, k - 1) else k
  }

  predicate GoodAt(s: string, k: nat) {
    k < |s| && s[k] == '@' && RunStart(s, k) < k && DomainEnd(s, k + 1).Some?
  }

  /** From k on, the first "@" with a local run before it and a domain after it. */
  function FirstGoodAt(s: string, k: nat): (r: Option<nat>)
    requires k <= |s|
    ensures r.Some? ==> k <= r.value < |s| && GoodAt(s, r.value) && forall j :: k <= j < r.value ==> !GoodAt(s, j)
    ensures r.None? ==> forall j :: k <= j < |s| ==> !GoodAt(s, j)
    decreases |s| - k
  {
    if k == |s| then None else if GoodAt(s, k) then Some(k) else FirstGoodAt(s, k + 1)
  }

  function Scan(s: string): Option<(nat, nat)> {
    match FirstGoodAt(s, 0)
    case Some(k) => Some((RunStart(s, k), DomainEnd(s, k + 1).value))
    case None => None
  }

  /** A match at the start of the run before a good "@". */
  lemma GoodAtMatches(s: string, k: nat)
    requires GoodAt(s, k)
    ensures EmailEnd(s, RunStart(s, k)) == DomainEnd(s, k + 1)
  {
    RunEndUnique(Local, s, RunStart(s, k), k);
  }

  /** Every match starts in the run before a good "@". */
  lemma MatchHasGoodAt(s: string, i: nat) returns (k: nat)
    requires i <= |s| && EmailEnd(s, i).Some?
    ensures i < k && GoodAt(s, k) && RunStart(s, k) <= i && EmailEnd(s, i) == DomainEnd(s, k + 1)
  {
    k := RunEnd(Local, s, i);
  }

  lemma SearchByRuns(s: string)
    ensures var m := Search(EMAIL, s);
            (m.Some? ==> EmailEnd(s, m.value.0) == Some(m.value.1)) &&
            forall k :: 0 <= k < (if m.Some? then m.value.0 else |s| + 1) ==> EmailEnd(s, k).None?
  {
    forall i | 0 <= i <= |s| ensures FirstOf(Ends(EMAIL, s, i)) == EmailEnd(s, i) {
      EmailEnds(s, i);
    }
  }

  /** The search of the pattern equals the linear scan. */
  lemma SearchIsScan(s: string)
    ensures Search(EMAIL, s) == Scan(s)
  {
    SearchByRuns(s);
    var m := Search(EMAIL, s);
    match FirstGoodAt(s, 0)
    case None =>
      if m.Some? {
        var k := MatchHasGoodAt(s, m.value.0);
      }
    case Some(k) => GoodAtIsFound(s, k);
  }

  lemma GoodAtIsFound(s: string, k: nat)
    requires FirstGoodAt(s, 0) == Some(k)
    ensures Search(EMAIL, s) == Some((RunStart(s, k), DomainEnd(s, k + 1).value))
  {
    SearchByRuns(s);
    GoodAtMatches(s, k);
    var m := Search(EMAIL, s);
    assert m.Some? && m.value.0 <= RunStart(s, k);
    var j := MatchHasGoodAt(s, m.value.0);
    ScanOrder(s, k, j, m.value.0);
  }

  /** The match that starts first belongs to the first good "@" and to the whole run before it. */
  lemma ScanOrder(s: string, k: nat, j: nat, i: nat)
    requires GoodAt(s, k) && GoodAt(s, j) && k <= j && RunStart(s, j) <= i <= RunStart(s, k)
    ensures j == k && i == RunStart(s, k)
  {
  }

  /** An address in angle brackets after text without "@" is the search's result. */
  lemma BracketedIsFound(s: string, i: nat, e: nat)
    requires 0 < i <= e < |s| && s[i - 1] == '<' && s[e] == '>' && e in Ends(EMAIL, s, i)
    requires forall j :: 0 <= j < i ==> s[j] != '@'
    ensures Search(EMAIL, s) == Some((i, e))
  {
    EmailStopsAt(s, i, e);
    forall k | 0 <= k < i ensures Ends(EMAIL, s, k) == [] {
      NoEndsBefore(s, k, i - 1);
    }
  }

  lemma NoEndsBefore(s: string, k: nat, n: nat)
    requires k <= n < |s| && s[n] == '<' && forall j :: 0 <= j < n ==> s[j] != '@'
    ensures Ends(EMAIL, s, k) == []
  {
    EmailEnds(s, k);
    NoMatchBefore(s, k, n);
  }

  lemma DescribedIsEnd(r: Regex, s: string, i: nat, e: nat, address: string)
    requires i <= e <= |s| && s[i..e] == address && Describes(r, address)
    ensures e in Ends(r, s, i)
  {
    EndsExactly(r, s, i, e);
  }

  /** The address stands at positions i to e of s, in angle brackets, after text without "@":
      the name-addr form of section 3.4 of RFC 5322. */
  ghost predicate StandsBracketed(s: string, i: nat, e: nat, address: string) {
    0 < i <= e < |s| && s[i - 1] == '<' && s[e] == '>' && s[i..e] == address &&
    forall j :: 0 <= j < i ==> s[j] != '@'
  }

  /** Every text name, "<", address, ">", rest is of that form. */
  lemma NameAddrStands(name: string, address: string, rest: string)
    requires '@' !in name
    ensures StandsBracketed(name + "<" + address + ">" + rest, |name| + 1, |name| + 1 + |address|, address)
  {
  }

  /** After a name without "@", any address the pattern describes is found exactly. */
  lemma NameAddrIsFound(s: string, i: nat, e: nat, address: string)
    requires StandsBracketed(s, i, e, address) && Describes(EMAIL, address)
    ensures Search(EMAIL, s) == Some((i, e))
  {
    DescribedIsEnd(EMAIL, s, i, e, address);
    BracketedIsFound(s, i, e);
  }

  /** The address ends at its bracket in any text name, "<", address, ">", rest. */
  lemma AddressEnds(r: Regex, name: string, address: string, rest: string)
    requires Describes(r, address)
    ensures |name| + 1 + |address| in Ends(r, name + "<" + address + ">" + rest, |name| + 1)
  {
    var s := name + "<" + address + ">" + rest;
    assert s[|name| + 1..|name| + 1 + |address|] == address;
    DescribedIsEnd(r, s, |name| + 1, |name| + 1 + |address|, address);
  }

  lemma AddressIsBest(name: string, address: string, rest: string)
    requires '@' !in name
    requires |name| + 1 + |address| in Ends(EMAIL, name + "<" + address + ">" + rest, |name| + 1)
    ensures Search(EMAIL, name + "<" + address + ">" + rest) == Some((|name| + 1, |name| + 1 + |address|))
  {
    NameAddrStands(name, address, rest);
    BracketedIsFound(name + "<" + address + ">" + rest, |name| + 1, |name| + 1 + |address|);
  }

  /** From "name <address>" followed by anything, the search finds exactly the address. */
  lemma NameAddrTextIsFound(name: string, address: string, rest: string)
    requires '@' !in name && Describes(EMAIL, address)
    ensures Search(EMAIL, name + "<" + address + ">" + rest) == Some((|name| + 1, |name| + 1 + |address|))
  {
    AddressEnds(EMAIL, name, address, rest);
    AddressIsBest(name, address, rest);
  }

  lemma NoMatchBefore(s: string, k: nat, n: nat)
    requires k <= n < |s| && s[n] == '<' && forall j :: 0 <= j < n ==> s[j] != '@'
    ensures EmailEnd(s, k).None?
  {
  }

  /** If e is among the ends and the text goes on with a character outside the tail class, e is best. */
  lemma EmailStopsAt(s: string, i: nat, e: nat)
    requires i <= e < |s| && !In(s[e], Tail)
    requires e in Ends(EMAIL, s, i)
    ensures Ends(EMAIL, s, i)[0] == e
  {
    var a := RunEnd(Local, s, i);
    EmailByRun(s, i);
    AtDomainStopsAt(s, a, e);
  }

  lemma AtDomainStopsAt(s: string, i: nat, e: nat)
    requires i <= |s| && e < |s| && !In(s[e], Tail) && e in Ends(AT_DOMAIN, s, i)
    ensures Ends(AT_DOMAIN, s, i)[0] == e
  {
    OneThen(Only('@'), DOMAIN, s, i);
    DomainStopsAt(s, i + 1, e);
  }

  lemma DomainStopsAt(s: string, i: nat, e: nat)
    requires i <= |s| && e < |s| && !In(s[e], Tail) && e in Ends(DOMAIN, s, i)
    ensures Ends(DOMAIN, s, i)[0] == e
  {
    var b := RunEnd(Label, s, i);
    DomainByRun(s, i);
    OneThen(Only('.'), Many(Tail, 1, None), s, b);
    TailStopsAt(s, b + 1, e);
  }

  lemma TailStopsAt(s: string, i: nat, e: nat)
    requires i <= |s| && e < |s| && !In(s[e], Tail) && e in Ends(Many(Tail, 1, None), s, i)
    ensures Ends(Many(Tail, 1, None), s, i)[0] == e
  {
    assert i + 1 <= e <= RunEnd(Tail, s, i);
  }
}
