/** The string operations of Python the service uses, on ASCII text. */
module Text {

  /** str.isspace on ASCII: tab to carriage return, the four separators, and space. */
  predicate IsSpace(c: char) {
    9 as char <= c <= 13 as char || 28 as char <= c <= 32 as char
  }

  predicate IsDigit(c: char) {
    '0' <= c <= '9'
  }

  predicate IsAlnum(c: char) {
    IsDigit(c) || 'a' <= c <= 'z' || 'A' <= c <= 'Z'
  }

  function LowerChar(c: char): (r: char)
    ensures !('A' <= r <= 'Z')
    ensures IsSpace(r) == IsSpace(c) && IsDigit(r) == IsDigit(c)
    ensures (r == '@') == (c == '@') && (r == '+') == (c == '+')
    ensures !('A' <= c <= 'Z') ==> r == c
  {
    if 'A' <= c <= 'Z' then (c as int + 32) as char else c
  }

  /** str.lower */
  function Lower(s: string): (r: string)
    ensures |r| == |s|
    ensures forall i :: 0 <= i < |s| ==> r[i] == LowerChar(s[i])
  {
    seq(|s|, i requires 0 <= i < |s| => LowerChar(s[i]))
  }

  function StripLeft(s: string): (r: string)
    ensures |r| <= |s| && r == s[|s| - |r|..]
    ensures forall i :: 0 <= i < |s| - |r| ==> IsSpace(s[i])
    ensures r != [] ==> !IsSpace(r[0])
  {
    if s != [] && IsSpace(s[0]) then StripLeft(s[1..]) else s
  }

  function StripRight(s: string): (r: string)
    ensures |r| <= |s| && r == s[..|r|]
    ensures forall i :: |r| <= i < |s| ==> IsSpace(s[i])
    ensures r != [] ==> !IsSpace(r[|r| - 1])
  {
    if s != [] && IsSpace(s[|s| - 1]) then StripRight(s[..|s| - 1]) else s
  }

  /** str.strip */
  function Strip(s: string): (r: string)
    ensures r != [] ==> !IsSpace(r[0]) && !IsSpace(r[|r| - 1])
  {
    StripRight(StripLeft(s))
  }

  /** Where the stripped text lies: everything outside it is white space. */
  lemma StripSpan(s: string) returns (lo: nat, hi: nat)
    ensures lo <= hi <= |s| && Strip(s) == s[lo..hi]
    ensures forall i :: 0 <= i < lo ==> IsSpace(s[i])
    ensures forall i :: hi <= i < |s| ==> IsSpace(s[i])
  {
    lo := |s| - |StripLeft(s)|;
    hi := lo + |Strip(s)|;
    forall i | hi <= i < |s| ensures IsSpace(s[i]) {
      assert s[i] == StripLeft(s)[i - lo];
    }
  }

  /** Between lo and hi stands text that neither starts nor ends with white space, around it white space only. */
  predicate Inside(s: string, lo: int, hi: int) {
    0 <= lo < hi <= |s| && !IsSpace(s[lo]) && !IsSpace(s[hi - 1]) &&
    (forall i :: 0 <= i < lo ==> IsSpace(s[i])) && forall i :: hi <= i < |s| ==> IsSpace(s[i])
  }

  lemma InsideUnique(s: string, lo: int, hi: int, a: int, b: int)
    requires Inside(s, lo, hi) && Inside(s, a, b)
    ensures lo == a && hi == b
  {
    assert !(lo < a) && !(a < lo);
    assert !(hi < b) && !(b < hi);
  }

  lemma StripInside(s: string, a: int, b: int)
    requires Inside(s, a, b)
    ensures Strip(s) == s[a..b]
  {
    var lo, hi := StripSpan(s);
    assert lo <= a && b <= hi;
    assert Strip(s)[0] == s[lo] && Strip(s)[|Strip(s)| - 1] == s[hi - 1];
    InsideUnique(s, lo, hi, a, b);
  }

  /** White space around a text is stripped, and nothing else. */
  lemma StripAround(before: string, t: string, after: string)
    requires t != "" && !IsSpace(t[0]) && !IsSpace(t[|t| - 1])
    requires forall i :: 0 <= i < |before| ==> IsSpace(before[i])
    requires forall i :: 0 <= i < |after| ==> IsSpace(after[i])
    ensures Strip(before + t + after) == t
  {
    var s := before + t + after;
    var b := |before| + |t|;
    forall i | b <= i < |s| ensures IsSpace(s[i]) {
      assert s[i] == after[i - b];
    }
    StripInside(s, |before|, b);
  }

  /** The white space characters by their codes, the digits, and what lower makes of a capital. */
  lemma CharsExactly(c: char)
    ensures IsSpace(c) <==> c as int in {9, 10, 11, 12, 13, 28, 29, 30, 31, 32}
    ensures IsDigit(c) <==> c in "0123456789"
    ensures 'A' <= c <= 'Z' ==> LowerChar(c) as int - 'a' as int == c as int - 'A' as int
  {
    assert forall k :: 0 <= k < 10 ==> "0123456789"[k] == ('0' as int + k) as char;
    if IsDigit(c) {
      assert "0123456789"[c as int - 48] == c;
    }
  }

  lemma StripFixed(s: string)
    requires s == [] || (!IsSpace(s[0]) && !IsSpace(s[|s| - 1]))
    ensures Strip(s) == s
  {
  }

  /** A character other than white space survives stripping. */
  lemma StripKeeps(s: string, c: char)
    requires !IsSpace(c)
    ensures c in Strip(s) <==> c in s
  {
    var lo, hi := StripSpan(s);
    if c in s {
      var i :| 0 <= i < |s| && s[i] == c;
      assert Strip(s)[i - lo] == c;
    }
  }

  lemma LowerIdempotent(s: string)
    ensures Lower(Lower(s)) == Lower(s)
  {
  }

  predicate IsAt(k: string, t: string, i: int) {
    0 <= i && i + |k| <= |t| && t[i..i + |k|] == k
  }

  /** The `in` test of Python on strings. */
  predicate Occurs(k: string, t: string) {
    exists i :: 0 <= i <= |t| - |k| && IsAt(k, t, i)
  }

  lemma SliceOfSlice(u: string, lo: nat, hi: nat, a: nat, b: nat)
    requires lo <= hi <= |u| && a <= b <= hi - lo
    ensures u[lo..hi][a..b] == u[lo + a..lo + b]
  {
    var x, y := u[lo..hi][a..b], u[lo + a..lo + b];
    assert |x| == |y|;
    assert forall k :: 0 <= k < |x| ==> x[k] == y[k];
  }

  /** An occurrence is an occurrence in every larger text. */
  lemma OccursTrans(k: string, t: string, u: string)
    requires Occurs(k, t) && Occurs(t, u)
    ensures Occurs(k, u)
  {
    var i :| 0 <= i <= |t| - |k| && IsAt(k, t, i);
    var j :| 0 <= j <= |u| - |t| && IsAt(t, u, j);
    SliceOfSlice(u, j, j + |t|, i, i + |k|);
    assert IsAt(k, u, j + i);
  }

  lemma OccursMiddle(a: string, b: string, c: string)
    ensures Occurs(b, a + b + c)
  {
    assert (a + b + c)[|a|..|a| + |b|] == b;
    assert IsAt(b, a + b + c, |a|);
  }

  lemma OccursLower(t: string, u: string)
    requires Occurs(t, u)
    ensures Occurs(Lower(t), Lower(u))
  {
    var i :| 0 <= i <= |u| - |t| && IsAt(t, u, i);
    assert Lower(u)[i..i + |t|] == Lower(t) by {
      forall k | 0 <= k < |t| ensures Lower(u)[i..i + |t|][k] == Lower(t)[k] {
        assert u[i + k] == u[i..i + |t|][k];
      }
    }
    assert IsAt(Lower(t), Lower(u), i);
  }

  /** Stripping removes no occurrence of a text that neither starts nor ends with white space. */
  lemma OccursStrip(k: string, t: string)
    requires k != [] && !IsSpace(k[0]) && !IsSpace(k[|k| - 1])
    ensures Occurs(k, Strip(t)) <==> Occurs(k, t)
  {
    var lo, hi := StripSpan(t);
    if Occurs(k, Strip(t)) {
      assert IsAt(Strip(t), t, lo);
      OccursTrans(k, Strip(t), t);
    }
    if Occurs(k, t) {
      var i :| 0 <= i <= |t| - |k| && IsAt(k, t, i);
      OccursWithin(k, t, i, lo, hi);
    }
  }

  lemma OccursWithin(k: string, t: string, i: nat, lo: nat, hi: nat)
    requires k != [] && !IsSpace(k[0]) && !IsSpace(k[|k| - 1])
    requires IsAt(k, t, i) && lo <= hi <= |t|
    requires forall j :: 0 <= j < lo ==> IsSpace(t[j])
    requires forall j :: hi <= j < |t| ==> IsSpace(t[j])
    ensures Occurs(k, t[lo..hi])
  {
    assert t[i] == k[0] && t[i + |k| - 1] == k[|k| - 1];
    SliceOfSlice(t, lo, hi, i - lo, i - lo + |k|);
    assert IsAt(k, t[lo..hi], i - lo);
  }
}
