/**
 Where the match of the phone pattern ends: a number of two to fifteen digits, with or without a
 plus, is found whole, and so is its extension; of a longer run the first fifteen digits are.
 */
module NumberSearch {
  import opened Basics
  import opened Normalizer
  import opened Regex
  import opened PhoneSearch

  predicate IsNumeral(s: string, k: int) {
    0 <= k < |s| && '0' <= s[k] <= '9'
  }

  /** The digits at j to j + n of s are a number that starts at i, with the plus if there is one, after text
      without a digit or "(". They are the first fifteen digits of their run, or all of it. */
  predicate StandsNumber(s: string, i: nat, j: nat, n: nat) {
    2 <= n <= 15 && j + n <= |s| &&
    (if j == i then i == 0 || s[i - 1] != '+' else j == i + 1 && s[i] == '+') &&
    '1' <= s[j] <= '9' && (forall k :: j <= k < j + n ==> IsNumeral(s, k)) &&
    (n == 15 || !IsNumeral(s, j + n)) &&
    forall k :: 0 <= k < i ==> !IsNumeral(s, k) && s[k] != '('
  }

  /** An "x" and m digits, all of their run, follow at c. */
  predicate StandsExtension(s: string, c: nat, m: nat) {
    m >= 1 && c + 1 + m <= |s| && s[c] == 'x' &&
    (forall k :: c + 1 <= k < c + 1 + m ==> IsNumeral(s, k)) && !IsNumeral(s, c + 1 + m)
  }

  lemma NumeralsAreDigits(s: string, lo: int, hi: int)
    requires forall k :: lo <= k < hi ==> IsNumeral(s, k)
    ensures forall k :: lo <= k < hi ==> DigitAt(s, k)
  {
    forall k | lo <= k < hi ensures DigitAt(s, k) {
      assert IsNumeral(s, k);
    }
  }

  lemma DigitRunEnds(s: string, j: nat, m: nat)
    requires j + m <= |s| && (forall k :: j <= k < j + m ==> IsNumeral(s, k)) && !IsNumeral(s, j + m)
    ensures RunEnd(Digit, s, j) == j + m
  {
    NumeralsAreDigits(s, j, j + m);
    forall k | j <= k < j + m ensures In(s[k], Digit) {
      assert DigitAt(s, k);
    }
    assert j + m < |s| ==> !In(s[j + m], Digit);
    RunEndUnique(Digit, s, j, j + m);
  }

  /** The digits after the first one. */
  lemma DigitsBest(s: string, j: nat, m: nat)
    requires 1 <= m <= 14 && j + m <= |s| && (forall k :: j <= k < j + m ==> IsNumeral(s, k))
    requires m == 14 || !IsNumeral(s, j + m)
    ensures FirstOf(Ends(Many(Digit, 1, Some(14)), s, j)) == Some(j + m)
  {
    if m < 14 {
      DigitRunEnds(s, j, m);
    } else {
      NumeralsAreDigits(s, j, j + 14);
      DigitRun(s, j, 14);
    }
    assert CappedEnd(Digit, s, j, Some(14)) == j + m;
  }

  lemma ExtensionBest(s: string, c: nat, m: nat)
    requires StandsExtension(s, c, m)
    ensures FirstOf(Ends(EXTENSION, s, c)) == Some(c + 1 + m)
  {
    OneThen(Only('x'), Many(Digit, 1, None), s, c);
    DigitRunEnds(s, c + 1, m);
  }

  lemma NoExtensionBest(s: string, c: nat)
    requires c <= |s| && (c == |s| || s[c] != 'x' || !IsNumeral(s, c + 1))
    ensures FirstOf(Ends(EXTENSION, s, c)) == Some(c)
  {
    OneThen(Only('x'), Many(Digit, 1, None), s, c);
    if c < |s| && s[c] == 'x' {
      assert RunEnd(Digit, s, c + 1) == c + 1;
    }
  }

  lemma ExtensionFits(s: string, c: nat)
    requires c <= |s|
    ensures Ends(EXTENSION, s, c) != []
  {
  }

  /** The number ends where what follows its digits does. */
  lemma NumberBest(end: Regex, s: string, j: nat, n: nat)
    requires 2 <= n <= 15 && j + n <= |s| && '1' <= s[j] <= '9' && (forall k :: j <= k < j + n ==> IsNumeral(s, k))
    requires (n == 15 || !IsNumeral(s, j + n)) && Ends(end, s, j + n) != []
    ensures FirstOf(Ends(Then(One(Leading), Then(Many(Digit, 1, Some(14)), end)), s, j)) ==
            FirstOf(Ends(end, s, j + n))
  {
    OneThen(Leading, Then(Many(Digit, 1, Some(14)), end), s, j);
    DigitsBest(s, j + 1, n - 1);
    ThenBest(Many(Digit, 1, Some(14)), end, s, j + 1, j + n);
  }

  /** A plus in front does not change that. */
  lemma PlusOrNot(number: Regex, s: string, i: nat, j: nat)
    requires i <= j < |s| && Ends(number, s, j) != []
    requires if j == i then s[i] != '+' else j == i + 1 && s[i] == '+'
    ensures FirstOf(Ends(Then(Optional(Only('+')), number), s, i)) == FirstOf(Ends(number, s, j))
  {
    OptionalThen(Only('+'), number, s, i);
    if j == i + 1 {
      FirstOfConcat(Ends(number, s, j), Ends(number, s, i));
    }
  }

  lemma FirstOfConcat(x: seq<nat>, y: seq<nat>)
    requires x != []
    ensures FirstOf(x + y) == FirstOf(x)
  {
  }

  lemma InternationalBest(s: string, i: nat, j: nat, n: nat)
    requires StandsNumber(s, i, j, n)
    ensures FirstOf(Ends(INTERNATIONAL, s, i)) == FirstOf(Ends(EXTENSION, s, j + n))
  {
    ExtensionFits(s, j + n);
    NumberBest(EXTENSION, s, j, n);
    PlusOrNot(NUMBER, s, i, j);
  }

  /** No match starts earlier. */
  lemma NothingBeforeNumber(s: string, i: nat, j: nat, n: nat, k: nat)
    requires StandsNumber(s, i, j, n) && k < i
    ensures Ends(PHONE, s, k) == []
  {
    assert !IsNumeral(s, k) && s[k] != '(';
    assert s[k] == '+' ==> !IsNumeral(s, k + 1);
    NothingAt(s, k);
  }

  lemma NothingAt(s: string, k: nat)
    requires k < |s| && !IsNumeral(s, k) && s[k] != '(' && (s[k] == '+' ==> !IsNumeral(s, k + 1))
    ensures Ends(PHONE, s, k) == []
  {
    OrEnds(INTERNATIONAL, PRINTED, s, k);
    InternationalStarts(s, k);
    if Ends(PRINTED, s, k) != [] {
      PrintedStarts(s, k);
    }
  }

  lemma NumberSearched(s: string, i: nat, j: nat, n: nat, e: nat)
    requires StandsNumber(s, i, j, n) && FirstOf(Ends(EXTENSION, s, j + n)) == Some(e)
    ensures Search(PHONE, s) == Some((i, e))
  {
    forall k | 0 <= k < i ensures Ends(PHONE, s, k) == [] {
      NothingBeforeNumber(s, i, j, n, k);
    }
    InternationalBest(s, i, j, n);
    OrEnds(INTERNATIONAL, PRINTED, s, i);
    SearchFinds(PHONE, s, i, e);
  }

  /** A number of two to fifteen digits, or the first fifteen of a longer run, is found exactly, with its plus
      if it has one. */
  lemma NumberIsFound(s: string, i: nat, j: nat, n: nat)
    requires StandsNumber(s, i, j, n) && (j + n == |s| || s[j + n] != 'x' || !IsNumeral(s, j + n + 1))
    ensures Search(PHONE, s) == Some((i, j + n))
  {
    NoExtensionBest(s, j + n);
    NumberSearched(s, i, j, n, j + n);
  }

  /** With "x" and digits behind it, they are found with it. */
  lemma ExtendedNumberIsFound(s: string, i: nat, j: nat, n: nat, m: nat)
    requires StandsNumber(s, i, j, n) && StandsExtension(s, j + n, m)
    ensures Search(PHONE, s) == Some((i, j + n + 1 + m))
  {
    ExtensionBest(s, j + n, m);
    NumberSearched(s, i, j, n, j + n + 1 + m);
  }

  // ---------------------------------------------------------------- what is made of it

  predicate OnlyPhoneChars(t: string) {
    forall c :: c in t ==> IsPhoneChar(c)
  }

  lemma NumeralsAreOnlyPhoneChars(s: string, lo: nat, hi: nat)
    requires lo <= hi <= |s| && forall k :: lo <= k < hi ==> IsNumeral(s, k)
    ensures OnlyPhoneChars(s[lo..hi])
  {
    var t := s[lo..hi];
    forall c | c in t ensures IsPhoneChar(c) {
      var k :| 0 <= k < |t| && t[k] == c;
      assert IsNumeral(s, lo + k);
    }
  }

  lemma NumberIsOnlyPhoneChars(s: string, i: nat, j: nat, n: nat)
    requires StandsNumber(s, i, j, n)
    ensures OnlyPhoneChars(s[i..j + n])
  {
    NumeralsAreOnlyPhoneChars(s, j, j + n);
    if j == i + 1 {
      assert s[i..j + n] == ['+'] + s[j..j + n];
    }
  }

  /** The found text is its phone characters. */
  lemma NumberPhoneChars(s: string, i: nat, j: nat, n: nat)
    requires StandsNumber(s, i, j, n)
    ensures PhoneChars(s[i..j + n]) == s[i..j + n]
  {
    NumberIsOnlyPhoneChars(s, i, j, n);
    PhoneCharsFixed(s[i..j + n]);
  }

  /** With an extension, the "x" is dropped and its digits follow those of the number. */
  lemma ExtendedPhoneChars(s: string, i: nat, j: nat, n: nat, m: nat)
    requires StandsNumber(s, i, j, n) && StandsExtension(s, j + n, m)
    ensures PhoneChars(s[i..j + n + 1 + m]) == s[i..j + n] + s[j + n + 1..j + n + 1 + m]
  {
    NumberIsOnlyPhoneChars(s, i, j, n);
    NumeralsAreOnlyPhoneChars(s, j + n + 1, j + n + 1 + m);
    ExtendedSlice(s, i, j + n, j + n + 1 + m);
  }

  lemma ExtendedSlice(s: string, i: nat, c: nat, e: nat)
    requires i <= c < e <= |s| && s[c] == 'x' && OnlyPhoneChars(s[i..c]) && OnlyPhoneChars(s[c + 1..e])
    ensures PhoneChars(s[i..e]) == s[i..c] + s[c + 1..e]
  {
    AroundOne(s, i, c, e);
    ExtendedText(s[i..c], s[c + 1..e], s[i..e]);
  }

  lemma AroundOne(s: string, i: nat, c: nat, e: nat)
    requires i <= c < e <= |s|
    ensures s[i..e] == s[i..c] + [s[c]] + s[c + 1..e]
  {
  }

  lemma ExtendedText(a: string, b: string, t: string)
    requires OnlyPhoneChars(a) && OnlyPhoneChars(b) && t == a + ['x'] + b
    ensures PhoneChars(t) == a + b
  {
    OtherCharDropped(a, 'x', b);
    PhoneCharsFixed(a + b);
  }
}
