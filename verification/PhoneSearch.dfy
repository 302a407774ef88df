/** The two-alternative phone pattern. */
module PhoneSearch {
  import opened Basics
  import opened Text
  import opened Normalizer
  import opened Regex

  const EXTENSION := Maybe(Then(One(Only('x')), Many(Digit, 1, None)))

  /** [1-9]\d{1,14}(?:x\d+)? */
  const NUMBER := Then(One(Leading), Then(Many(Digit, 1, Some(14)), EXTENSION))

  /** \+?[1-9]\d{1,14}(?:x\d+)? */
  const INTERNATIONAL := Then(Optional(Only('+')), NUMBER)

  const LINE := Many(Digit, 4, Some(4))
  const GROUP_LINE := Then(Many(Digit, 3, Some(3)), Then(Optional(Separator), LINE))
  const AREA_REST := Then(Optional(Only(')')), Then(Optional(Separator), GROUP_LINE))
  const AREA := Then(Many(Digit, 3, Some(3)), AREA_REST)

  /** \(?\d{3}\)?[-.\s]?\d{3}[-.\s]?\d{4} */
  const PRINTED := Then(Optional(Only('(')), AREA)

  const PHONE := Or(INTERNATIONAL, PRINTED)

  predicate DigitAt(s: string, i: int) {
    0 <= i < |s| && IsDigit(s[i])
  }

  // ---------------------------------------------------------------- where each alternative starts

  lemma DownSelf(i: nat)
    ensures Down(i, i) == [i]
  {
  }

  lemma {:induction false} DigitRun(s: string, i: nat, n: nat)
    requires i + n <= |s| && forall k :: i <= k < i + n ==> DigitAt(s, k)
    ensures RunEnd(Digit, s, i) >= i + n
    decreases n
  {
    if n > 0 {
      assert DigitAt(s, i);
      DigitRun(s, i + 1, n - 1);
    }
  }

  lemma OptionalEnds(cls: Class, s: string, i: nat)
    requires i <= |s|
    ensures Ends(Optional(cls), s, i) == if i < |s| && In(s[i], cls) then [i + 1, i] else [i]
  {
    DownSelf(i);
    if i < |s| && In(s[i], cls) {
      assert RunEnd(cls, s, i) >= i + 1;
      assert Down(i + 1, i) == [i + 1] + Down(i, i);
    }
  }

  lemma OptionalThen(cls: Class, b: Regex, s: string, i: nat)
    requires i <= |s|
    ensures Ends(Then(Optional(cls), b), s, i) ==
            if i < |s| && In(s[i], cls) then Ends(b, s, i + 1) + Ends(b, s, i) else Ends(b, s, i)
  {
    OptionalEnds(cls, s, i);
    var starts := Ends(Optional(cls), s, i);
    if i < |s| && In(s[i], cls) {
      assert starts[1..] == [i] && starts[1..][1..] == [];
      assert EndsFrom(b, s, starts[1..], i) == Ends(b, s, i) + [];
    } else {
      assert starts[1..] == [];
      assert EndsFrom(b, s, starts, i) == Ends(b, s, i) + [];
    }
  }

  /** A bounded repetition of digits. */
  lemma DigitsEnds(least: nat, most: nat, s: string, i: nat)
    requires i <= |s| && 1 <= least <= most
    ensures Ends(Many(Digit, least, Some(most)), s, i) != [] <==>
            i + least <= |s| && forall k :: i <= k < i + least ==> DigitAt(s, k)
  {
    var e := RunEnd(Digit, s, i);
    if i + least <= |s| && forall k :: i <= k < i + least ==> DigitAt(s, k) {
      DigitRun(s, i, least);
    }
    if e >= i + least {
      forall k | i <= k < i + least ensures DigitAt(s, k) {
        assert In(s[k], Digit);
      }
    }
  }

  lemma NumberStarts(s: string, i: nat)
    requires i <= |s|
    ensures Ends(NUMBER, s, i) != [] <==> i + 1 < |s| && In(s[i], Leading) && DigitAt(s, i + 1)
  {
    var rest := Then(Many(Digit, 1, Some(14)), EXTENSION);
    OneThen(Leading, rest, s, i);
    if i < |s| {
      DigitsEnds(1, 14, s, i + 1);
      var starts := Ends(Many(Digit, 1, Some(14)), s, i + 1);
      if starts != [] {
        assert Ends(EXTENSION, s, starts[0]) != [];
      }
    }
  }

  /** The first alternative fits exactly at an optional plus, a digit from 1 to 9 and a digit. */
  lemma InternationalStarts(s: string, i: nat)
    requires i <= |s|
    ensures Ends(INTERNATIONAL, s, i) != [] <==>
            var j := if i < |s| && s[i] == '+' then i + 1 else i;
            j + 1 < |s| && In(s[j], Leading) && DigitAt(s, j + 1)
  {
    OptionalThen(Only('+'), NUMBER, s, i);
    NumberStarts(s, i);
    if i < |s| {
      NumberStarts(s, i + 1);
    }
  }

  lemma AreaStarts(s: string, i: nat)
    requires i <= |s| && Ends(AREA, s, i) != []
    ensures i + 3 <= |s| && DigitAt(s, i) && DigitAt(s, i + 1) && DigitAt(s, i + 2)
  {
    DigitsEnds(3, 3, s, i);
  }

  /** The second alternative needs three digits, after an optional parenthesis. */
  lemma PrintedStarts(s: string, i: nat)
    requires i <= |s| && Ends(PRINTED, s, i) != []
    ensures var j := if i < |s| && s[i] == '(' then i + 1 else i;
            j + 3 <= |s| && DigitAt(s, j) && DigitAt(s, j + 1)
  {
    OptionalThen(Only('('), AREA, s, i);
    if i < |s| && Ends(AREA, s, i + 1) != [] {
      AreaStarts(s, i + 1);
    }
    if Ends(AREA, s, i) != [] {
      AreaStarts(s, i);
    }
  }

  lemma OrEnds(a: Regex, b: Regex, s: string, i: nat)
    requires i <= |s|
    ensures Ends(Or(a, b), s, i) == Ends(a, s, i) + Ends(b, s, i)
  {
  }

  predicate OpensSecond(s: string, i: nat) {
    i < |s| && (s[i] == '(' || s[i] == '0')
  }

  lemma InternationalNeverOpensSecond(s: string, i: nat)
    requires i <= |s| && OpensSecond(s, i)
    ensures Ends(INTERNATIONAL, s, i) == []
  {
    InternationalStarts(s, i);
  }

  lemma PrintedAloneOpensSecond(s: string, i: nat)
    requires i <= |s| && Ends(PRINTED, s, i) != [] && Ends(INTERNATIONAL, s, i) == []
    ensures OpensSecond(s, i)
  {
    PrintedStarts(s, i);
    if i < |s| && s[i] != '(' {
      assert DigitAt(s, i) && DigitAt(s, i + 1);
      LeadingStartsInternational(s, i);
    }
  }

  lemma LeadingStartsInternational(s: string, i: nat)
    requires i + 1 < |s| && DigitAt(s, i) && DigitAt(s, i + 1)
    ensures s[i] == '0' || Ends(INTERNATIONAL, s, i) != []
  {
    InternationalStarts(s, i);
  }

  /** At a position where the pattern matches, the first alternative is taken whenever it fits, and
      the second is used exactly when the match starts with "(" or "0". */
  lemma AlternativesExactly(s: string, i: nat)
    requires i <= |s| && Ends(PHONE, s, i) != []
    ensures FirstOf(Ends(PHONE, s, i)) == FirstOf(if OpensSecond(s, i) then Ends(PRINTED, s, i)
                                                  else Ends(INTERNATIONAL, s, i))
    ensures Ends(INTERNATIONAL, s, i) == [] <==> OpensSecond(s, i)
  {
    OrEnds(INTERNATIONAL, PRINTED, s, i);
    if OpensSecond(s, i) {
      InternationalNeverOpensSecond(s, i);
    } else if Ends(INTERNATIONAL, s, i) == [] {
      PrintedAloneOpensSecond(s, i);
    }
  }

  // ---------------------------------------------------------------- a printed number

  lemma OptionalBest(cls: Class, b: Regex, s: string, i: nat)
    requires i < |s| && In(s[i], cls) && Ends(b, s, i + 1) != []
    ensures FirstOf(Ends(Then(Optional(cls), b), s, i)) == FirstOf(Ends(b, s, i + 1))
  {
    OptionalThen(cls, b, s, i);
  }

  lemma ExactDigits(n: nat, s: string, i: nat)
    requires 1 <= n && i + n <= |s| && forall k :: i <= k < i + n ==> DigitAt(s, k)
    ensures Ends(Many(Digit, n, Some(n)), s, i) == [i + n]
  {
    DigitRun(s, i, n);
    assert Down(i + n, i + n) == [i + n] + Down(i + n - 1, i + n);
  }

  lemma DigitsThen(n: nat, b: Regex, s: string, i: nat)
    requires 1 <= n && i + n <= |s| && forall k :: i <= k < i + n ==> DigitAt(s, k)
    ensures Ends(Then(Many(Digit, n, Some(n)), b), s, i) == Ends(b, s, i + n)
  {
    ExactDigits(n, s, i);
    var starts := Ends(Many(Digit, n, Some(n)), s, i);
    assert starts[1..] == [];
    assert EndsFrom(b, s, starts, i) == Ends(b, s, i + n) + [];
  }

  /** "(ddd) ddd-dddd" stands at position i of s. */
  predicate PrintedAt(s: string, i: nat) {
    i + 14 <= |s| && s[i] == '(' && s[i + 4] == ')' && s[i + 5] == ' ' && s[i + 9] == '-' &&
    (forall k :: i + 1 <= k < i + 4 ==> DigitAt(s, k)) &&
    (forall k :: i + 6 <= k < i + 9 ==> DigitAt(s, k)) &&
    (forall k :: i + 10 <= k < i + 14 ==> DigitAt(s, k))
  }

  lemma LineBest(s: string, i: nat)
    requires PrintedAt(s, i)
    ensures FirstOf(Ends(GROUP_LINE, s, i + 6)) == Some(i + 14)
  {
    ExactDigits(4, s, i + 10);
    OptionalBest(Separator, LINE, s, i + 9);
    DigitsThen(3, Then(Optional(Separator), LINE), s, i + 6);
  }

  lemma PrintedBest(s: string, i: nat)
    requires PrintedAt(s, i)
    ensures FirstOf(Ends(PRINTED, s, i)) == Some(i + 14)
  {
    LineBest(s, i);
    OptionalBest(Separator, GROUP_LINE, s, i + 5);
    OptionalBest(Only(')'), Then(Optional(Separator), GROUP_LINE), s, i + 4);
    DigitsThen(3, AREA_REST, s, i + 1);
    OptionalBest(Only('('), AREA, s, i);
  }

  lemma NoPhoneBefore(s: string, i: nat, k: nat)
    requires PrintedAt(s, i) && k < i && forall j :: 0 <= j < i ==> !IsDigit(s[j])
    ensures Ends(PHONE, s, k) == []
  {
    OrEnds(INTERNATIONAL, PRINTED, s, k);
    InternationalStarts(s, k);
    if Ends(PRINTED, s, k) != [] {
      PrintedStarts(s, k);
    }
  }

  lemma PhoneBest(s: string, i: nat)
    requires PrintedAt(s, i)
    ensures FirstOf(Ends(PHONE, s, i)) == Some(i + 14)
  {
    OrEnds(INTERNATIONAL, PRINTED, s, i);
    InternationalNeverOpensSecond(s, i);
    PrintedBest(s, i);
  }

  lemma SearchFinds(r: Regex, s: string, i: nat, e: nat)
    requires i <= |s| && FirstOf(Ends(r, s, i)) == Some(e) && forall k :: 0 <= k < i ==> Ends(r, s, k) == []
    ensures Search(r, s) == Some((i, e))
  {
  }

  /** After digit-free text, a number printed as "(ddd) ddd-dddd" is what the search finds. */
  lemma PrintedIsFound(s: string, i: nat)
    requires PrintedAt(s, i) && forall j :: 0 <= j < i ==> !IsDigit(s[j])
    ensures Search(PHONE, s) == Some((i, i + 14))
  {
    PhoneBest(s, i);
    forall k | 0 <= k < i ensures Ends(PHONE, s, k) == [] {
      NoPhoneBefore(s, i, k);
    }
    SearchFinds(PHONE, s, i, i + 14);
  }

  /** The ten digits of the printed number at i. */
  function PrintedDigits(s: string, i: nat): string
    requires PrintedAt(s, i)
  {
    s[i + 1..i + 4] + s[i + 6..i + 9] + s[i + 10..i + 14]
  }

  lemma DigitsKept(s: string, lo: nat, hi: nat)
    requires lo <= hi <= |s| && forall k :: lo <= k < hi ==> DigitAt(s, k)
    ensures PhoneChars(s[lo..hi]) == s[lo..hi]
  {
    var t := s[lo..hi];
    forall c | c in t ensures IsPhoneChar(c) {
      var k :| 0 <= k < |t| && t[k] == c;
      assert DigitAt(s, lo + k);
    }
    PhoneCharsFixed(t);
  }

  lemma SplitPhoneChars(s: string, lo: nat, mid: nat, hi: nat)
    requires lo <= mid <= hi <= |s|
    ensures PhoneChars(s[lo..hi]) == PhoneChars(s[lo..mid]) + PhoneChars(s[mid..hi])
  {
    assert s[lo..hi] == s[lo..mid] + s[mid..hi];
    PhoneCharsConcat(s[lo..mid], s[mid..hi]);
  }

  lemma Dropped(s: string, lo: nat, hi: nat)
    requires lo <= hi <= |s| && forall k :: lo <= k < hi ==> !IsPhoneChar(s[k])
    ensures PhoneChars(s[lo..hi]) == []
  {
    PhoneCharsOfSpace(s[lo..hi]);
  }

  /** Dropping the punctuation of a printed number, part by part. */
  lemma PrintedPhoneChars(s: string, i: nat)
    requires PrintedAt(s, i)
    ensures PhoneChars(s[i..i + 14]) == PrintedDigits(s, i)
  {
    AreaPhoneChars(s, i);
    LinePhoneChars(s, i);
    SplitPhoneChars(s, i, i + 6, i + 14);
  }

  lemma LinePhoneChars(s: string, i: nat)
    requires PrintedAt(s, i)
    ensures PhoneChars(s[i + 6..i + 14]) == s[i + 6..i + 9] + s[i + 10..i + 14]
  {
    SplitPhoneChars(s, i + 6, i + 9, i + 14);
    SplitPhoneChars(s, i + 9, i + 10, i + 14);
    DigitsKept(s, i + 6, i + 9);
    Dropped(s, i + 9, i + 10);
    DigitsKept(s, i + 10, i + 14);
  }

  lemma AreaPhoneChars(s: string, i: nat)
    requires PrintedAt(s, i)
    ensures PhoneChars(s[i..i + 6]) == s[i + 1..i + 4]
  {
    SplitPhoneChars(s, i, i + 1, i + 6);
    Dropped(s, i, i + 1);
    DigitsThenDropped(s, i + 1, i + 4, i + 6);
  }

  lemma DigitsThenDropped(s: string, lo: nat, mid: nat, hi: nat)
    requires lo <= mid <= hi <= |s| && forall k :: lo <= k < mid ==> DigitAt(s, k)
    requires forall k :: mid <= k < hi ==> !IsPhoneChar(s[k])
    ensures PhoneChars(s[lo..hi]) == s[lo..mid]
  {
    SplitPhoneChars(s, lo, mid, hi);
    DigitsKept(s, lo, mid);
    Dropped(s, mid, hi);
  }

  lemma PrintedNormalizes(s: string, i: nat)
    requires PrintedAt(s, i)
    ensures NormalizePhone(s[i..i + 14]) == Some("+1" + PrintedDigits(s, i))
  {
    PrintedPhoneChars(s, i);
    assert DigitAt(s, i + 1) && PrintedDigits(s, i)[0] == s[i + 1];
  }
}
