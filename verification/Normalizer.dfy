/** Phone and email canonicalisation, and what is stored for a raw identifier. */
module Normalizer {
  import opened Basics
  import opened Text

  predicate IsPhoneChar(c: char) {
    IsDigit(c) || c == '+'
  }

  /** The characters kept by the substitution that removes all but digits and plus signs. */
  function PhoneChars(s: string): (r: string)
    ensures forall c :: c in r <==> c in s && IsPhoneChar(c)
  {
    if s == [] then []
    else if IsPhoneChar(s[0]) then [s[0]] + PhoneChars(s[1..])
    else PhoneChars(s[1..])
  }

  function NormalizePhone(phone: string): Option<string> {
    if phone == [] then None
    else
      var cleaned := PhoneChars(phone);
      if cleaned == [] then None
      else if cleaned[0] == '+' then
        if 11 <= |cleaned| <= 16 then Some(cleaned) else Some(cleaned)
      else if |cleaned| == 10 then Some("+1" + cleaned)
      else if |cleaned| == 11 && cleaned[0] == '1' then Some("+" + cleaned)
      else Some("+" + cleaned)
  }

  function NormalizeEmail(email: string): Option<string> {
    if email == [] then None else Some(Lower(Strip(email)))
  }

  /** The identifier `create_optout` stores; None stands for the missing phone number that
      the database refuses. */
  function Canonicalize(raw: string): Option<string> {
    var identifier := Strip(raw);
    if '@' in identifier then NormalizeEmail(identifier) else NormalizePhone(identifier)
  }

  lemma {:induction false} PhoneCharsFixed(s: string)
    requires forall c :: c in s ==> IsPhoneChar(c)
    ensures PhoneChars(s) == s
  {
    if s != [] {
      assert s[0] in s;
      assert forall c :: c in s[1..] ==> c in s;
      PhoneCharsFixed(s[1..]);
    }
  }

  lemma {:induction false} PhoneCharsConcat(a: string, b: string)
    ensures PhoneChars(a + b) == PhoneChars(a) + PhoneChars(b)
  {
    if a == [] {
      assert a + b == b;
    } else {
      assert (a + b)[1..] == a[1..] + b;
      PhoneCharsConcat(a[1..], b);
    }
  }

  lemma {:induction false} PhoneCharsOfSpace(s: string)
    requires forall i :: 0 <= i < |s| ==> !IsPhoneChar(s[i])
    ensures PhoneChars(s) == []
  {
    if s != [] {
      assert forall i :: 0 <= i < |s[1..]| ==> s[1..][i] == s[i + 1];
      PhoneCharsOfSpace(s[1..]);
    }
  }

  /** The white space around the stripped text. */
  lemma StripParts(s: string) returns (before: string, after: string)
    ensures s == before + (Strip(s) + after)
    ensures forall i :: 0 <= i < |before| ==> IsSpace(before[i])
    ensures forall i :: 0 <= i < |after| ==> IsSpace(after[i])
  {
    var lo, hi := StripSpan(s);
    before, after := s[..lo], s[hi..];
    ThreeParts(s, lo, hi);
  }

  lemma ThreeParts(s: string, lo: nat, hi: nat)
    requires lo <= hi <= |s|
    ensures s == s[..lo] + (s[lo..hi] + s[hi..])
  {
  }

  lemma SpaceIsNoPhoneChar(s: string)
    requires forall i :: 0 <= i < |s| ==> IsSpace(s[i])
    ensures forall i :: 0 <= i < |s| ==> !IsPhoneChar(s[i])
  {
  }

  lemma PhoneCharsStrip(s: string)
    ensures PhoneChars(Strip(s)) == PhoneChars(s)
  {
    var before, after := StripParts(s);
    SpaceIsNoPhoneChar(before);
    SpaceIsNoPhoneChar(after);
    PhoneCharsOfMiddle(before, Strip(s), after);
  }

  lemma PhoneCharsOfMiddle(a: string, b: string, c: string)
    requires (forall i :: 0 <= i < |a| ==> !IsPhoneChar(a[i])) && forall i :: 0 <= i < |c| ==> !IsPhoneChar(c[i])
    ensures PhoneChars(a + (b + c)) == PhoneChars(b)
  {
    PhoneCharsConcat(a, b + c);
    PhoneCharsConcat(b, c);
    PhoneCharsOfSpace(a);
    PhoneCharsOfSpace(c);
  }

  lemma {:induction false} PhoneCharsLower(s: string)
    ensures PhoneChars(Lower(s)) == PhoneChars(s)
  {
    if s != [] {
      assert Lower(s)[1..] == Lower(s[1..]);
      PhoneCharsLower(s[1..]);
    }
  }

  /** Normalisation of phones depends only on the phone characters. */
  lemma NormalizePhoneByChars(a: string, b: string)
    requires PhoneChars(a) == PhoneChars(b)
    ensures NormalizePhone(a) == NormalizePhone(b)
  {
  }

  lemma NormalizedPhoneShape(s: string)
    ensures var p := NormalizePhone(s);
            (p.None? <==> PhoneChars(s) == []) &&
            (p.Some? ==> p.value != [] && p.value[0] == '+' && (forall c :: c in p.value ==> IsPhoneChar(c)))
  {
  }

  lemma NormalizedPhoneFixed(s: string)
    requires NormalizePhone(s).Some?
    ensures Canonicalize(NormalizePhone(s).value) == NormalizePhone(s)
  {
    NormalizedPhoneShape(s);
    var p := NormalizePhone(s).value;
    assert p[|p| - 1] in p;
    StripFixed(p);
    PhoneCharsFixed(p);
  }

  lemma CanonicalizePhone(raw: string)
    requires '@' !in raw
    ensures Canonicalize(raw) == NormalizePhone(raw)
  {
    StripKeeps(raw, '@');
    PhoneCharsStrip(raw);
    NormalizePhoneByChars(Strip(raw), raw);
  }

  lemma CanonicalizeEmail(raw: string)
    requires '@' in raw
    ensures Canonicalize(raw) == Some(Lower(Strip(raw)))
  {
    StripKeeps(raw, '@');
    StripFixed(Strip(raw));
  }

  lemma LowerStripKeepsAt(s: string)
    ensures '@' in Lower(Strip(s)) <==> '@' in s
  {
    StripKeeps(s, '@');
    var t := Strip(s);
    if '@' in t {
      var i :| 0 <= i < |t| && t[i] == '@';
      assert Lower(t)[i] == '@';
    }
    if '@' in Lower(t) {
      var i :| 0 <= i < |t| && Lower(t)[i] == '@';
      assert t[i] == '@';
    }
  }

  lemma LoweredEmailFixed(raw: string)
    requires '@' in raw
    ensures Canonicalize(Lower(Strip(raw))) == Some(Lower(Strip(raw)))
  {
    LowerStripKeepsAt(raw);
    CanonicalizeEmail(Lower(Strip(raw)));
    StripFixed(Lower(Strip(raw)));
    LowerIdempotent(Strip(raw));
  }

  /** Every stored identifier is a fixed point, and the "@" test on it agrees with the branch
      that was taken for the raw input. */
  lemma CanonicalIsFixed(raw: string)
    requires Canonicalize(raw).Some?
    ensures Canonicalize(Canonicalize(raw).value) == Canonicalize(raw)
    ensures '@' in Canonicalize(raw).value <==> '@' in Strip(raw)
  {
    StripKeeps(raw, '@');
    if '@' in raw {
      CanonicalizeEmail(raw);
      LowerStripKeepsAt(raw);
      LoweredEmailFixed(raw);
    } else {
      CanonicalizePhone(raw);
      NormalizedPhoneFixed(raw);
      NormalizedPhoneShape(raw);
    }
  }

  /** The fallback idiom of the handlers: keep the text when normalisation gives nothing. */
  function OrElse(normalized: Option<string>, text: string): string {
    if normalized.Some? && normalized.value != [] then normalized.value else text
  }

  /** Normalising as an email first never changes what is stored. */
  lemma EmailFirstIsHarmless(raw: string)
    ensures Canonicalize(OrElse(NormalizeEmail(raw), raw)) == Canonicalize(raw)
  {
    if raw != [] && Lower(Strip(raw)) != [] {
      var e := Lower(Strip(raw));
      LowerStripKeepsAt(raw);
      if '@' in raw {
        CanonicalizeEmail(raw);
        LoweredEmailFixed(raw);
      } else {
        CanonicalizePhone(raw);
        CanonicalizePhone(e);
        PhoneCharsLower(Strip(raw));
        PhoneCharsStrip(raw);
        NormalizePhoneByChars(e, raw);
      }
    }
  }

  /** Normalising as a phone first changes what is stored exactly when the text is an email
      address (contains "@") that also holds a digit or a plus sign. */
  lemma PhoneFirstChangesExactly(raw: string)
    ensures Canonicalize(OrElse(NormalizePhone(raw), raw)) != Canonicalize(raw) <==>
            '@' in raw && exists c :: c in raw && IsPhoneChar(c)
  {
    NormalizedPhoneShape(raw);
    if NormalizePhone(raw).Some? {
      var p := NormalizePhone(raw).value;
      NormalizedPhoneFixed(raw);
      assert PhoneChars(raw)[0] in PhoneChars(raw);
      if '@' in raw {
        CanonicalizeEmail(raw);
        LowerStripKeepsAt(raw);
        assert '@' !in p;
      } else {
        CanonicalizePhone(raw);
      }
    }
  }

  /** A text prints the digits `d` when its phone characters are d, 1d or +1d. */
  predicate Prints(s: string, d: string) {
    PhoneChars(s) == d || PhoneChars(s) == "1" + d || PhoneChars(s) == "+1" + d
  }

  /** Any punctuation of d, 1d and +1d for ten digits d is stored as "+1d". */
  lemma PunctuationIsIgnored(s: string, d: string)
    requires |d| == 10 && forall i :: 0 <= i < |d| ==> IsDigit(d[i])
    requires '@' !in s && Prints(s, d)
    ensures Canonicalize(s) == Some("+1" + d)
  {
    CanonicalizePhone(s);
    assert "+" + ("1" + d) == "+1" + d;
    assert d[0] != '+';
  }

  /** Whatever is neither a digit nor a plus sign is dropped, wherever it stands ... */
  lemma OtherCharDropped(a: string, c: char, b: string)
    requires c !in "+0123456789"
    ensures PhoneChars(a + [c] + b) == PhoneChars(a + b)
  {
    PhoneCharsConcat(a + [c], b);
    PhoneCharsConcat(a, [c]);
    PhoneCharsConcat(a, b);
    assert "+0123456789" == "+" + "0123456789";
    CharsExactly(c);
  }

  /** ... and digits and plus signs are kept in their order. */
  lemma PhoneCharsKept(d: string)
    requires forall c :: c in d ==> c in "+0123456789"
    ensures PhoneChars(d) == d
  {
    PhoneCharsFixed(d);
  }

  /** What is stored for a text without "@" depends on its digits and plus signs d only: d itself with a
      leading plus, "+1" and d for ten digits, "+" and d for any other number, nothing for none. */
  lemma PhoneStoredExactly(s: string, d: string)
    requires '@' !in s && PhoneChars(s) == d
    ensures d == "" ==> Canonicalize(s) == None
    ensures d != "" && d[0] == '+' ==> Canonicalize(s) == Some(d)
    ensures d != "" && d[0] != '+' && |d| == 10 ==> Canonicalize(s) == Some("+1" + d)
    ensures d != "" && d[0] != '+' && |d| != 10 ==> Canonicalize(s) == Some("+" + d)
  {
    CanonicalizePhone(s);
  }

  /** What is stored for a text with "@", for an address with white space around it: the address in lower
      case. */
  lemma EmailStoredExactly(before: string, address: string, after: string)
    requires '@' in address && !IsSpace(address[0]) && !IsSpace(address[|address| - 1])
    requires forall i :: 0 <= i < |before| ==> IsSpace(before[i])
    requires forall i :: 0 <= i < |after| ==> IsSpace(after[i])
    ensures Canonicalize(before + address + after) == Some(Lower(address))
  {
    CanonicalizeEmail(before + address + after);
    StripAround(before, address, after);
  }
}
