/** The rule-based parser: the keyword verdict and the extraction of a target. */
module Extraction {
  import opened Basics
  import opened Text
  import opened Normalizer
  import opened Regex
  import opened EmailSearch
  import opened PhoneSearch
  import opened NumberSearch

  const KEYWORDS := [
    "stop", "unsubscribe", "remove", "don't call", "dont call",
    "take me off", "take off", "off list", "cancel", "quit", "end",
    "opt out", "opt-out"
  ]

  const PHRASES := ["off your list", "off the list"]

  predicate AnyOccurs(keywords: seq<string>, t: string) {
    exists i :: 0 <= i < |keywords| && Occurs(keywords[i], t)
  }

  /** The verdict on stripped lower-case text, for a list of keywords. */
  predicate VerdictWith(keywords: seq<string>, t: string) {
    AnyOccurs(keywords, t) || (Occurs("take", t) && Occurs("off", t)) || AnyOccurs(PHRASES, t)
  }

  predicate IsOptOut(text: string) {
    VerdictWith(KEYWORDS, Strip(Lower(text)))
  }

  datatype Target = EmailTarget | PhoneTarget

  datatype Extracted = Extracted(isOptOut: bool, confidence: real, target: string, kind: Target)

  function OrEmpty(s: Option<string>): string {
    if s.Some? then s.value else ""
  }

  /** `_rule_based_fallback` */
  function RuleBased(text: string): Extracted {
    var verdict := IsOptOut(text);
    var confidence := if verdict then 0.95 else 0.0;
    match Search(EMAIL, text)
    case Some(m) => Extracted(verdict, confidence, OrEmpty(NormalizeEmail(text[m.0..m.1])), EmailTarget)
    case None =>
      match Search(PHONE, text)
      case Some(m) => Extracted(verdict, confidence, OrEmpty(NormalizePhone(text[m.0..m.1])), PhoneTarget)
      case None => Extracted(verdict, confidence, "", PhoneTarget)
  }

  /** `extract_intent` without a configured model. */
  function ExtractIntent(text: string): Extracted {
    if text == "" then Extracted(false, 0.0, "", PhoneTarget) else RuleBased(text)
  }

  // ---------------------------------------------------------------- the verdict

  /** A keyword that neither starts nor ends with white space. */
  predicate Solid(k: string) {
    k != [] && !IsSpace(k[0]) && !IsSpace(k[|k| - 1])
  }

  lemma KeywordsSolid()
    ensures forall i :: 0 <= i < |KEYWORDS| ==> Solid(KEYWORDS[i])
    ensures forall i :: 0 <= i < |PHRASES| ==> Solid(PHRASES[i])
    ensures Solid("take") && Solid("off")
  {
  }

  lemma SolidOccurs(k: string, text: string)
    requires Solid(k)
    ensures Occurs(k, Strip(Lower(text))) <==> Occurs(k, Lower(text))
  {
    OccursStrip(k, Lower(text));
  }

  lemma AnySolidOccurs(keywords: seq<string>, text: string)
    requires forall i :: 0 <= i < |keywords| ==> Solid(keywords[i])
    ensures AnyOccurs(keywords, Strip(Lower(text))) <==> AnyOccurs(keywords, Lower(text))
  {
    forall i | 0 <= i < |keywords|
      ensures Occurs(keywords[i], Strip(Lower(text))) <==> Occurs(keywords[i], Lower(text))
    {
      SolidOccurs(keywords[i], text);
    }
  }

  /** The empty text, which is not searched at all, would have got the same verdict. */
  lemma IntentIsVerdict(text: string)
    ensures ExtractIntent(text).isOptOut <==> IsOptOut(text)
  {
    if text == "" {
      NoVerdictOnEmpty();
    }
  }

  lemma NotInEmpty(k: string)
    requires k != ""
    ensures !Occurs(k, "")
  {
  }

  lemma NoneInEmpty(keywords: seq<string>)
    requires forall i :: 0 <= i < |keywords| ==> Solid(keywords[i])
    ensures !AnyOccurs(keywords, "")
  {
    forall i | 0 <= i < |keywords| ensures !Occurs(keywords[i], "") {
      NotInEmpty(keywords[i]);
    }
  }

  lemma NoVerdictOnEmpty()
    ensures !IsOptOut("")
  {
    KeywordsSolid();
    NoneInEmpty(KEYWORDS);
    NoneInEmpty(PHRASES);
    NotInEmpty("take");
    assert Strip(Lower("")) == "";
  }

  /** Stripping never changes the verdict. */
  lemma VerdictIgnoresStrip(text: string)
    ensures IsOptOut(text) <==> VerdictWith(KEYWORDS, Lower(text))
  {
    KeywordsSolid();
    AnySolidOccurs(KEYWORDS, text);
    AnySolidOccurs(PHRASES, text);
    SolidOccurs("take", text);
    SolidOccurs("off", text);
  }

  lemma AnyOccursIn(keywords: seq<string>, t: string, u: string)
    requires Occurs(t, u) && AnyOccurs(keywords, t)
    ensures AnyOccurs(keywords, u)
  {
    var i :| 0 <= i < |keywords| && Occurs(keywords[i], t);
    OccursTrans(keywords[i], t, u);
  }

  lemma VerdictIn(keywords: seq<string>, t: string, u: string)
    requires Occurs(t, u) && VerdictWith(keywords, t)
    ensures VerdictWith(keywords, u)
  {
    if AnyOccurs(keywords, t) {
      AnyOccursIn(keywords, t, u);
    } else if AnyOccurs(PHRASES, t) {
      AnyOccursIn(PHRASES, t, u);
    } else {
      OccursTrans("take", t, u);
      OccursTrans("off", t, u);
    }
  }

  lemma IntentFolds(text: string)
    ensures ExtractIntent(text).isOptOut <==> VerdictWith(KEYWORDS, Lower(text))
  {
    IntentIsVerdict(text);
    VerdictIgnoresStrip(text);
  }

  /** Any text that contains an opt-out text is an opt-out. */
  lemma VerdictMonotone(t: string, u: string)
    requires Occurs(t, u) && ExtractIntent(t).isOptOut
    ensures ExtractIntent(u).isOptOut
  {
    IntentFolds(t);
    IntentFolds(u);
    OccursLower(t, u);
    VerdictIn(KEYWORDS, Lower(t), Lower(u));
  }

  /** The text judged for an email. */
  function EmailText(subject: string, body: string): string {
    "Subject: " + subject + "\nBody: " + body
  }

  // ---------------------------------------------------------------- the verdict on an email, exactly

  /** A letter that occurs neither in "subject" nor in "body". */
  predicate Foreign(c: char) {
    c in {'p', 'n', 'r', 'a', 'f', 'q'}
  }

  /** A keyword the frame of an email text can neither contain nor help to form. */
  predicate Plain(k: string) {
    Solid(k) && ':' !in k && '\n' !in k && HasForeign(k)
  }

  predicate HasForeign(k: string) {
    exists j :: 0 <= j < |k| && Foreign(k[j])
  }

  lemma KeywordsForeign()
    ensures forall i :: 0 <= i < |KEYWORDS| ==> HasForeign(KEYWORDS[i])
  {
    assert Foreign("stop"[3]) && Foreign("unsubscribe"[1]) && Foreign("remove"[0]);
    assert Foreign("don't call"[2]) && Foreign("dont call"[2]) && Foreign("take me off"[1]);
    assert Foreign("take off"[1]) && Foreign("off list"[1]) && Foreign("cancel"[1]);
    assert Foreign("quit"[0]) && Foreign("end"[1]) && Foreign("opt out"[1]) && Foreign("opt-out"[1]);
  }

  lemma KeywordsPlain()
    ensures forall i :: 0 <= i < |KEYWORDS| ==> Plain(KEYWORDS[i])
    ensures forall i :: 0 <= i < |PHRASES| ==> Plain(PHRASES[i])
    ensures Plain("take") && Plain("off")
  {
    KeywordsSolid();
    KeywordsForeign();
    assert Foreign("off your list"[1]) && Foreign("off the list"[1]);
    assert Foreign("take"[1]) && Foreign("off"[1]);
  }

  lemma OccurringLetter(k: string, t: string, j: nat)
    requires j < |k| && Occurs(k, t)
    ensures k[j] in t
  {
    var i :| 0 <= i <= |t| - |k| && IsAt(k, t, i);
    assert t[i + j] == t[i..i + |k|][j];
  }

  /** An occurrence cannot span a character the word does not contain. */
  lemma OccursAcross(k: string, a: string, c: char, b: string)
    requires c !in k
    ensures Occurs(k, a + [c] + b) <==> Occurs(k, a) || Occurs(k, b)
  {
    var t := a + [c] + b;
    if Occurs(k, t) {
      var i :| 0 <= i <= |t| - |k| && IsAt(k, t, i);
      AcrossSide(k, a, c, b, i);
    }
    if Occurs(k, a) {
      assert t == [] + a + ([c] + b);
      OccursMiddle([], a, [c] + b);
      OccursTrans(k, a, t);
    }
    if Occurs(k, b) {
      assert t == (a + [c]) + b + [];
      OccursMiddle(a + [c], b, []);
      OccursTrans(k, b, t);
    }
  }

  lemma AcrossSide(k: string, a: string, c: char, b: string, i: nat)
    requires c !in k && IsAt(k, a + [c] + b, i)
    ensures Occurs(k, a) || Occurs(k, b)
  {
    var t := a + [c] + b;
    var n := |a|;
    assert t[n] == c;
    assert forall p :: i <= p < i + |k| ==> t[p] == k[p - i] && k[p - i] in k;
    if i + |k| <= n {
      assert t[i..i + |k|] == a[i..i + |k|];
      assert IsAt(k, a, i);
    } else {
      var d := i - n - 1;
      assert t[i..i + |k|] == b[d..d + |k|];
      assert IsAt(k, b, d);
    }
  }

  lemma OccursAfterSpace(k: string, t: string)
    requires Solid(k)
    ensures Occurs(k, " " + t) <==> Occurs(k, t)
  {
    if Occurs(k, " " + t) {
      var i :| 0 <= i <= |" " + t| - |k| && IsAt(k, " " + t, i);
      assert (" " + t)[i] == k[0];
      assert (" " + t)[i..i + |k|] == t[i - 1..i - 1 + |k|];
      assert IsAt(k, t, i - 1);
    }
    if Occurs(k, t) {
      assert " " + t == " " + t + [];
      OccursMiddle(" ", t, []);
      OccursTrans(k, t, " " + t);
    }
  }

  /** The lower-case email text, with its frame taken apart. */
  function Framed(subject: string, body: string): string {
    "subject" + [':'] + ((" " + subject) + ['\n'] + ("body" + [':'] + (" " + body)))
  }

  lemma LowerEmailText(subject: string, body: string)
    ensures Lower(EmailText(subject, body)) == Framed(Lower(subject), Lower(body))
  {
    var t, u := Lower(EmailText(subject, body)), Framed(Lower(subject), Lower(body));
    assert |t| == |u|;
    assert forall k :: 0 <= k < 9 ==> t[k] == u[k];
    assert forall k :: 9 <= k < 9 + |subject| ==> t[k] == u[k];
    assert forall k :: 9 + |subject| <= k < 16 + |subject| ==> t[k] == u[k];
  }

  lemma ForeignAbsent(k: string, t: string)
    requires HasForeign(k) && forall c :: c in t ==> !Foreign(c)
    ensures !Occurs(k, t)
  {
    var j :| 0 <= j < |k| && Foreign(k[j]);
    if Occurs(k, t) {
      OccurringLetter(k, t, j);
    }
  }

  lemma PlainInFrame(k: string, subject: string, body: string)
    requires Plain(k)
    ensures Occurs(k, Framed(subject, body)) <==> Occurs(k, subject) || Occurs(k, body)
  {
    ForeignAbsent(k, "subject");
    ForeignAbsent(k, "body");
    OccursAfterSpace(k, subject);
    OccursAfterSpace(k, body);
    OccursAcross(k, "body", ':', " " + body);
    OccursAcross(k, " " + subject, '\n', "body" + [':'] + (" " + body));
    OccursAcross(k, "subject", ':', (" " + subject) + ['\n'] + ("body" + [':'] + (" " + body)));
  }

  lemma AnyPlainInFrame(keywords: seq<string>, subject: string, body: string)
    requires forall i :: 0 <= i < |keywords| ==> Plain(keywords[i])
    ensures AnyOccurs(keywords, Framed(subject, body)) <==> AnyOccurs(keywords, subject) || AnyOccurs(keywords, body)
  {
    forall i | 0 <= i < |keywords|
      ensures Occurs(keywords[i], Framed(subject, body)) <==>
              Occurs(keywords[i], subject) || Occurs(keywords[i], body)
    {
      PlainInFrame(keywords[i], subject, body);
    }
  }

  predicate Mentions(word: string, text: string) {
    Occurs(word, Lower(text))
  }

  /** An email is an opt-out exactly if its subject or its body alone is, or one of them mentions
      "take" and the other "off": the frame adds nothing else. */
  lemma EmailVerdictExactly(subject: string, body: string)
    ensures ExtractIntent(EmailText(subject, body)).isOptOut <==>
            ExtractIntent(subject).isOptOut || ExtractIntent(body).isOptOut ||
            (Mentions("take", subject) && Mentions("off", body)) ||
            (Mentions("off", subject) && Mentions("take", body))
  {
    IntentFolds(EmailText(subject, body));
    IntentFolds(subject);
    IntentFolds(body);
    LowerEmailText(subject, body);
    KeywordsPlain();
    AnyPlainInFrame(KEYWORDS, Lower(subject), Lower(body));
    AnyPlainInFrame(PHRASES, Lower(subject), Lower(body));
    PlainInFrame("take", Lower(subject), Lower(body));
    PlainInFrame("off", Lower(subject), Lower(body));
  }

  // ---------------------------------------------------------------- two redundant keywords

  /** The list without "take me off" and "take off". */
  const SHORTER := [
    "stop", "unsubscribe", "remove", "don't call", "dont call",
    "off list", "cancel", "quit", "end", "opt out", "opt-out"
  ]

  lemma TakeOffRedundant(k: string, t: string)
    requires k in {"take me off", "take off"} && Occurs(k, t)
    ensures Occurs("take", t) && Occurs("off", t)
  {
    assert IsAt("take", k, 0) && IsAt("off", k, |k| - 3);
    OccursTrans("take", k, t);
    OccursTrans("off", k, t);
  }

  /** Dropping "take me off" and "take off" from the keywords never changes a verdict. */
  lemma TwoKeywordsRedundant(t: string)
    ensures VerdictWith(KEYWORDS, t) <==> VerdictWith(SHORTER, t)
  {
    if AnyOccurs(KEYWORDS, t) {
      var i :| 0 <= i < |KEYWORDS| && Occurs(KEYWORDS[i], t);
      if i == 5 || i == 6 {
        TakeOffRedundant(KEYWORDS[i], t);
      } else {
        assert KEYWORDS[i] == SHORTER[if i < 5 then i else i - 2];
      }
    }
    if AnyOccurs(SHORTER, t) {
      var i :| 0 <= i < |SHORTER| && Occurs(SHORTER[i], t);
      assert SHORTER[i] == KEYWORDS[if i < 5 then i else i + 2];
    }
  }

  // ---------------------------------------------------------------- targets

  /** Ten digits printed as "(ddd) ddd-dddd" after digit-free text, in a text without an email
      match, are extracted as "+1" and the digits. */
  lemma PrintedNumberExtracted(text: string, i: nat)
    requires PrintedAt(text, i) && Search(EMAIL, text).None?
    requires forall j :: 0 <= j < i ==> !IsDigit(text[j])
    ensures ExtractIntent(text).target == "+1" + PrintedDigits(text, i) && ExtractIntent(text).kind == PhoneTarget
  {
    PrintedIsFound(text, i);
    PrintedNormalizes(text, i);
  }

  /** An address in angle brackets after text without "@" is extracted, in lower case. */
  lemma BracketedAddressExtracted(text: string, i: nat, e: nat, address: string)
    requires StandsBracketed(text, i, e, address) && Describes(EMAIL, address)
    ensures ExtractIntent(text).target == OrEmpty(NormalizeEmail(address)) && ExtractIntent(text).kind == EmailTarget
  {
    NameAddrIsFound(text, i, e, address);
  }

  /** Without an email match the found phone number is the target. */
  lemma FoundNumberExtracted(text: string, i: nat, e: nat)
    requires text != "" && Search(EMAIL, text).None? && Search(PHONE, text) == Some((i, e))
    ensures ExtractIntent(text).kind == PhoneTarget
    ensures ExtractIntent(text).target == OrEmpty(NormalizePhone(text[i..e]))
  {
  }

  lemma FormByChars(t: string, d: string)
    requires d != "" && PhoneChars(t) == d
    ensures OrEmpty(NormalizePhone(t)) == if d[0] == '+' then d else if |d| == 10 then "+1" + d else "+" + d
  {
    assert d[0] in PhoneChars(t);
  }

  lemma NumberForm(s: string, i: nat, j: nat, n: nat)
    requires StandsNumber(s, i, j, n)
    ensures OrEmpty(NormalizePhone(s[i..j + n])) ==
            if j > i then s[i..j + n] else if n == 10 then "+1" + s[j..j + n] else "+" + s[j..j + n]
  {
    NumberPhoneChars(s, i, j, n);
    FormByChars(s[i..j + n], s[i..j + n]);
  }

  /** A number of two to fifteen digits after text without a digit or "(", without an extension, is extracted
      with the plus it has; without one ten digits get "+1" and any other number of them "+". */
  lemma NumberExtracted(text: string, i: nat, j: nat, n: nat)
    requires StandsNumber(text, i, j, n) && Search(EMAIL, text).None?
    requires j + n == |text| || text[j + n] != 'x' || !IsNumeral(text, j + n + 1)
    ensures ExtractIntent(text).kind == PhoneTarget
    ensures ExtractIntent(text).target ==
            if j > i then text[i..j + n] else if n == 10 then "+1" + text[j..j + n] else "+" + text[j..j + n]
  {
    NumberIsFound(text, i, j, n);
    FoundNumberExtracted(text, i, j + n);
    NumberForm(text, i, j, n);
  }

  /** The number and the digits of its extension, with "+" or "+1" if it has no plus. */
  function ExtendedForm(s: string, i: nat, j: nat, n: nat, m: nat): string
    requires StandsNumber(s, i, j, n) && StandsExtension(s, j + n, m)
  {
    var d := s[i..j + n] + s[j + n + 1..j + n + 1 + m];
    if j > i then d else if n + m == 10 then "+1" + d else "+" + d
  }

  lemma ExtensionForm(s: string, i: nat, j: nat, n: nat, m: nat)
    requires StandsNumber(s, i, j, n) && StandsExtension(s, j + n, m)
    ensures OrEmpty(NormalizePhone(s[i..j + n + 1 + m])) == ExtendedForm(s, i, j, n, m)
  {
    ExtendedPhoneChars(s, i, j, n, m);
    FormByChars(s[i..j + n + 1 + m], s[i..j + n] + s[j + n + 1..j + n + 1 + m]);
  }

  /** An extension is found too, and its digits are appended to those of the number. */
  lemma ExtensionExtracted(text: string, i: nat, j: nat, n: nat, m: nat)
    requires StandsNumber(text, i, j, n) && StandsExtension(text, j + n, m) && Search(EMAIL, text).None?
    ensures ExtractIntent(text).kind == PhoneTarget
    ensures ExtractIntent(text).target == ExtendedForm(text, i, j, n, m)
  {
    ExtendedNumberIsFound(text, i, j, n, m);
    FoundNumberExtracted(text, i, j + n + 1 + m);
    ExtensionForm(text, i, j, n, m);
  }

  // ---------------------------------------------------------------- the verdict on literals

  /** The words of which any single one makes a text an opt-out. */
  const WORDS := {
    "stop", "unsubscribe", "remove", "don't call", "dont call", "take me off", "take off", "off list", "cancel",
    "quit", "end", "opt out", "opt-out", "off your list", "off the list"
  }

  /** A text is an opt-out exactly if it mentions one of the words, or "take" and also "off"; the confidence
      says the same. */
  lemma VerdictExactly(text: string)
    ensures ExtractIntent(text).isOptOut <==>
            (exists w :: w in WORDS && Mentions(w, text)) || (Mentions("take", text) && Mentions("off", text))
    ensures ExtractIntent(text).confidence == if ExtractIntent(text).isOptOut then 0.95 else 0.0
  {
    IntentFolds(text);
    AnyOfList(KEYWORDS, text);
    AnyOfList(PHRASES, text);
    WordsListed();
  }

  lemma AnyOfList(keywords: seq<string>, text: string)
    ensures AnyOccurs(keywords, Lower(text)) <==> exists w :: w in keywords && Mentions(w, text)
  {
    if w :| w in keywords && Mentions(w, text) {
      var i :| 0 <= i < |keywords| && keywords[i] == w;
      assert Occurs(keywords[i], Lower(text));
    }
    if AnyOccurs(keywords, Lower(text)) {
      var i :| 0 <= i < |keywords| && Occurs(keywords[i], Lower(text));
      assert keywords[i] in keywords && Mentions(keywords[i], text);
    }
  }

  lemma WordsListed()
    ensures forall w :: w in WORDS <==> w in KEYWORDS || w in PHRASES
  {
  }

  /** A text without either match has no target. */
  lemma NothingExtracted(text: string)
    requires Search(EMAIL, text).None? && Search(PHONE, text).None?
    ensures ExtractIntent(text).target == "" && ExtractIntent(text).kind == PhoneTarget
  {
  }
}
