/** The languages of the service's patterns, in terms of the characters of a text. */
module Languages {
  import opened Basics
  import opened Regex
  import opened EmailSearch
  import opened PhoneSearch

  predicate Alphanumeric(c: char) {
    'a' <= c <= 'z' || 'A' <= c <= 'Z' || '0' <= c <= '9'
  }

  predicate Digits(t: string) {
    forall k :: 0 <= k < |t| ==> '0' <= t[k] <= '9'
  }

  // ---------------------------------------------------------------- sequences of patterns

  lemma ThenJoin(a: Regex, b: Regex, x: string, y: string)
    requires Describes(a, x) && Describes(b, y)
    ensures Describes(Then(a, b), x + y)
  {
    assert (x + y)[..|x|] == x && (x + y)[|x|..] == y;
  }

  lemma ThenSplit(a: Regex, b: Regex, t: string) returns (x: string, y: string)
    requires Describes(Then(a, b), t)
    ensures t == x + y && Describes(a, x) && Describes(b, y)
  {
    var k :| 0 <= k <= |t| && Describes(a, t[..k]) && Describes(b, t[k..]);
    x, y := t[..k], t[k..];
  }

  lemma OneExactly(cls: Class, t: string)
    ensures Describes(One(cls), t) <==> |t| == 1 && In(t[0], cls)
  {
  }

  lemma OptionalExactly(cls: Class, t: string)
    ensures Describes(Optional(cls), t) <==> t == "" || (|t| == 1 && In(t[0], cls))
  {
  }

  lemma OptionalCharacter(c: char, t: string)
    ensures Describes(Optional(Only(c)), t) <==> t == "" || t == [c]
  {
    OptionalExactly(Only(c), t);
  }

  lemma DigitsExactly(least: nat, most: Option<nat>, t: string)
    ensures Describes(Many(Digit, least, most), t) <==>
            least <= |t| && (most.Some? ==> |t| <= most.value) && Digits(t)
  {
    if Digits(t) {
      assert forall k :: 0 <= k < |t| ==> In(t[k], Digit);
    }
    if Describes(Many(Digit, least, most), t) {
      forall k | 0 <= k < |t| ensures '0' <= t[k] <= '9' {
        assert In(t[k], Digit);
      }
    }
  }

  // ---------------------------------------------------------------- email addresses

  /** A non-empty text of letters, digits and further characters. */
  predicate Word(t: string, further: string) {
    t != "" && forall k :: 0 <= k < |t| ==> Alphanumeric(t[k]) || t[k] in further
  }

  lemma LocalExactly(t: string)
    ensures Describes(Many(Local, 1, None), t) <==> Word(t, "_.+-")
  {
    assert forall c :: In(c, Local) <==> Alphanumeric(c) || c in "_.+-";
  }

  lemma LabelExactly(t: string)
    ensures Describes(Many(Label, 1, None), t) <==> Word(t, "-")
  {
    assert forall c :: In(c, Label) <==> Alphanumeric(c) || c in "-";
  }

  lemma TailExactly(t: string)
    ensures Describes(Many(Tail, 1, None), t) <==> Word(t, "-.")
  {
    assert forall c :: In(c, Tail) <==> Alphanumeric(c) || c in "-.";
  }

  predicate AddressParts(t: string, local: string, domain: string, tail: string) {
    t == local + ("@" + (domain + ("." + tail))) && Word(local, "_.+-") && Word(domain, "-") && Word(tail, "-.")
  }

  lemma AddressSplit(t: string) returns (local: string, domain: string, tail: string)
    requires Describes(EMAIL, t)
    ensures AddressParts(t, local, domain, tail)
  {
    var at, rest, dot;
    local, rest := ThenSplit(Many(Local, 1, None), AT_DOMAIN, t);
    at, rest := ThenSplit(One(Only('@')), DOMAIN, rest);
    domain, rest := ThenSplit(Many(Label, 1, None), DOT_TAIL, rest);
    dot, tail := ThenSplit(One(Only('.')), Many(Tail, 1, None), rest);
    OneExactly(Only('@'), at);
    OneExactly(Only('.'), dot);
    assert at == "@" && dot == ".";
    LocalExactly(local);
    LabelExactly(domain);
    TailExactly(tail);
  }

  lemma AddressJoin(t: string, local: string, domain: string, tail: string)
    requires AddressParts(t, local, domain, tail)
    ensures Describes(EMAIL, t)
  {
    LocalExactly(local);
    LabelExactly(domain);
    TailExactly(tail);
    OneExactly(Only('@'), "@");
    OneExactly(Only('.'), ".");
    ThenJoin(One(Only('.')), Many(Tail, 1, None), ".", tail);
    ThenJoin(Many(Label, 1, None), DOT_TAIL, domain, "." + tail);
    ThenJoin(One(Only('@')), DOMAIN, "@", domain + ("." + tail));
    ThenJoin(Many(Local, 1, None), AT_DOMAIN, local, "@" + (domain + ("." + tail)));
  }

  /** The email pattern describes exactly the texts local, "@", domain, ".", tail. */
  lemma AddressesExactly(t: string)
    ensures Describes(EMAIL, t) <==> exists local, domain, tail :: AddressParts(t, local, domain, tail)
  {
    if Describes(EMAIL, t) {
      var local, domain, tail := AddressSplit(t);
    }
    if local, domain, tail :| AddressParts(t, local, domain, tail) {
      AddressJoin(t, local, domain, tail);
    }
  }

  // ---------------------------------------------------------------- phone numbers

  /** Nothing, or "x" and digits. */
  predicate IsExtension(t: string) {
    t == "" || (|t| >= 2 && t[0] == 'x' && Digits(t[1..]))
  }

  lemma ExtensionExactly(t: string)
    ensures Describes(EXTENSION, t) <==> IsExtension(t)
  {
    if t != "" && Describes(EXTENSION, t) {
      var x, d := ThenSplit(One(Only('x')), Many(Digit, 1, None), t);
      OneExactly(Only('x'), x);
      DigitsExactly(1, None, d);
      assert t[1..] == d;
    }
    if t != "" && IsExtension(t) {
      OneExactly(Only('x'), "x");
      DigitsExactly(1, None, t[1..]);
      ThenJoin(One(Only('x')), Many(Digit, 1, None), "x", t[1..]);
      assert t == "x" + t[1..];
    }
  }

  /** Two to fifteen digits, the first of them not 0, with or without a plus, and their extension. */
  predicate NumberParts(t: string, plus: string, first: string, more: string, extension: string) {
    t == plus + (first + (more + extension)) && (plus == "" || plus == "+") && |first| == 1 && '1' <= first[0] <= '9' &&
    1 <= |more| <= 14 && Digits(more) && IsExtension(extension)
  }

  lemma NumberSplit(t: string) returns (plus: string, first: string, more: string, extension: string)
    requires Describes(INTERNATIONAL, t)
    ensures NumberParts(t, plus, first, more, extension)
  {
    var rest;
    plus, rest := ThenSplit(Optional(Only('+')), NUMBER, t);
    first, rest := ThenSplit(One(Leading), Then(Many(Digit, 1, Some(14)), EXTENSION), rest);
    more, extension := ThenSplit(Many(Digit, 1, Some(14)), EXTENSION, rest);
    OptionalCharacter('+', plus);
    OneExactly(Leading, first);
    DigitsExactly(1, Some(14), more);
    ExtensionExactly(extension);
  }

  lemma NumberJoin(t: string, plus: string, first: string, more: string, extension: string)
    requires NumberParts(t, plus, first, more, extension)
    ensures Describes(INTERNATIONAL, t)
  {
    OptionalCharacter('+', plus);
    OneExactly(Leading, first);
    DigitsExactly(1, Some(14), more);
    ExtensionExactly(extension);
    ThenJoin(Many(Digit, 1, Some(14)), EXTENSION, more, extension);
    ThenJoin(One(Leading), Then(Many(Digit, 1, Some(14)), EXTENSION), first, more + extension);
    ThenJoin(Optional(Only('+')), NUMBER, plus, first + (more + extension));
  }

  /** The first alternative of the phone pattern describes exactly these. */
  lemma NumbersExactly(t: string)
    ensures Describes(INTERNATIONAL, t) <==>
            exists plus, first, more, extension :: NumberParts(t, plus, first, more, extension)
  {
    if Describes(INTERNATIONAL, t) {
      var plus, first, more, extension := NumberSplit(t);
    }
    if plus, first, more, extension :| NumberParts(t, plus, first, more, extension) {
      NumberJoin(t, plus, first, more, extension);
    }
  }

  /** Nothing, a hyphen, a dot, or a white space character. */
  predicate IsSeparator(t: string) {
    t == "" || (|t| == 1 && (t[0] == '-' || t[0] == '.' || t[0] as int in {9, 10, 11, 12, 13, 28, 29, 30, 31, 32}))
  }

  lemma SeparatorExactly(t: string)
    ensures Describes(Optional(Separator), t) <==> IsSeparator(t)
  {
    OptionalExactly(Separator, t);
  }

  /** Three, three and four digits, optional parentheses around the first three and separators. */
  predicate PrintedParts(t: string, open: string, area: string, close: string, gap: string, group: string,
                         dash: string, line: string)
  {
    t == open + (area + (close + (gap + (group + (dash + line))))) &&
    (open == "" || open == "(") && (close == "" || close == ")") && IsSeparator(gap) && IsSeparator(dash) &&
    |area| == 3 && |group| == 3 && |line| == 4 && Digits(area) && Digits(group) && Digits(line)
  }

  lemma PrintedSplit(t: string)
    returns (open: string, area: string, close: string, gap: string, group: string, dash: string, line: string)
    requires Describes(PRINTED, t)
    ensures PrintedParts(t, open, area, close, gap, group, dash, line)
  {
    var rest;
    open, rest := ThenSplit(Optional(Only('(')), AREA, t);
    area, rest := ThenSplit(Many(Digit, 3, Some(3)), AREA_REST, rest);
    close, rest := ThenSplit(Optional(Only(')')), Then(Optional(Separator), GROUP_LINE), rest);
    gap, rest := ThenSplit(Optional(Separator), GROUP_LINE, rest);
    group, rest := ThenSplit(Many(Digit, 3, Some(3)), Then(Optional(Separator), LINE), rest);
    dash, line := ThenSplit(Optional(Separator), LINE, rest);
    OptionalCharacter('(', open);
    OptionalCharacter(')', close);
    SeparatorExactly(gap);
    SeparatorExactly(dash);
    DigitsExactly(3, Some(3), area);
    DigitsExactly(3, Some(3), group);
    DigitsExactly(4, Some(4), line);
  }

  lemma PrintedJoin(t: string, open: string, area: string, close: string, gap: string, group: string, dash: string,
                    line: string)
    requires PrintedParts(t, open, area, close, gap, group, dash, line)
    ensures Describes(PRINTED, t)
  {
    OptionalCharacter('(', open);
    OptionalCharacter(')', close);
    SeparatorExactly(gap);
    SeparatorExactly(dash);
    DigitsExactly(3, Some(3), area);
    DigitsExactly(3, Some(3), group);
    DigitsExactly(4, Some(4), line);
    ThenJoin(Optional(Separator), LINE, dash, line);
    ThenJoin(Many(Digit, 3, Some(3)), Then(Optional(Separator), LINE), group, dash + line);
    ThenJoin(Optional(Separator), GROUP_LINE, gap, group + (dash + line));
    ThenJoin(Optional(Only(')')), Then(Optional(Separator), GROUP_LINE), close, gap + (group + (dash + line)));
    ThenJoin(Many(Digit, 3, Some(3)), AREA_REST, area, close + (gap + (group + (dash + line))));
    ThenJoin(Optional(Only('(')), AREA, open, area + (close + (gap + (group + (dash + line)))));
  }

  /** The second alternative describes exactly these. */
  lemma PrintedExactly(t: string)
    ensures Describes(PRINTED, t) <==>
            exists open, area, close, gap, group, dash, line ::
              PrintedParts(t, open, area, close, gap, group, dash, line)
  {
    if Describes(PRINTED, t) {
      var open, area, close, gap, group, dash, line := PrintedSplit(t);
    }
    if open, area, close, gap, group, dash, line :| PrintedParts(t, open, area, close, gap, group, dash, line) {
      PrintedJoin(t, open, area, close, gap, group, dash, line);
    }
  }
}
