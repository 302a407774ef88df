/** The ingest handlers: which identifier each of them hands to `create_optout`. */
module Handlers {
  import opened Basics
  import opened Text
  import opened Normalizer
  import opened Queue
  import opened Registry
  import opened Database
  import opened OptOutService
  import opened Regex
  import opened EmailSearch
  import opened Extraction
  import P = PathLookup

  /** Skipped without intent, rejected by validation or the database, or stored. */
  datatype Outcome = Skipped | Rejected | Stored(identifier: string)

  function OutcomeOf(stored: Option<string>): Outcome {
    match stored case Some(id) => Stored(id) case None => Rejected
  }

  /** The state and outcome of handing an identifier, if there is one, to `create_optout`. */
  predicate Handed(before: System, after: System, identifier: Option<string>, channel: string, now: int, o: Outcome)
    requires WellFormed(before)
  {
    match identifier
    case None => after == before && o == Rejected
    case Some(raw) => after == Ingest(before, raw, channel, now) && o == OutcomeOf(Canonicalize(raw))
  }

  // ---------------------------------------------------------------- Twilio

  /** The extracted phone, or the sender. */
  function TwilioTarget(sender: Option<string>, e: Extracted): Option<string> {
    if e.isOptOut && e.kind == PhoneTarget && e.target != "" then Some(e.target) else sender
  }

  function TwilioIdentifier(sender: Option<string>, e: Extracted): Option<string> {
    match TwilioTarget(sender, e)
    case None => sender
    case Some(t) => if NormalizePhone(t).Some? then NormalizePhone(t) else sender
  }

  method IngestTwilio(db: Store, extract: string -> Extracted, sender: Option<string>, body: Option<string>, now: int)
    returns (o: Outcome)
    requires WellFormed(db.State())
    modifies db
    ensures body == None || body == Some("") || !extract(body.value).isOptOut ==>
              o == Skipped && db.State() == old(db.State())
    ensures body.Some? && body != Some("") && extract(body.value).isOptOut ==>
              Handed(old(db.State()), db.State(), TwilioIdentifier(sender, extract(body.value)), "sms", now, o)
  {
    if body == None || body == Some("") {
      return Skipped;
    }
    var e := extract(body.value);
    if !e.isOptOut {
      return Skipped;
    }
    var target := if e.isOptOut && e.kind == PhoneTarget && e.target != "" then Some(e.target) else sender;
    var normalized := None;
    if target.Some? {
      normalized := NormalizePhone(target.value);
    }
    if normalized == None {
      normalized := sender;
    }
    if normalized == None {
      return Rejected;
    }
    var stored := CreateOptOut(db, normalized.value, "sms", now);
    o := OutcomeOf(stored);
  }

  /** Twilio stores the phone form of the extracted number or of the sender, whichever is used;
      only text without a digit or plus sign falls back to the sender itself. */
  lemma TwilioStores(sender: Option<string>, e: Extracted)
    ensures var t := TwilioTarget(sender, e);
            t.Some? && NormalizePhone(t.value).Some? ==>
              TwilioIdentifier(sender, e).Some? &&
              Canonicalize(TwilioIdentifier(sender, e).value) == NormalizePhone(t.value)
    ensures var t := TwilioTarget(sender, e);
            t.None? || NormalizePhone(t.value).None? ==> TwilioIdentifier(sender, e) == sender
  {
    var t := TwilioTarget(sender, e);
    if t.Some? && NormalizePhone(t.value).Some? {
      NormalizedPhoneFixed(t.value);
    }
  }

  // ---------------------------------------------------------------- email

  /** The address found in the From header, or the header itself. */
  function Sender(from: string): string {
    match Search(EMAIL, from)
    case Some(m) => Strip(from[m.0..m.1])
    case None => Strip(from)
  }

  predicate Unset(fields: map<string, string>, key: string) {
    key !in fields || fields[key] == ""
  }

  predicate FirstSet(fields: map<string, string>, keys: seq<string>, p: int) {
    0 <= p < |keys| && !Unset(fields, keys[p]) && forall q :: 0 <= q < p ==> Unset(fields, keys[q])
  }

  /** A chain of `get(key) or`: the value of the first key whose value is not empty. */
  function FirstNonEmpty(fields: map<string, string>, keys: seq<string>): (r: string)
    ensures forall p :: FirstSet(fields, keys, p) ==> r == fields[keys[p]]
    ensures (forall q :: 0 <= q < |keys| ==> Unset(fields, keys[q])) ==> r == ""
  {
    if keys == [] then ""
    else if !Unset(fields, keys[0]) then fields[keys[0]]
    else
      assert forall p :: FirstSet(fields, keys, p) ==> FirstSet(fields, keys[1..], p - 1);
      FirstNonEmpty(fields, keys[1..])
  }

  function FromHeader(fields: map<string, string>): string {
    FirstNonEmpty(fields, ["from", "sender"])
  }

  function SubjectOf(fields: map<string, string>): string {
    FirstNonEmpty(fields, ["subject"])
  }

  /** HTML counts as the body of a JSON payload only. */
  function BodyOf(isJson: bool, fields: map<string, string>): string {
    FirstNonEmpty(fields, if isJson then ["text", "body", "html"] else ["text", "body"])
  }

  method IngestEmail(db: Store, extract: string -> Extracted, isJson: bool, fields: map<string, string>, now: int)
    returns (o: Outcome)
    requires WellFormed(db.State())
    modifies db
    ensures var sender := Sender(FromHeader(fields));
            if extract(EmailText(SubjectOf(fields), BodyOf(isJson, fields))).isOptOut then
              o == OutcomeOf(Canonicalize(sender)) &&
              Handed(old(db.State()), db.State(), Some(OrElse(NormalizeEmail(sender), sender)), "email", now, o)
            else o == Skipped && db.State() == old(db.State())
  {
    var from := FromHeader(fields);
    var subject, body := SubjectOf(fields), BodyOf(isJson, fields);
    var m := Search(EMAIL, from);
    var sender := if m.Some? then from[m.value.0..m.value.1] else from;
    sender := Strip(sender);
    var e := extract(EmailText(subject, body));
    if !e.isOptOut {
      return Skipped;
    }
    var identifier := OrElse(NormalizeEmail(sender), sender);
    EmailFirstIsHarmless(sender);
    var stored := CreateOptOut(db, identifier, "email", now);
    o := OutcomeOf(stored);
  }

  lemma CanonicalizeIgnoresStrip(s: string)
    ensures Canonicalize(Strip(s)) == Canonicalize(s)
  {
    StripFixed(Strip(s));
  }

  /** From "name <address>" the handler stores the canonical form of exactly the address. */
  lemma EmailHandlerStoresAddress(from: string, i: nat, e: nat, address: string)
    requires StandsBracketed(from, i, e, address) && Describes(EMAIL, address)
    ensures Canonicalize(Sender(from)) == Canonicalize(address)
  {
    NameAddrIsFound(from, i, e, address);
    CanonicalizeIgnoresStrip(address);
  }

  // ---------------------------------------------------------------- generic JSON

  const TEXT_KEYS := ["text", "body", "message", "content", "msg"]

  /** str() of a value; the rendering of values that are not texts is left open. */
  function Str(j: P.Json, show: P.Json -> string): string {
    if j.Text? then j.s else show(j)
  }

  /** The phone and email of a payload: those at the given paths, or else its old-style identifier. */
  function Explicit(fields: map<string, P.Json>, phoneKey: string, emailKey: string, show: P.Json -> string)
    : (P.Json, P.Json)
  {
    var phone := P.Resolve(P.Object(fields), phoneKey);
    var email := P.Resolve(P.Object(fields), emailKey);
    if !P.Truthy(phone) && !P.Truthy(email) && "identifier" in fields then
      var val := Str(fields["identifier"], show);
      if '@' in val then (phone, P.Text(val)) else (P.Text(val), email)
    else (phone, email)
  }

  /** The text to evaluate: at the given path, or else under the first of the usual keys. */
  function TextOf(fields: map<string, P.Json>, textKey: string): P.Json {
    var text := P.Resolve(P.Object(fields), textKey);
    if P.Truthy(text) then text else FirstText(fields, 0)
  }

  predicate FirstPresent(fields: map<string, P.Json>, i: nat, j: int) {
    i <= j < |TEXT_KEYS| && TEXT_KEYS[j] in fields && forall k :: i <= k < j ==> TEXT_KEYS[k] !in fields
  }

  /** The value under the first usual key from position i on that is present, null if there is none. */
  function FirstText(fields: map<string, P.Json>, i: nat): (text: P.Json)
    requires i <= |TEXT_KEYS|
    ensures forall j :: FirstPresent(fields, i, j) ==> text == fields[TEXT_KEYS[j]]
    ensures (forall k :: i <= k < |TEXT_KEYS| ==> TEXT_KEYS[k] !in fields) ==> text == P.Null
    decreases |TEXT_KEYS| - i
  {
    if i == |TEXT_KEYS| then P.Null
    else if TEXT_KEYS[i] in fields then fields[TEXT_KEYS[i]]
    else FirstText(fields, i + 1)
  }

  predicate HasText(fields: map<string, P.Json>, textKey: string) {
    P.Truthy(P.Resolve(P.Object(fields), textKey)) || exists i :: 0 <= i < |TEXT_KEYS| && TEXT_KEYS[i] in fields
  }

  /** The evaluation of the payload's text, or of the whole payload if there is none. */
  function Evaluated(fields: map<string, P.Json>, textKey: string, show: P.Json -> string,
                     extract: string -> Extracted): Extracted
  {
    var text := TextOf(fields, textKey);
    extract(if P.Truthy(text) then Str(text, show) else show(P.Object(fields)))
  }

  /** The explicit target in the form the fallback uses: the email if there is one. */
  function DirectTarget(phone: P.Json, email: P.Json): P.Json {
    if P.Truthy(email) then email else phone
  }

  /** The normalised form, or the extracted target if that is a non-empty text. */
  function Chosen(normalized: Option<string>, extracted: P.Json): Option<string> {
    if normalized != None && normalized != Some("") then normalized
    else if extracted.Text? && extracted.s != "" then Some(extracted.s)
    else None
  }

  /** The identifier chosen from explicit and extracted targets; None for a 400 or 422 answer. */
  function GenericIdentifier(phone: P.Json, email: P.Json, extracted: P.Json, kind: Target, show: P.Json -> string)
    : Option<string>
  {
    if P.Truthy(email) then Chosen(NormalizeEmail(Str(email, show)), extracted)
    else if P.Truthy(phone) then Chosen(NormalizePhone(Str(phone, show)), extracted)
    else TargetIdentifier(extracted, kind, show)
  }

  function TargetIdentifier(extracted: P.Json, kind: Target, show: P.Json -> string): Option<string> {
    if !P.Truthy(extracted) then None
    else if kind == EmailTarget then Chosen(NormalizeEmail(Str(extracted, show)), extracted)
    else Chosen(NormalizePhone(Str(extracted, show)), extracted)
  }

  predicate HasPhoneChar(s: string) {
    exists c :: c in s && IsPhoneChar(c)
  }

  /** An explicit email that is not blank. */
  predicate UsableEmail(email: P.Json, show: P.Json -> string) {
    P.Truthy(email) && Strip(Str(email, show)) != ""
  }

  /** An explicit phone with a digit or plus sign, given without an email. */
  predicate UsablePhone(phone: P.Json, email: P.Json, show: P.Json -> string) {
    !P.Truthy(email) && P.Truthy(phone) && HasPhoneChar(Str(phone, show))
  }

  /** The phone form of an extracted phone if it has one, otherwise the canonical form. */
  function TargetForm(target: string, kind: Target): Option<string> {
    if kind == PhoneTarget && HasPhoneChar(target) then NormalizePhone(target) else Canonicalize(target)
  }

  /** What ends up in the table: the canonical form of a usable email, else the phone form of a usable
      phone, else that of the extracted target. */
  function BestForm(phone: P.Json, email: P.Json, target: string, kind: Target, show: P.Json -> string)
    : Option<string>
  {
    if UsableEmail(email, show) then Canonicalize(Str(email, show))
    else if UsablePhone(phone, email, show) then NormalizePhone(Str(phone, show))
    else if P.Truthy(email) || P.Truthy(phone) then Canonicalize(target)
    else TargetForm(target, kind)
  }

  function StoredForm(identifier: Option<string>): Option<string> {
    match identifier case None => None case Some(raw) => Canonicalize(raw)
  }

  lemma PhoneFormStored(raw: string)
    ensures NormalizePhone(raw).Some? <==> HasPhoneChar(raw)
    ensures HasPhoneChar(raw) ==> StoredForm(NormalizePhone(raw)) == NormalizePhone(raw)
  {
    NormalizedPhoneShape(raw);
    if PhoneChars(raw) != [] {
      assert PhoneChars(raw)[0] in PhoneChars(raw);
      NormalizedPhoneFixed(raw);
    }
  }

  lemma NothingStored()
    ensures Canonicalize("") == None
  {
    CanonicalizePhone("");
  }

  lemma EmailFormStored(raw: string)
    requires Strip(raw) != ""
    ensures NormalizeEmail(raw) != None && NormalizeEmail(raw) != Some("")
    ensures StoredForm(NormalizeEmail(raw)) == Canonicalize(raw)
  {
    assert raw != "";
    EmailFirstIsHarmless(raw);
  }

  lemma BlankEmailForm(raw: string)
    requires Strip(raw) == ""
    ensures NormalizeEmail(raw) == None || NormalizeEmail(raw) == Some("")
  {
  }

  lemma FallbackChosen(target: string)
    ensures Chosen(None, P.Text(target)) == if target == "" then None else Some(target)
    ensures Chosen(Some(""), P.Text(target)) == Chosen(None, P.Text(target))
  {
  }

  lemma FallbackStored(target: string)
    ensures StoredForm(Chosen(None, P.Text(target))) == Canonicalize(target)
    ensures StoredForm(Chosen(Some(""), P.Text(target))) == Canonicalize(target)
  {
    FallbackChosen(target);
    NothingStored();
  }

  lemma ExplicitEmailStores(raw: string, target: string)
    ensures StoredForm(Chosen(NormalizeEmail(raw), P.Text(target))) ==
            if Strip(raw) != "" then Canonicalize(raw) else Canonicalize(target)
  {
    FallbackStored(target);
    if Strip(raw) != "" {
      EmailFormStored(raw);
    } else {
      BlankEmailForm(raw);
    }
  }

  lemma ExplicitPhoneStores(raw: string, target: string)
    ensures StoredForm(Chosen(NormalizePhone(raw), P.Text(target))) ==
            if HasPhoneChar(raw) then NormalizePhone(raw) else Canonicalize(target)
  {
    FallbackStored(target);
    PhoneFormStored(raw);
    NormalizedPhoneShape(raw);
  }

  lemma ExplicitStores(phone: P.Json, email: P.Json, target: string, kind: Target, show: P.Json -> string)
    requires P.Truthy(email) || P.Truthy(phone)
    ensures StoredForm(GenericIdentifier(phone, email, P.Text(target), kind, show)) ==
            BestForm(phone, email, target, kind, show)
  {
    if P.Truthy(email) {
      ExplicitEmailStores(Str(email, show), target);
    } else {
      ExplicitPhoneStores(Str(phone, show), target);
    }
  }

  lemma NoTargetStores(kind: Target, show: P.Json -> string)
    ensures TargetIdentifier(P.Text(""), kind, show) == None && TargetForm("", kind) == None
  {
    NothingStored();
  }

  lemma TargetFolds(target: string, kind: Target, show: P.Json -> string)
    requires target != ""
    ensures TargetIdentifier(P.Text(target), kind, show) ==
            Chosen(if kind == EmailTarget then NormalizeEmail(target) else NormalizePhone(target), P.Text(target))
  {
  }

  lemma SomeTargetStores(target: string, kind: Target, show: P.Json -> string)
    requires target != ""
    ensures StoredForm(TargetIdentifier(P.Text(target), kind, show)) == TargetForm(target, kind)
  {
    TargetFolds(target, kind, show);
    if kind == EmailTarget {
      assert TargetForm(target, kind) == Canonicalize(target);
      ExplicitEmailStores(target, target);
    } else {
      ExplicitPhoneStores(target, target);
    }
  }

  lemma TargetStores(target: string, kind: Target, show: P.Json -> string)
    ensures StoredForm(TargetIdentifier(P.Text(target), kind, show)) == TargetForm(target, kind)
  {
    if target == "" {
      NoTargetStores(kind, show);
    } else {
      SomeTargetStores(target, kind, show);
    }
  }

  /** The handler's normalising, its fallbacks and the service's own normalising together store the
      best form. */
  lemma EvaluatedStores(phone: P.Json, email: P.Json, target: string, kind: Target, show: P.Json -> string)
    ensures StoredForm(GenericIdentifier(phone, email, P.Text(target), kind, show)) ==
            BestForm(phone, email, target, kind, show)
  {
    if P.Truthy(email) || P.Truthy(phone) {
      ExplicitStores(phone, email, target, kind, show);
    } else {
      TargetStores(target, kind, show);
    }
  }

  /** A text with neither an "@" nor a digit or plus sign. */
  predicate Unstorable(s: string) {
    '@' !in s && !HasPhoneChar(s)
  }

  lemma UnstorableExactly(s: string)
    ensures Canonicalize(s) == None <==> Unstorable(s)
  {
    PhoneFormStored(s);
    if '@' in s {
      CanonicalizeEmail(s);
    } else {
      CanonicalizePhone(s);
    }
  }

  /** A request is rejected exactly if the value that would be stored is unstorable: a usable email, or
      without any usable explicit value the extracted target. A usable phone is never rejected. */
  lemma RejectedExactly(phone: P.Json, email: P.Json, target: string, kind: Target, show: P.Json -> string)
    ensures BestForm(phone, email, target, kind, show) == None <==>
            if UsableEmail(email, show) then Unstorable(Str(email, show))
            else !UsablePhone(phone, email, show) && Unstorable(target)
  {
    UnstorableExactly(Str(email, show));
    UnstorableExactly(target);
    PhoneFormStored(target);
    PhoneFormStored(Str(phone, show));
  }

  /** The handler's choice of the final identifier. */
  method ChooseIdentifier(phone: P.Json, email: P.Json, extracted: P.Json, kind: Target, show: P.Json -> string)
    returns (identifier: Option<string>)
    ensures identifier == GenericIdentifier(phone, email, extracted, kind, show)
    ensures extracted.Text? ==> StoredForm(identifier) == BestForm(phone, email, extracted.s, kind, show)
  {
    if extracted.Text? {
      EvaluatedStores(phone, email, extracted.s, kind, show);
    }
    var normalized := None;
    if P.Truthy(email) {
      normalized := NormalizeEmail(Str(email, show));
    } else if P.Truthy(phone) {
      normalized := NormalizePhone(Str(phone, show));
    } else if P.Truthy(extracted) {
      if kind == EmailTarget {
        normalized := NormalizeEmail(Str(extracted, show));
      } else {
        normalized := NormalizePhone(Str(extracted, show));
      }
    }
    identifier := Chosen(normalized, extracted);
  }

  /** The search loop of the handler. */
  method FindText(fields: map<string, P.Json>) returns (text: P.Json)
    ensures text == FirstText(fields, 0)
  {
    text := P.Null;
    var i := 0;
    while i < |TEXT_KEYS|
      invariant i <= |TEXT_KEYS| && FirstText(fields, 0) == FirstText(fields, i) && text == P.Null
    {
      if TEXT_KEYS[i] in fields {
        return fields[TEXT_KEYS[i]];
      }
      i := i + 1;
    }
  }

  method IngestGeneric(db: Store, extract: string -> Extracted, show: P.Json -> string, fields: map<string, P.Json>,
                       phoneKey: string, emailKey: string, textKey: string, channel: string, now: int)
    returns (o: Outcome)
    requires WellFormed(db.State())
    modifies db
    ensures var (phone, email) := Explicit(fields, phoneKey, emailKey, show);
            if (P.Truthy(phone) || P.Truthy(email)) && !HasText(fields, textKey) then
              Handed(old(db.State()), db.State(),
                     GenericIdentifier(phone, email, DirectTarget(phone, email), DirectKind(email), show),
                     channel, now, o)
            else
              var e := Evaluated(fields, textKey, show, extract);
              if e.isOptOut then
                Handed(old(db.State()), db.State(), GenericIdentifier(phone, email, P.Text(e.target), e.kind, show),
                       channel, now, o) &&
                o == OutcomeOf(BestForm(phone, email, e.target, e.kind, show))
              else o == Skipped && db.State() == old(db.State())
  {
    var phone := P.ResolvePath(P.Object(fields), phoneKey);
    var email := P.ResolvePath(P.Object(fields), emailKey);
    var text := P.ResolvePath(P.Object(fields), textKey);
    if !P.Truthy(phone) && !P.Truthy(email) && "identifier" in fields {
      var val := Str(fields["identifier"], show);
      if '@' in val {
        email := P.Text(val);
      } else {
        phone := P.Text(val);
      }
    }
    var extracted, kind;
    if (P.Truthy(phone) || P.Truthy(email)) && !HasText(fields, textKey) {
      extracted := if P.Truthy(email) then email else phone;
      kind := if P.Truthy(email) then EmailTarget else PhoneTarget;
    } else {
      if !P.Truthy(text) {
        text := FindText(fields);
      }
      var e := extract(if P.Truthy(text) then Str(text, show) else show(P.Object(fields)));
      if !e.isOptOut {
        return Skipped;
      }
      extracted := P.Text(e.target);
      kind := e.kind;
    }
    var identifier := ChooseIdentifier(phone, email, extracted, kind, show);
    if identifier == None {
      return Rejected;
    }
    var stored := CreateOptOut(db, identifier.value, channel, now);
    o := OutcomeOf(stored);
  }

  function DirectKind(email: P.Json): Target {
    if P.Truthy(email) then EmailTarget else PhoneTarget
  }

  lemma DirectIdentifier(phone: P.Json, email: P.Json, raw: string, show: P.Json -> string)
    requires (P.Truthy(email) || P.Truthy(phone)) && DirectTarget(phone, email) == P.Text(raw)
    ensures GenericIdentifier(phone, email, P.Text(raw), DirectKind(email), show) ==
            Some(OrElse(if P.Truthy(email) then NormalizeEmail(raw) else NormalizePhone(raw), raw))
  {
  }

  /** A direct request with an email stores its canonical form; with a phone it does so exactly if
      the text is not an address with a digit or plus sign, whose phone form is stored instead. */
  lemma DirectRequestStores(phone: P.Json, email: P.Json, raw: string, show: P.Json -> string)
    requires (P.Truthy(email) || P.Truthy(phone)) && DirectTarget(phone, email) == P.Text(raw)
    ensures var id := GenericIdentifier(phone, email, P.Text(raw), DirectKind(email), show);
            id.Some? &&
            (Canonicalize(id.value) == Canonicalize(raw) <==>
               P.Truthy(email) || !('@' in raw && exists c :: c in raw && IsPhoneChar(c)))
  {
    DirectIdentifier(phone, email, raw, show);
    if P.Truthy(email) {
      EmailFirstIsHarmless(raw);
    } else {
      PhoneFirstChangesExactly(raw);
    }
  }

  /** The default keys find nothing in an old-style payload. */
  lemma LegacyKeysMissing(fields: map<string, P.Json>)
    requires fields.Keys == {"identifier"}
    ensures P.Resolve(P.Object(fields), "phone") == P.Null && P.Resolve(P.Object(fields), "email") == P.Null
    ensures P.Resolve(P.Object(fields), "text") == P.Null
    ensures forall i :: 0 <= i < |TEXT_KEYS| ==> TEXT_KEYS[i] !in fields
  {
    assert |"phone"| == 5 && |"email"| == 5 && |"text"| == 4 && |"identifier"| == 10;
    P.KeyResolves(fields, "phone");
    P.KeyResolves(fields, "email");
    P.KeyResolves(fields, "text");
    forall i | 0 <= i < |TEXT_KEYS| ensures TEXT_KEYS[i] !in fields {
      assert |TEXT_KEYS[i]| < 10;
    }
  }

  lemma LegacyFinds(val: string, show: P.Json -> string)
    requires val != ""
    ensures var fields := map["identifier" := P.Text(val)];
            Explicit(fields, "phone", "email", show) ==
              (if '@' in val then (P.Null, P.Text(val)) else (P.Text(val), P.Null)) &&
            !HasText(fields, "text")
  {
    LegacyKeysMissing(map["identifier" := P.Text(val)]);
  }

  /** A payload whose only key is the old-style identifier stores its canonical form. */
  lemma LegacyIdentifierStores(val: string, show: P.Json -> string)
    requires val != ""
    ensures var fields := map["identifier" := P.Text(val)];
            var (phone, email) := Explicit(fields, "phone", "email", show);
            (P.Truthy(phone) || P.Truthy(email)) && !HasText(fields, "text") &&
            DirectTarget(phone, email) == P.Text(val) &&
            var id := GenericIdentifier(phone, email, P.Text(val), DirectKind(email), show);
            id.Some? && Canonicalize(id.value) == Canonicalize(val)
  {
    LegacyFinds(val, show);
    if '@' in val {
      DirectRequestStores(P.Null, P.Text(val), val, show);
    } else {
      DirectRequestStores(P.Text(val), P.Null, val, show);
    }
  }

  // ---------------------------------------------------------------- by the names of the fields

  /** `get(key) or ""` */
  function Field(fields: map<string, string>, key: string): string {
    if key in fields then fields[key] else ""
  }

  lemma OneField(fields: map<string, string>, a: string)
    ensures FirstNonEmpty(fields, [a]) == Field(fields, a)
  {
  }

  lemma TwoFields(fields: map<string, string>, a: string, b: string)
    ensures FirstNonEmpty(fields, [a, b]) == if Field(fields, a) != "" then Field(fields, a) else Field(fields, b)
  {
    assert [a, b][1..] == [b];
    OneField(fields, b);
  }

  lemma ThreeFields(fields: map<string, string>, a: string, b: string, c: string)
    ensures FirstNonEmpty(fields, [a, b, c]) ==
            if Field(fields, a) != "" then Field(fields, a)
            else if Field(fields, b) != "" then Field(fields, b)
            else Field(fields, c)
  {
    assert [a, b, c][1..] == [b, c];
    TwoFields(fields, b, c);
  }

  /** The header is under "from" or else "sender", the body under "text" or else "body"; only for JSON does
      "html" come last. */
  lemma EmailFieldsExactly(fields: map<string, string>)
    ensures FromHeader(fields) ==
            if Field(fields, "from") != "" then Field(fields, "from") else Field(fields, "sender")
    ensures SubjectOf(fields) == Field(fields, "subject")
    ensures Field(fields, "text") != "" ==> forall json :: BodyOf(json, fields) == Field(fields, "text")
    ensures Field(fields, "text") == "" && Field(fields, "body") != "" ==>
              forall json :: BodyOf(json, fields) == Field(fields, "body")
    ensures Field(fields, "text") == "" && Field(fields, "body") == "" ==>
              BodyOf(true, fields) == Field(fields, "html") && BodyOf(false, fields) == ""
  {
    TwoFields(fields, "from", "sender");
    OneField(fields, "subject");
    TwoFields(fields, "text", "body");
    ThreeFields(fields, "text", "body", "html");
  }

  /** The phone form of a number in the text; without one that of the sender, and the sender itself where
      there is no phone form. */
  lemma TwilioStoresExactly(sender: Option<string>, e: Extracted)
    requires e.isOptOut
    ensures StoredForm(TwilioIdentifier(sender, e)) ==
            if e.kind == PhoneTarget && HasPhoneChar(e.target) then NormalizePhone(e.target)
            else if sender.Some? && HasPhoneChar(sender.value) && (e.kind == EmailTarget || e.target == "")
            then NormalizePhone(sender.value)
            else StoredForm(sender)
  {
    TwilioStores(sender, e);
    PhoneFormStored(e.target);
    if sender.Some? {
      PhoneFormStored(sender.value);
    }
  }

  /** The text keys by name, in their order. */
  lemma TextKeysExactly(fields: map<string, P.Json>)
    ensures FirstText(fields, 0) ==
            if "text" in fields then fields["text"]
            else if "body" in fields then fields["body"]
            else if "message" in fields then fields["message"]
            else if "content" in fields then fields["content"]
            else if "msg" in fields then fields["msg"]
            else P.Null
    ensures forall textKey :: HasText(fields, textKey) <==>
            P.Truthy(P.Resolve(P.Object(fields), textKey)) ||
            exists k :: k in {"text", "body", "message", "content", "msg"} && k in fields
  {
  }

  /** A phone or an email at its path makes the old-style identifier irrelevant. */
  lemma ExplicitComesFirst(fields: map<string, P.Json>, phoneKey: string, emailKey: string, show: P.Json -> string)
    ensures var phone := P.Resolve(P.Object(fields), phoneKey);
            var email := P.Resolve(P.Object(fields), emailKey);
            P.Truthy(phone) || P.Truthy(email) || "identifier" !in fields ==>
              Explicit(fields, phoneKey, emailKey, show) == (phone, email)
  {
  }

  /** Without them the identifier counts as the email if it has an "@", otherwise as the phone. */
  lemma IdentifierComesSecond(fields: map<string, P.Json>, phoneKey: string, emailKey: string, val: string,
                              show: P.Json -> string)
    requires !P.Truthy(P.Resolve(P.Object(fields), phoneKey)) && !P.Truthy(P.Resolve(P.Object(fields), emailKey))
    requires "identifier" in fields && fields["identifier"] == P.Text(val) && val != ""
    ensures var (phone, email) := Explicit(fields, phoneKey, emailKey, show);
            if '@' in val then email == P.Text(val) && !P.Truthy(phone)
            else phone == P.Text(val) && !P.Truthy(email)
  {
  }

  /** What is evaluated: the text at its path, else the first usual text that is not empty, else the whole
      payload. */
  lemma EvaluatedExactly(fields: map<string, P.Json>, textKey: string, t: string, show: P.Json -> string,
                         extract: string -> Extracted)
    ensures var e := Evaluated(fields, textKey, show, extract);
            var given, usual := P.Resolve(P.Object(fields), textKey), FirstText(fields, 0);
            (t != "" && given == P.Text(t) ==> e == extract(t)) &&
            (t != "" && !P.Truthy(given) && usual == P.Text(t) ==> e == extract(t)) &&
            (!P.Truthy(given) && !P.Truthy(usual) ==> e == extract(show(P.Object(fields))))
  {
  }

  /** Without an address in it, the header itself is stored in its canonical form. */
  lemma PlainHeaderStores(from: string)
    requires Search(EMAIL, from).None?
    ensures Canonicalize(Sender(from)) == Canonicalize(from)
  {
    CanonicalizeIgnoresStrip(from);
  }
}
