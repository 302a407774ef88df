/**
 The remote CRM accounts and the calls the dispatcher makes against them.

 A dispatch is a short protocol of HTTP calls. `Step` performs one call: it may be
 delivered, or fail before it took effect, or take effect and then lose its response.
 Searches are equality searches that return the first match.
 */
module Crm {
  import opened Basics

  /** A HubSpot contact, a Salesforce contact or a Salesforce lead. */
  datatype Record = Record(email: Option<string>, phone: Option<string>, noEmail: bool, noCall: bool)

  datatype Account = Account(hubspot: seq<Record>, contacts: seq<Record>, leads: seq<Record>)

  datatype Reply = Success | Failure(error: string)

  /** What the network does to one call. */
  datatype Outcome = Delivered | Lost(tookEffect: bool, error: string)

  /** The next call of a dispatch, or its result. */
  datatype Call =
    | HsSearch | HsPatch(contact: nat) | HsCreate
    | SfFindContact | SfPatchContact(contact: nat) | SfFindLead | SfPatchLead(lead: nat) | SfCreateLead
    | Post
    | Done(reply: Reply)

  predicate IsEmail(identifier: string) {
    '@' in identifier
  }

  /** The search filter: the property of the identifier's kind equals it. */
  predicate Matches(r: Record, identifier: string) {
    if IsEmail(identifier) then r.email == Some(identifier) else r.phone == Some(identifier)
  }

  function FirstMatch(rs: seq<Record>, identifier: string): (r: Option<nat>)
    ensures r.Some? ==> r.value < |rs| && Matches(rs[r.value], identifier)
    ensures r.Some? ==> forall i :: 0 <= i < r.value ==> !Matches(rs[i], identifier)
    ensures r.None? ==> forall i :: 0 <= i < |rs| ==> !Matches(rs[i], identifier)
  {
    if rs == [] then None
    else if Matches(rs[0], identifier) then Some(0)
    else
      match FirstMatch(rs[1..], identifier)
      case Some(i) => Some(i + 1)
      case None => None
  }

  /** The payload of a HubSpot patch sets both flags. */
  function HsMark(r: Record, identifier: string): Record {
    r.(noEmail := IsEmail(identifier), noCall := !IsEmail(identifier))
  }

  /** The payload of a Salesforce patch sets one flag. */
  function SfMark(r: Record, identifier: string): Record {
    if IsEmail(identifier) then r.(noEmail := true) else r.(noCall := true)
  }

  function NewRecord(identifier: string): Record {
    if IsEmail(identifier) then Record(Some(identifier), None, true, false)
    else Record(None, Some(identifier), false, true)
  }

  /** The change a call makes to the account when it takes effect. */
  function Effect(a: Account, call: Call, identifier: string): Account {
    match call
    case HsPatch(i) =>
      if i < |a.hubspot| then a.(hubspot := a.hubspot[i := HsMark(a.hubspot[i], identifier)]) else a
    case HsCreate => a.(hubspot := a.hubspot + [NewRecord(identifier)])
    case SfPatchContact(i) =>
      if i < |a.contacts| then a.(contacts := a.contacts[i := SfMark(a.contacts[i], identifier)]) else a
    case SfPatchLead(i) =>
      if i < |a.leads| then a.(leads := a.leads[i := SfMark(a.leads[i], identifier)]) else a
    case SfCreateLead => a.(leads := a.leads + [NewRecord(identifier)])
    case _ => a
  }

  /** What the dispatcher does after a delivered response. */
  function Continue(a: Account, call: Call, identifier: string): Call {
    match call
    case HsSearch =>
      (match FirstMatch(a.hubspot, identifier) case Some(i) => HsPatch(i) case None => HsCreate)
    case SfFindContact =>
      (match FirstMatch(a.contacts, identifier) case Some(i) => SfPatchContact(i) case None => SfFindLead)
    case SfFindLead =>
      (match FirstMatch(a.leads, identifier) case Some(i) => SfPatchLead(i) case None => SfCreateLead)
    case Done(_) => call
    case _ => Done(Success)
  }

  /** One call under one network outcome: the account afterwards and the next call. */
  function Step(a: Account, call: Call, identifier: string, outcome: Outcome): (Account, Call) {
    match outcome
    case Delivered => (Effect(a, call, identifier), Continue(a, call, identifier))
    case Lost(tookEffect, error) =>
      (if tookEffect then Effect(a, call, identifier) else a, Done(Failure(error)))
  }

  function CallsLeft(call: Call): nat {
    match call
    case SfFindContact => 3
    case HsSearch => 2
    case SfFindLead => 2
    case Done(_) => 0
    case _ => 1
  }

  /** The whole protocol from `call` on; `faults(n)` is the outcome of the n-th call. */
  function Finish(a: Account, call: Call, identifier: string, faults: nat -> Outcome, n: nat): (Account, Reply)
    decreases CallsLeft(call)
  {
    if call.Done? then (a, call.reply)
    else
      var (b, next) := Step(a, call, identifier, faults(n));
      Finish(b, next, identifier, faults, n + 1)
  }

  predicate IsSearchStart(call: Call) {
    call == HsSearch || call == SfFindContact
  }

  /** What a delivered dispatch means, without the protocol: the record that ends up marked. */
  function MarkedHubSpot(a: Account, identifier: string): Account {
    match FirstMatch(a.hubspot, identifier)
    case Some(i) => a.(hubspot := a.hubspot[i := HsMark(a.hubspot[i], identifier)])
    case None => a.(hubspot := a.hubspot + [NewRecord(identifier)])
  }

  function MarkedSalesforce(a: Account, identifier: string): Account {
    match FirstMatch(a.contacts, identifier)
    case Some(i) => a.(contacts := a.contacts[i := SfMark(a.contacts[i], identifier)])
    case None =>
      match FirstMatch(a.leads, identifier)
      case Some(i) => a.(leads := a.leads[i := SfMark(a.leads[i], identifier)])
      case None => a.(leads := a.leads + [NewRecord(identifier)])
  }

  function Marked(a: Account, start: Call, identifier: string): Account
    requires IsSearchStart(start)
  {
    if start == HsSearch then MarkedHubSpot(a, identifier) else MarkedSalesforce(a, identifier)
  }

  /** A dispatch under faults either leaves the account alone or does all of its work;
      it reports success only in the second case. */
  lemma AttemptAllOrNothing(a: Account, start: Call, identifier: string, faults: nat -> Outcome, n: nat)
    requires IsSearchStart(start)
    ensures var (b, reply) := Finish(a, start, identifier, faults, n);
            (b == a || b == Marked(a, start, identifier)) &&
            (reply.Success? ==> b == Marked(a, start, identifier))
  {
    var (b1, c1) := Step(a, start, identifier, faults(n));
    if !c1.Done? {
      var (b2, c2) := Step(b1, c1, identifier, faults(n + 1));
      if !c2.Done? {
        var (b3, c3) := Step(b2, c2, identifier, faults(n + 2));
        assert c3.Done?;
      }
    }
  }

  lemma CleanIsMarked(a: Account, start: Call, identifier: string, faults: nat -> Outcome)
    requires IsSearchStart(start)
    requires forall n: nat :: faults(n) == Delivered
    ensures Finish(a, start, identifier, faults, 0) == (Marked(a, start, identifier), Success)
  {
    var (b1, c1) := Step(a, start, identifier, faults(0));
    var (b2, c2) := Step(b1, c1, identifier, faults(1));
    assert Finish(a, start, identifier, faults, 0) == Finish(b1, c1, identifier, faults, 1);
    assert Finish(b1, c1, identifier, faults, 1) == Finish(b2, c2, identifier, faults, 2);
    if !c2.Done? {
      var (b3, c3) := Step(b2, c2, identifier, faults(2));
      assert c3.Done?;
    }
  }

  lemma FirstMatchUnique(rs: seq<Record>, identifier: string, i: nat)
    requires i < |rs| && Matches(rs[i], identifier)
    requires forall j :: 0 <= j < i ==> !Matches(rs[j], identifier)
    ensures FirstMatch(rs, identifier) == Some(i)
  {
  }

  lemma MarkedIdempotent(a: Account, start: Call, identifier: string)
    requires IsSearchStart(start)
    ensures Marked(Marked(a, start, identifier), start, identifier) == Marked(a, start, identifier)
  {
    var b := Marked(a, start, identifier);
    if start == HsSearch {
      MatchAfterMark(a.hubspot, b.hubspot, identifier, HsMark);
    } else if FirstMatch(a.contacts, identifier).Some? {
      MatchAfterMark(a.contacts, b.contacts, identifier, SfMark);
    } else {
      MatchAfterMark(a.leads, b.leads, identifier, SfMark);
    }
  }

  /** Marking the first match, or adding a record, gives a table whose first match is that record,
      and marking it again changes nothing. */
  lemma MatchAfterMark(rs: seq<Record>, after: seq<Record>, identifier: string, mark: (Record, string) -> Record)
    requires mark == HsMark || mark == SfMark
    requires match FirstMatch(rs, identifier)
             case Some(i) => after == rs[i := mark(rs[i], identifier)]
             case None => after == rs + [NewRecord(identifier)]
    ensures var m := FirstMatch(after, identifier);
            m.Some? && after[m.value := mark(after[m.value], identifier)] == after
  {
    var i := match FirstMatch(rs, identifier) case Some(i) => i case None => |rs|;
    FirstMatchUnique(after, identifier, i);
  }

  /** The account after a sequence of attempts at one opt-out, with the reply of the last. */
  function Retry(a: Account, start: Call, identifier: string, attempts: seq<nat -> Outcome>): (Account, Reply)
    requires attempts != []
    decreases |attempts|
  {
    var (b, reply) := Finish(a, start, identifier, attempts[0], 0);
    if |attempts| == 1 then (b, reply) else Retry(b, start, identifier, attempts[1..])
  }

  /** However the calls of earlier attempts failed, before or after their effect, the first
      success leaves the account exactly as a single undisturbed dispatch would have. */
  lemma {:induction false} RetryConvergence(a: Account, start: Call, identifier: string,
                                            attempts: seq<nat -> Outcome>)
    requires IsSearchStart(start) && attempts != []
    decreases |attempts|
    ensures var (b, reply) := Retry(a, start, identifier, attempts);
            (b == a || b == Marked(a, start, identifier)) &&
            (reply.Success? ==> b == Marked(a, start, identifier))
  {
    AttemptAllOrNothing(a, start, identifier, attempts[0], 0);
    if |attempts| > 1 {
      RetryConvergence(Finish(a, start, identifier, attempts[0], 0).0, start, identifier, attempts[1..]);
      MarkedIdempotent(a, start, identifier);
    }
  }

  /** A record with the identifier carries the matching Salesforce opt-out flag. */
  predicate Flagged(r: Record, identifier: string) {
    Matches(r, identifier) && (if IsEmail(identifier) then r.noEmail else r.noCall)
  }

  predicate SalesforceOptedOut(a: Account, identifier: string) {
    (exists i :: 0 <= i < |a.contacts| && Flagged(a.contacts[i], identifier)) ||
    (exists i :: 0 <= i < |a.leads| && Flagged(a.leads[i], identifier))
  }

  predicate HubSpotOptedOut(a: Account, identifier: string) {
    exists i :: 0 <= i < |a.hubspot| && Flagged(a.hubspot[i], identifier)
  }

  /** The opt-out flag of the other kind. */
  function OtherFlag(r: Record, identifier: string): bool {
    if IsEmail(identifier) then r.noCall else r.noEmail
  }

  predicate NoneMatches(rs: seq<Record>, identifier: string) {
    forall j :: 0 <= j < |rs| ==> !Matches(rs[j], identifier)
  }

  /** Tables of the same length or one longer that differ in at most the record at `i`, which is the
      first match, or a new record if nothing matches. */
  ghost predicate DiffersAtMatch(rs: seq<Record>, after: seq<Record>, i: nat, identifier: string) {
    |after| == (if NoneMatches(rs, identifier) then |rs| + 1 else |rs|) && i < |after| &&
    (if i < |rs| then Matches(rs[i], identifier) else i == |rs|) &&
    NoneMatches(rs[..i], identifier) &&
    forall j :: 0 <= j < |rs| && j != i ==> after[j] == rs[j]
  }

  /** The marked record keeps its identifiers and carries the flag; a new one has only the
      identifier. With `overwrites` the other flag is cleared, without it is kept. */
  predicate MarkedRecord(rs: seq<Record>, r: Record, i: nat, identifier: string, overwrites: bool)
    requires i <= |rs|
  {
    Flagged(r, identifier) &&
    if i < |rs| then
      r.email == rs[i].email && r.phone == rs[i].phone &&
      OtherFlag(r, identifier) == (!overwrites && OtherFlag(rs[i], identifier))
    else
      (r.email == None || r.phone == None) && !OtherFlag(r, identifier)
  }

  /** One record of the table is marked and nothing else changes. */
  ghost predicate MarksOne(rs: seq<Record>, after: seq<Record>, identifier: string, overwrites: bool) {
    exists i: nat :: DiffersAtMatch(rs, after, i, identifier) &&
                     MarkedRecord(rs, after[i], i, identifier, overwrites)
  }

  /** A completed HubSpot dispatch marks the first matching contact, or a new one, and touches
      nothing else; on that contact it clears the other flag. */
  lemma HubSpotDispatchMeaning(a: Account, identifier: string)
    ensures var b := MarkedHubSpot(a, identifier);
            b.contacts == a.contacts && b.leads == a.leads && MarksOne(a.hubspot, b.hubspot, identifier, true)
  {
    var b := MarkedHubSpot(a, identifier);
    var i := match FirstMatch(a.hubspot, identifier) case Some(i) => i case None => |a.hubspot|;
    assert DiffersAtMatch(a.hubspot, b.hubspot, i, identifier);
    assert MarkedRecord(a.hubspot, b.hubspot[i], i, identifier, true);
  }

  /** A completed Salesforce dispatch marks the first matching contact; if there is none, the first
      matching lead or a new lead. It touches nothing else and clears no flag. */
  lemma SalesforceDispatchMeaning(a: Account, identifier: string)
    ensures var b := MarkedSalesforce(a, identifier);
            b.hubspot == a.hubspot &&
            if NoneMatches(a.contacts, identifier)
            then b.contacts == a.contacts && MarksOne(a.leads, b.leads, identifier, false)
            else b.leads == a.leads && MarksOne(a.contacts, b.contacts, identifier, false)
  {
    var b := MarkedSalesforce(a, identifier);
    match FirstMatch(a.contacts, identifier)
    case Some(i) =>
      assert DiffersAtMatch(a.contacts, b.contacts, i, identifier);
      assert MarkedRecord(a.contacts, b.contacts[i], i, identifier, false);
    case None =>
      var i := match FirstMatch(a.leads, identifier) case Some(i) => i case None => |a.leads|;
      assert DiffersAtMatch(a.leads, b.leads, i, identifier);
      assert MarkedRecord(a.leads, b.leads[i], i, identifier, false);
  }

  // ---------------------------------------------------------------- field by field

  /** Record i is the first whose email is x. */
  predicate FirstWithEmail(rs: seq<Record>, x: string, i: int) {
    0 <= i < |rs| && rs[i].email == Some(x) && forall j :: 0 <= j < i ==> rs[j].email != Some(x)
  }

  predicate FirstWithPhone(rs: seq<Record>, x: string, i: int) {
    0 <= i < |rs| && rs[i].phone == Some(x) && forall j :: 0 <= j < i ==> rs[j].phone != Some(x)
  }

  predicate NoneWithEmail(rs: seq<Record>, x: string) {
    forall j :: 0 <= j < |rs| ==> rs[j].email != Some(x)
  }

  predicate NoneWithPhone(rs: seq<Record>, x: string) {
    forall j :: 0 <= j < |rs| ==> rs[j].phone != Some(x)
  }

  /** The search for an email looks at the email field only. */
  lemma EmailSearched(rs: seq<Record>, x: string)
    requires '@' in x
    ensures FirstMatch(rs, x) == None <==> NoneWithEmail(rs, x)
    ensures forall i :: FirstMatch(rs, x) == Some(i) <==> FirstWithEmail(rs, x, i)
  {
    forall i | FirstWithEmail(rs, x, i) ensures FirstMatch(rs, x) == Some(i) {
      FirstMatchUnique(rs, x, i);
    }
  }

  /** The search for any other identifier looks at the phone field only. */
  lemma PhoneSearched(rs: seq<Record>, x: string)
    requires '@' !in x
    ensures FirstMatch(rs, x) == None <==> NoneWithPhone(rs, x)
    ensures forall i :: FirstMatch(rs, x) == Some(i) <==> FirstWithPhone(rs, x, i)
  {
    forall i | FirstWithPhone(rs, x, i) ensures FirstMatch(rs, x) == Some(i) {
      FirstMatchUnique(rs, x, i);
    }
  }

  /** An email opt-out in HubSpot: the first contact with that email gets noEmail and loses noCall;
      without one, a contact with exactly that email is added. */
  lemma HubSpotEmailOptOut(a: Account, x: string)
    requires '@' in x
    ensures var b := MarkedHubSpot(a, x);
            b.contacts == a.contacts && b.leads == a.leads &&
            (forall i :: FirstWithEmail(a.hubspot, x, i) ==>
               b.hubspot == a.hubspot[i := Record(Some(x), a.hubspot[i].phone, true, false)]) &&
            (NoneWithEmail(a.hubspot, x) ==> b.hubspot == a.hubspot + [Record(Some(x), None, true, false)])
  {
    EmailSearched(a.hubspot, x);
  }

  /** A phone opt-out in HubSpot, with the fields exchanged. */
  lemma HubSpotPhoneOptOut(a: Account, x: string)
    requires '@' !in x
    ensures var b := MarkedHubSpot(a, x);
            b.contacts == a.contacts && b.leads == a.leads &&
            (forall i :: FirstWithPhone(a.hubspot, x, i) ==>
               b.hubspot == a.hubspot[i := Record(a.hubspot[i].email, Some(x), false, true)]) &&
            (NoneWithPhone(a.hubspot, x) ==> b.hubspot == a.hubspot + [Record(None, Some(x), false, true)])
  {
    PhoneSearched(a.hubspot, x);
  }

  /** An email opt-out in Salesforce: the first contact with that email gets noEmail; without one the
      first such lead does; without any a lead with exactly that email is added. noCall stays. */
  lemma SalesforceEmailOptOut(a: Account, x: string)
    requires '@' in x
    ensures var b := MarkedSalesforce(a, x);
            b.hubspot == a.hubspot &&
            (forall i :: FirstWithEmail(a.contacts, x, i) ==>
               b.contacts == a.contacts[i := a.contacts[i].(noEmail := true)] && b.leads == a.leads) &&
            (NoneWithEmail(a.contacts, x) ==>
               b.contacts == a.contacts &&
               (forall i :: FirstWithEmail(a.leads, x, i) ==> b.leads == a.leads[i := a.leads[i].(noEmail := true)]) &&
               (NoneWithEmail(a.leads, x) ==> b.leads == a.leads + [Record(Some(x), None, true, false)]))
  {
    EmailSearched(a.contacts, x);
    EmailSearched(a.leads, x);
  }

  /** A phone opt-out in Salesforce, with the fields exchanged. */
  lemma SalesforcePhoneOptOut(a: Account, x: string)
    requires '@' !in x
    ensures var b := MarkedSalesforce(a, x);
            b.hubspot == a.hubspot &&
            (forall i :: FirstWithPhone(a.contacts, x, i) ==>
               b.contacts == a.contacts[i := a.contacts[i].(noCall := true)] && b.leads == a.leads) &&
            (NoneWithPhone(a.contacts, x) ==>
               b.contacts == a.contacts &&
               (forall i :: FirstWithPhone(a.leads, x, i) ==> b.leads == a.leads[i := a.leads[i].(noCall := true)]) &&
               (NoneWithPhone(a.leads, x) ==> b.leads == a.leads + [Record(None, Some(x), false, true)]))
  {
    PhoneSearched(a.contacts, x);
    PhoneSearched(a.leads, x);
  }

  /** What a flagged record is, field by field. */
  lemma FlaggedFields(r: Record, x: string)
    ensures '@' in x ==> (Flagged(r, x) <==> r.email == Some(x) && r.noEmail)
    ensures '@' !in x ==> (Flagged(r, x) <==> r.phone == Some(x) && r.noCall)
  {
  }

  // ---------------------------------------------------------------- the reply of a dispatch

  /** A dispatch to HubSpot succeeds exactly if neither of its two requests is lost; otherwise its error is
      that of the lost one. */
  lemma HubSpotReplyExactly(a: Account, x: string, faults: nat -> Outcome, n: nat)
    ensures var reply := Finish(a, HsSearch, x, faults, n).1;
            (reply.Success? <==> faults(n).Delivered? && faults(n + 1).Delivered?) &&
            (reply.Failure? ==> reply.error == (if faults(n).Lost? then faults(n) else faults(n + 1)).error)
  {
  }

  /** A dispatch to Salesforce has a third request unless a contact is found. */
  lemma SalesforceReplyExactly(a: Account, x: string, faults: nat -> Outcome, n: nat)
    ensures var reply := Finish(a, SfFindContact, x, faults, n).1;
            (reply.Success? <==>
               faults(n).Delivered? && faults(n + 1).Delivered? &&
               (FirstMatch(a.contacts, x).Some? || faults(n + 2).Delivered?)) &&
            (reply.Failure? ==>
               reply.error == (if faults(n).Lost? then faults(n) else if faults(n + 1).Lost? then faults(n + 1)
                               else faults(n + 2)).error)
  {
  }

  /** A single post succeeds exactly if it is not lost, and reaches none of the three tables. */
  lemma PostReplyExactly(a: Account, x: string, faults: nat -> Outcome, n: nat)
    ensures Finish(a, Post, x, faults, n) ==
            (a, match faults(n) case Delivered => Success case Lost(_, error) => Failure(error))
  {
  }
}
