/**
 At most one record per identifier: with one worker, no run of the queue ever makes a second
 HubSpot contact or Salesforce lead for an identifier, and every completed delivery has one.
 */
module SingleRecord {
  import opened Records
  import opened Crm
  import opened Queue
  import opened Runs
  import opened Marks
  import D = Delivery

  /** The number of records the search for an identifier matches. */
  function MatchCount(rs: seq<Record>, identifier: string): nat {
    if rs == [] then 0
    else MatchCount(rs[..|rs| - 1], identifier) + if Matches(rs[|rs| - 1], identifier) then 1 else 0
  }

  lemma {:induction false} CountNone(rs: seq<Record>, identifier: string)
    ensures MatchCount(rs, identifier) == 0 <==> NoneMatches(rs, identifier)
  {
    if rs != [] {
      var front := rs[..|rs| - 1];
      CountNone(front, identifier);
      assert forall j :: 0 <= j < |front| ==> front[j] == rs[j];
      assert NoneMatches(rs, identifier) <==> NoneMatches(front, identifier) && !Matches(rs[|rs| - 1], identifier);
    }
  }

  lemma {:induction false} CountSame(rs: seq<Record>, after: seq<Record>, identifier: string)
    requires |rs| == |after|
    requires forall j :: 0 <= j < |rs| ==> rs[j].email == after[j].email && rs[j].phone == after[j].phone
    ensures MatchCount(rs, identifier) == MatchCount(after, identifier)
  {
    if rs != [] {
      CountSame(rs[..|rs| - 1], after[..|after| - 1], identifier);
    }
  }

  lemma CountNew(rs: seq<Record>, y: string, x: string)
    ensures MatchCount(rs + [NewRecord(y)], x) == MatchCount(rs, x) + if x == y then 1 else 0
  {
    var after := rs + [NewRecord(y)];
    assert after[..|after| - 1] == rs;
  }

  /** A table in which a search-then-write for y has patched the first match or added a record. */
  lemma CountMarked(rs: seq<Record>, after: seq<Record>, y: string, x: string, mark: (Record, string) -> Record)
    requires mark == HsMark || mark == SfMark
    requires match FirstMatch(rs, y)
             case Some(i) => after == rs[i := mark(rs[i], y)]
             case None => after == rs + [NewRecord(y)]
    ensures MatchCount(after, x) ==
            if x == y && MatchCount(rs, x) == 0 then 1 else MatchCount(rs, x)
  {
    CountNone(rs, y);
    match FirstMatch(rs, y)
    case Some(i) =>
      assert Matches(rs[i], y);
      CountSame(rs, after, x);
    case None =>
      CountNew(rs, y, x);
  }

  // ---------------------------------------------------------------- one delivery

  /** The number stays, or the first record appears. */
  predicate AtMostFirst(before: nat, after: nat) {
    after == before || (before == 0 && after == 1)
  }

  function SalesforceCount(a: Account, identifier: string): nat {
    MatchCount(a.contacts, identifier) + MatchCount(a.leads, identifier)
  }

  /** Neither CRM has a record more than before, except for a first one; no contact is ever added
      to Salesforce. */
  predicate NoDuplicate(a: Account, b: Account, identifier: string) {
    AtMostFirst(MatchCount(a.hubspot, identifier), MatchCount(b.hubspot, identifier)) &&
    MatchCount(b.contacts, identifier) == MatchCount(a.contacts, identifier) &&
    AtMostFirst(SalesforceCount(a, identifier), SalesforceCount(b, identifier))
  }

  /** The CRM of the delivery has a record of the identifier; in Salesforce one with its flag set. */
  predicate Present(a: Account, m: Mark) {
    if m.start == HsSearch then MatchCount(a.hubspot, m.identifier) >= 1
    else SalesforceCount(a, m.identifier) >= 1 && SalesforceOptedOut(a, m.identifier)
  }

  lemma HubSpotMarkCounts(a: Account, y: string, x: string)
    ensures var b := MarkedHubSpot(a, y);
            b.contacts == a.contacts && b.leads == a.leads &&
            MatchCount(b.hubspot, x) ==
            if x == y && MatchCount(a.hubspot, x) == 0 then 1 else MatchCount(a.hubspot, x)
  {
    CountMarked(a.hubspot, MarkedHubSpot(a, y).hubspot, y, x, HsMark);
  }

  lemma SalesforceMarkCounts(a: Account, y: string, x: string)
    ensures var b := MarkedSalesforce(a, y);
            b.hubspot == a.hubspot && MatchCount(b.contacts, x) == MatchCount(a.contacts, x) &&
            SalesforceCount(b, x) == if x == y && SalesforceCount(a, x) == 0 then 1 else SalesforceCount(a, x)
  {
    CountNone(a.contacts, y);
    match FirstMatch(a.contacts, y)
    case Some(i) =>
      assert Matches(a.contacts[i], y);
      CountMarked(a.contacts, MarkedSalesforce(a, y).contacts, y, x, SfMark);
    case None =>
      CountMarked(a.leads, MarkedSalesforce(a, y).leads, y, x, SfMark);
  }

  lemma MarkKeepsSingle(a: Account, m: Mark, identifier: string)
    ensures NoDuplicate(a, ApplyMark(a, m), identifier)
  {
    HubSpotMarkCounts(a, m.identifier, identifier);
    SalesforceMarkCounts(a, m.identifier, identifier);
  }

  lemma MarkIsPresent(a: Account, m: Mark)
    ensures Present(ApplyMark(a, m), m)
  {
    HubSpotMarkCounts(a, m.identifier, m.identifier);
    SalesforceMarkCounts(a, m.identifier, m.identifier);
    if m.start != HsSearch {
      SalesforceMarkOptsOut(a, m.identifier);
    }
  }

  lemma SalesforceMarkOptsOut(a: Account, identifier: string)
    ensures SalesforceOptedOut(MarkedSalesforce(a, identifier), identifier)
  {
    var b := MarkedSalesforce(a, identifier);
    match FirstMatch(a.contacts, identifier)
    case Some(i) => assert Flagged(b.contacts[i], identifier);
    case None =>
      var i := match FirstMatch(a.leads, identifier) case Some(i) => i case None => |a.leads|;
      assert Flagged(b.leads[i], identifier);
  }

  lemma MarkGrows(a: Account, m: Mark)
    ensures D.SalesforceGrows(a, ApplyMark(a, m))
  {
  }

  lemma PresentStays(a: Account, m: Mark, other: Mark)
    requires Present(a, m)
    ensures Present(ApplyMark(a, other), m)
  {
    MarkKeepsSingle(a, other, m.identifier);
    MarkGrows(a, other);
    if m.start != HsSearch {
      D.OptedOutGrows(a, ApplyMark(a, other), m.identifier);
    }
  }

  // ---------------------------------------------------------------- whole runs

  lemma {:induction false} MarksKeepSingle(a: Account, marks: seq<Mark>, identifier: string)
    ensures NoDuplicate(a, ApplyMarks(a, marks), identifier)
  {
    if marks != [] {
      var front := marks[..|marks| - 1];
      MarksKeepSingle(a, front, identifier);
      MarkKeepsSingle(ApplyMarks(a, front), marks[|marks| - 1], identifier);
    }
  }

  lemma {:induction false} MarksArePresent(a: Account, marks: seq<Mark>, m: Mark)
    requires m in marks
    ensures Present(ApplyMarks(a, marks), m)
  {
    var front, last := marks[..|marks| - 1], marks[|marks| - 1];
    if m == last {
      MarkIsPresent(ApplyMarks(a, front), m);
    } else {
      MarksArePresent(a, front, m);
      PresentStays(ApplyMarks(a, front), m, last);
    }
  }

  /** Over any run, with ingestion, shared accounts, administration, faults and crashes: no second
      HubSpot contact, and no second Salesforce contact or lead, is made for any identifier. */
  lemma RunMakesNoDuplicate(settings: Settings, s: System, ops: seq<Op>, g: nat, identifier: string)
    requires WellFormed(s) && g < |s.accounts|
    ensures g < |Run(settings, s, ops).accounts|
    ensures NoDuplicate(s.accounts[g], Run(settings, s, ops).accounts[g], identifier)
  {
    AccountIsMarks(settings, s, ops, g);
    MarksKeepSingle(s.accounts[g], RunMarks(settings, s, ops, g), identifier);
  }

  /** A completed delivery has its record at the end of the run: exactly one if there was at most
      one before, and in Salesforce with its flag set. */
  lemma CompletedHasOneRecord(settings: Settings, s: System, ops: seq<Op>, i: nat, g: nat, m: Mark)
    requires WellFormed(s) && g < |s.accounts| && CompletedBy(settings, s, ops, i, g, m)
    ensures g < |Run(settings, s, ops).accounts|
    ensures var a, b := s.accounts[g], Run(settings, s, ops).accounts[g];
            Present(b, m) &&
            (m.start == HsSearch && MatchCount(a.hubspot, m.identifier) <= 1 ==>
               MatchCount(b.hubspot, m.identifier) == 1) &&
            (m.start != HsSearch && SalesforceCount(a, m.identifier) <= 1 ==> SalesforceCount(b, m.identifier) == 1)
  {
    AccountIsMarks(settings, s, ops, g);
    CompletedIsMarked(settings, s, ops, i, g, m);
    MarksArePresent(s.accounts[g], RunMarks(settings, s, ops, g), m);
    RunMakesNoDuplicate(settings, s, ops, g, m.identifier);
  }
}
