/**
 Whole-run safety of deliveries: a task completed through a real Salesforce integration has a
 flagged record in the account, and one completed through a real HubSpot integration has a
 contact there, in every interleaving, for ever.
 */
module Delivery {
  import opened Basics
  import opened Records
  import opened Crm
  import opened Dispatcher
  import opened Queue
  import opened Machine

  // ---------------------------------------------------------------- one account

  /** Records stay, keep their identifiers, and lose no flag. */
  predicate TableGrows(rs: seq<Record>, after: seq<Record>) {
    |rs| <= |after| &&
    forall i :: 0 <= i < |rs| ==>
      after[i].email == rs[i].email && after[i].phone == rs[i].phone &&
      (rs[i].noEmail ==> after[i].noEmail) && (rs[i].noCall ==> after[i].noCall)
  }

  predicate SalesforceGrows(a: Account, b: Account) {
    TableGrows(a.contacts, b.contacts) && TableGrows(a.leads, b.leads)
  }

  /** HubSpot contacts stay and keep their identifiers, though not their flags. */
  predicate ContactsKept(rs: seq<Record>, after: seq<Record>) {
    |rs| <= |after| &&
    forall i :: 0 <= i < |rs| ==> after[i].email == rs[i].email && after[i].phone == rs[i].phone
  }

  predicate AccountGrows(a: Account, b: Account) {
    SalesforceGrows(a, b) && ContactsKept(a.hubspot, b.hubspot)
  }

  lemma StepGrows(a: Account, call: Call, identifier: string, outcome: Outcome)
    ensures AccountGrows(a, Step(a, call, identifier, outcome).0)
  {
  }

  predicate HasContact(a: Account, identifier: string) {
    exists i :: 0 <= i < |a.hubspot| && Matches(a.hubspot[i], identifier)
  }

  lemma ContactStays(a: Account, b: Account, identifier: string)
    requires ContactsKept(a.hubspot, b.hubspot) && HasContact(a, identifier)
    ensures HasContact(b, identifier)
  {
    var i :| 0 <= i < |a.hubspot| && Matches(a.hubspot[i], identifier);
    assert Matches(b.hubspot[i], identifier);
  }

  lemma FlaggedGrows(rs: seq<Record>, after: seq<Record>, identifier: string, i: nat)
    requires TableGrows(rs, after) && i < |rs| && Flagged(rs[i], identifier)
    ensures Flagged(after[i], identifier)
  {
  }

  lemma OptedOutGrows(a: Account, b: Account, identifier: string)
    requires SalesforceGrows(a, b) && SalesforceOptedOut(a, identifier)
    ensures SalesforceOptedOut(b, identifier)
  {
    if i :| 0 <= i < |a.contacts| && Flagged(a.contacts[i], identifier) {
      FlaggedGrows(a.contacts, b.contacts, identifier, i);
    } else {
      var i :| 0 <= i < |a.leads| && Flagged(a.leads[i], identifier);
      FlaggedGrows(a.leads, b.leads, identifier, i);
    }
  }

  /** What a completed dispatch to a CRM of the kind leaves in the account. */
  predicate HasRecord(a: Account, kind: Kind, identifier: string) {
    if kind == Salesforce then SalesforceOptedOut(a, identifier) else HasContact(a, identifier)
  }

  lemma RecordStays(a: Account, b: Account, kind: Kind, identifier: string)
    requires AccountGrows(a, b) && HasRecord(a, kind, identifier)
    ensures HasRecord(b, kind, identifier)
  {
    if kind == Salesforce {
      OptedOutGrows(a, b, identifier);
    } else {
      ContactStays(a, b, identifier);
    }
  }

  /** A dispatch in progress: a patch names a matching record, and success is reported only once the
      account has its record. */
  predicate OnTrack(a: Account, kind: Kind, call: Call, identifier: string) {
    match call
    case HsSearch => kind != Salesforce
    case HsPatch(i) => kind != Salesforce && i < |a.hubspot| && Matches(a.hubspot[i], identifier)
    case HsCreate => kind != Salesforce
    case SfFindContact => kind == Salesforce
    case SfPatchContact(i) => kind == Salesforce && i < |a.contacts| && Matches(a.contacts[i], identifier)
    case SfFindLead => kind == Salesforce
    case SfPatchLead(i) => kind == Salesforce && i < |a.leads| && Matches(a.leads[i], identifier)
    case SfCreateLead => kind == Salesforce
    case Post => false
    case Done(reply) => reply.Success? ==> HasRecord(a, kind, identifier)
  }

  lemma DeliveredCallLeavesRecord(a: Account, kind: Kind, call: Call, identifier: string)
    requires OnTrack(a, kind, call, identifier) && !call.Done? && Continue(a, call, identifier) == Done(Success)
    ensures HasRecord(Effect(a, call, identifier), kind, identifier)
  {
    var b := Effect(a, call, identifier);
    match call
    case HsPatch(i) => assert Matches(b.hubspot[i], identifier);
    case HsCreate => assert Matches(b.hubspot[|a.hubspot|], identifier);
    case SfPatchContact(i) => assert Flagged(b.contacts[i], identifier);
    case SfPatchLead(i) => assert Flagged(b.leads[i], identifier);
    case SfCreateLead => assert Flagged(b.leads[|a.leads|], identifier);
  }

  lemma StepOnTrack(a: Account, kind: Kind, call: Call, identifier: string, outcome: Outcome)
    requires OnTrack(a, kind, call, identifier) && !call.Done?
    ensures var (b, next) := Step(a, call, identifier, outcome); OnTrack(b, kind, next, identifier)
  {
    if outcome.Delivered? && Continue(a, call, identifier) == Done(Success) {
      DeliveredCallLeavesRecord(a, kind, call, identifier);
    }
  }

  lemma OnTrackGrows(a: Account, b: Account, kind: Kind, call: Call, identifier: string)
    requires OnTrack(a, kind, call, identifier) && AccountGrows(a, b)
    ensures OnTrack(b, kind, call, identifier)
  {
    if call == Done(Success) {
      RecordStays(a, b, kind, identifier);
    }
  }

  // ---------------------------------------------------------------- the whole system

  predicate AccountsGrow(s: System, r: System) {
    |s.accounts| == |r.accounts| &&
    forall g :: 0 <= g < |s.accounts| ==> AccountGrows(s.accounts[g], r.accounts[g])
  }

  /** Rows keep their keys, and opt-outs their identifiers. */
  predicate KeysKept(s: System, r: System) {
    |s.tasks| <= |r.tasks| && |s.optOuts| <= |r.optOuts| &&
    (forall i :: 0 <= i < |s.tasks| ==>
       r.tasks[i].optOut == s.tasks[i].optOut && r.tasks[i].integration == s.tasks[i].integration) &&
    (forall o :: 0 <= o < |s.optOuts| ==> r.optOuts[o] == s.optOuts[o])
  }

  lemma NextGrows(settings: Settings, w: World, e: Event)
    requires Shape(w) && Enabled(w, e)
    ensures AccountsGrow(w.sys, Next(settings, w, e).sys)
  {
    if e.Request? {
      RequestGrows(w, e.p, e.outcome);
    }
  }

  lemma RequestGrows(w: World, p: nat, outcome: Outcome)
    requires Shape(w) && Enabled(w, Request(p, outcome))
    ensures AccountsGrow(w.sys, RequestStep(w, p, outcome).sys)
  {
    var f := w.workers[p].flight;
    StepGrows(w.sys.accounts[f.target.value.account], f.call, w.sys.optOuts[f.row.optOut].identifier, outcome);
  }

  lemma NextKeepsKeys(settings: Settings, w: World, e: Event)
    requires Shape(w) && Enabled(w, e)
    ensures KeysKept(w.sys, Next(settings, w, e).sys)
  {
  }

  /** The integration is a real one of a CRM with visible records. */
  ghost predicate RealCrm(settings: Settings, target: Option<Integration>) {
    target.Some? && (RealSalesforce(settings, target.value) || RealHubSpot(settings, target.value))
  }

  ghost predicate Served(settings: Settings, s: System, target: Option<Integration>, optOut: nat) {
    RealCrm(settings, target) ==>
      optOut < |s.optOuts| && target.value.account < |s.accounts| &&
      HasRecord(s.accounts[target.value.account], target.value.kind, s.optOuts[optOut].identifier)
  }

  lemma DeliveredGrows(settings: Settings, s: System, r: System, target: Option<Integration>, optOut: nat)
    requires AccountsGrow(s, r) && KeysKept(s, r) && Served(settings, s, target, optOut)
    ensures Served(settings, r, target, optOut)
  {
    if RealCrm(settings, target) {
      var g := target.value.account;
      RecordStays(s.accounts[g], r.accounts[g], target.value.kind, s.optOuts[optOut].identifier);
    }
  }

  ghost predicate FlightSafe(settings: Settings, s: System, wk: Worker) {
    wk.Attempting? ==>
      wk.batch != [] && wk.batch[0] < |s.tasks| && FlightShape(s, wk.flight) &&
      wk.flight.row.optOut == s.tasks[wk.batch[0]].optOut &&
      (RealCrm(settings, wk.flight.target) ==>
         OnTrack(s.accounts[wk.flight.target.value.account], wk.flight.target.value.kind, wk.flight.call,
                 s.optOuts[wk.flight.row.optOut].identifier))
  }

  lemma FlightSafeGrows(settings: Settings, s: System, r: System, wk: Worker)
    requires AccountsGrow(s, r) && KeysKept(s, r) && FlightSafe(settings, s, wk)
    ensures FlightSafe(settings, r, wk)
  {
    if wk.Attempting? && RealCrm(settings, wk.flight.target) {
      var g := wk.flight.target.value;
      OnTrackGrows(s.accounts[g.account], r.accounts[g.account], g.kind, wk.flight.call,
                   s.optOuts[wk.flight.row.optOut].identifier);
    }
  }

  /** A COMPLETED task has a known completing attempt, and what that attempt owed is delivered. */
  ghost predicate CompletionSafe(settings: Settings, w: World, i: nat) {
    i < |w.sys.tasks| &&
    (w.sys.tasks[i].status == Completed ==> i in w.hist.completedBy) &&
    (i in w.hist.completedBy ==> Served(settings, w.sys, w.hist.completedBy[i], w.sys.tasks[i].optOut))
  }

  predicate CompletionsKnown(w: World) {
    forall i :: i in w.hist.completedBy ==> i < |w.sys.tasks|
  }

  ghost predicate Safe(settings: Settings, w: World) {
    CompletionsKnown(w) &&
    (forall p :: 0 <= p < |w.workers| ==> FlightSafe(settings, w.sys, w.workers[p])) &&
    (forall i :: 0 <= i < |w.sys.tasks| ==> CompletionSafe(settings, w, i))
  }

  lemma LoadFlightSafe(settings: Settings, w: World, p: nat)
    requires Shape(w) && Enabled(w, Load(p))
    ensures FlightSafe(settings, w.sys, LoadStep(settings, w, p).workers[p])
  {
    var target := TargetOf(w.sys, w.sys.tasks[w.workers[p].batch[0]]);
    SalesforceProtocolExactly(settings, target);
    HubSpotProtocolExactly(settings, target);
  }

  lemma RequestFlightSafe(settings: Settings, w: World, p: nat, outcome: Outcome)
    requires Shape(w) && Enabled(w, Request(p, outcome)) && FlightSafe(settings, w.sys, w.workers[p])
    ensures var r := RequestStep(w, p, outcome); FlightSafe(settings, r.sys, r.workers[p])
  {
    var f := w.workers[p].flight;
    if RealCrm(settings, f.target) {
      StepOnTrack(w.sys.accounts[f.target.value.account], f.target.value.kind, f.call,
                  w.sys.optOuts[f.row.optOut].identifier, outcome);
    }
  }

  lemma NextKeepsFlightSafe(settings: Settings, w: World, e: Event, p: nat)
    requires Shape(w) && Enabled(w, e) && p < |w.workers| && FlightSafe(settings, w.sys, w.workers[p])
    ensures var r := Next(settings, w, e); p < |r.workers| && FlightSafe(settings, r.sys, r.workers[p])
  {
    if Moves(e, p) {
      match e
      case Load(_) => LoadFlightSafe(settings, w, p);
      case Request(_, outcome) => RequestFlightSafe(settings, w, p, outcome);
      case _ =>
    } else {
      NextKeepsWorkerShape(settings, w, e, p);
      NextGrows(settings, w, e);
      NextKeepsKeys(settings, w, e);
      FlightSafeGrows(settings, w.sys, Next(settings, w, e).sys, w.workers[p]);
    }
  }

  lemma CommitCompletionSafe(settings: Settings, w: World, p: nat, i: nat)
    requires Shape(w) && Enabled(w, CommitAttempt(p)) && i < |w.sys.tasks|
    requires FlightSafe(settings, w.sys, w.workers[p]) && CompletionSafe(settings, w, i)
    ensures CompletionSafe(settings, CommitStep(settings, w, p), i)
  {
    var r := CommitStep(settings, w, p);
    assert r.sys.accounts == w.sys.accounts && r.sys.optOuts == w.sys.optOuts;
    assert r.sys.tasks[i].optOut == w.sys.tasks[i].optOut;
  }

  lemma NextKeepsCompletionSafe(settings: Settings, w: World, e: Event, i: nat)
    requires Shape(w) && Enabled(w, e) && Safe(settings, w) && i < |Next(settings, w, e).sys.tasks|
    ensures CompletionSafe(settings, Next(settings, w, e), i)
  {
    if i < |w.sys.tasks| {
      assert CompletionSafe(settings, w, i);
      if e.CommitAttempt? {
        CommitCompletionSafe(settings, w, e.p, i);
      } else {
        NextGrows(settings, w, e);
        NextKeepsKeys(settings, w, e);
        if i in w.hist.completedBy {
          DeliveredGrows(settings, w.sys, Next(settings, w, e).sys, w.hist.completedBy[i], w.sys.tasks[i].optOut);
        }
      }
    }
  }

  lemma NextKeepsCompletionsKnown(settings: Settings, w: World, e: Event)
    requires Shape(w) && Enabled(w, e) && CompletionsKnown(w)
    ensures CompletionsKnown(Next(settings, w, e))
  {
  }

  lemma NextKeepsSafe(settings: Settings, w: World, e: Event)
    requires Shape(w) && Enabled(w, e) && Safe(settings, w)
    ensures Safe(settings, Next(settings, w, e))
  {
    var r := Next(settings, w, e);
    NextKeepsCompletionsKnown(settings, w, e);
    NextKeepsSystem(settings, w, e);
    forall p | 0 <= p < |r.workers| ensures FlightSafe(settings, r.sys, r.workers[p]) {
      NextKeepsFlightSafe(settings, w, e, p);
    }
    forall i | 0 <= i < |r.sys.tasks| ensures CompletionSafe(settings, r, i) {
      NextKeepsCompletionSafe(settings, w, e, i);
    }
  }

  lemma {:induction false} RunKeepsSafe(settings: Settings, w: World, es: seq<Event>)
    requires Shape(w) && Safe(settings, w) && Valid(settings, w, es)
    ensures Safe(settings, After(settings, w, es))
    decreases |es|
  {
    if es != [] {
      NextKeepsShape(settings, w, es[0]);
      NextKeepsSafe(settings, w, es[0]);
      RunKeepsSafe(settings, Next(settings, w, es[0]), es[1..]);
    }
  }

  /** A world in which runs start: no attempt under way and nothing completed. */
  ghost predicate Fresh(w: World) {
    Shape(w) && w.hist.completedBy == map[] &&
    (forall p :: 0 <= p < |w.workers| ==> !w.workers[p].Attempting?) &&
    (forall i :: 0 <= i < |w.sys.tasks| ==> w.sys.tasks[i].status != Completed)
  }

  /** In every reachable world, whatever the interleaving, the faults and the crashes: a task that
      is COMPLETED was completed by an attempt whose target, if it was a real and active
      Salesforce integration, has a contact or lead with the task's identifier and its flag set. */
  lemma SalesforceSafety(settings: Settings, w: World, es: seq<Event>, i: nat)
    requires Fresh(w) && Valid(settings, w, es)
    requires var r := After(settings, w, es); i < |r.sys.tasks| && r.sys.tasks[i].status == Completed
    ensures var r := After(settings, w, es);
            i in r.hist.completedBy &&
            var target := r.hist.completedBy[i];
            target.Some? && RealSalesforce(settings, target.value) ==>
              target.value.account < |r.sys.accounts| && r.sys.tasks[i].optOut < |r.sys.optOuts| &&
              SalesforceOptedOut(r.sys.accounts[target.value.account],
                                 r.sys.optOuts[r.sys.tasks[i].optOut].identifier)
  {
    RunKeepsSafe(settings, w, es);
    assert CompletionSafe(settings, After(settings, w, es), i);
  }

  /** The same for HubSpot: the task's identifier has a contact. Its flag may since have been cleared
      by an opt-out of the other kind. */
  lemma HubSpotSafety(settings: Settings, w: World, es: seq<Event>, i: nat)
    requires Fresh(w) && Valid(settings, w, es)
    requires var r := After(settings, w, es); i < |r.sys.tasks| && r.sys.tasks[i].status == Completed
    ensures var r := After(settings, w, es);
            i in r.hist.completedBy &&
            var target := r.hist.completedBy[i];
            target.Some? && RealHubSpot(settings, target.value) ==>
              target.value.account < |r.sys.accounts| && r.sys.tasks[i].optOut < |r.sys.optOuts| &&
              HasContact(r.sys.accounts[target.value.account], r.sys.optOuts[r.sys.tasks[i].optOut].identifier)
  {
    RunKeepsSafe(settings, w, es);
    assert CompletionSafe(settings, After(settings, w, es), i);
  }

  /** No later step clears a Salesforce flag or removes a record of either CRM: record by record, the
      Salesforce tables only gain, and HubSpot contacts keep their identifiers. */
  lemma {:induction false} RecordsForever(settings: Settings, w: World, es: seq<Event>, g: nat)
    requires Shape(w) && Valid(settings, w, es) && g < |w.sys.accounts|
    ensures g < |After(settings, w, es).sys.accounts|
    ensures AccountGrows(w.sys.accounts[g], After(settings, w, es).sys.accounts[g])
    decreases |es|
  {
    if es != [] {
      var r := Next(settings, w, es[0]);
      NextKeepsShape(settings, w, es[0]);
      NextGrows(settings, w, es[0]);
      RecordsForever(settings, r, es[1..], g);
      GrowsTransitive(w.sys.accounts[g], r.sys.accounts[g], After(settings, w, es).sys.accounts[g]);
    }
  }

  lemma GrowsTransitive(a: Account, b: Account, c: Account)
    requires AccountGrows(a, b) && AccountGrows(b, c)
    ensures AccountGrows(a, c)
  {
  }
}
