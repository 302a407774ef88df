/**
 When several workers give an identifier a second record: exactly when one of them creates
 although, since its search found nothing, another worker's create has taken effect. Without
 two workers at the same identifier of the same account it cannot happen.
 */
module Overtaking {
  import opened Records
  import opened Crm
  import opened Dispatcher
  import opened Machine
  import opened SingleRecord

  // ---------------------------------------------------------------- one step

  /** At most one HubSpot contact and at most one Salesforce contact or lead match. */
  predicate Single(a: Account, identifier: string) {
    MatchCount(a.hubspot, identifier) <= 1 && SalesforceCount(a, identifier) <= 1
  }

  /** A create takes effect although the account has a record of the identifier by now. */
  predicate StaleCreate(a: Account, call: Call, identifier: string, outcome: Outcome) {
    TakesEffect(outcome) &&
    ((call == HsCreate && MatchCount(a.hubspot, identifier) >= 1) ||
     (call == SfCreateLead && SalesforceCount(a, identifier) >= 1))
  }

  lemma EffectCounts(a: Account, call: Call, y: string, x: string)
    ensures var b := Effect(a, call, y);
            MatchCount(b.hubspot, x) == MatchCount(a.hubspot, x) + (if call == HsCreate && x == y then 1 else 0) &&
            SalesforceCount(b, x) == SalesforceCount(a, x) + (if call == SfCreateLead && x == y then 1 else 0) &&
            MatchCount(b.contacts, x) == MatchCount(a.contacts, x)
  {
    var b := Effect(a, call, y);
    match call
    case HsPatch(_) => CountSame(a.hubspot, b.hubspot, x);
    case HsCreate => CountNew(a.hubspot, y, x);
    case SfPatchContact(_) => CountSame(a.contacts, b.contacts, x);
    case SfPatchLead(_) => CountSame(a.leads, b.leads, x);
    case SfCreateLead => CountNew(a.leads, y, x);
    case _ =>
  }

  lemma CallSingleExactly(a: Account, call: Call, y: string, outcome: Outcome, x: string)
    requires Single(a, x)
    ensures Single(Step(a, call, y, outcome).0, x) <==> !(x == y && StaleCreate(a, call, y, outcome))
  {
    EffectCounts(a, call, y, x);
  }

  /** The step is a stale create of the identifier on account g. */
  predicate CreatesStale(w: World, e: Event, g: nat, identifier: string)
    requires Shape(w) && Enabled(w, e) && g < |w.sys.accounts|
  {
    e.Request? &&
    var f := w.workers[e.p].flight;
    f.target.value.account == g && w.sys.optOuts[f.row.optOut].identifier == identifier &&
    StaleCreate(w.sys.accounts[g], f.call, identifier, e.outcome)
  }

  lemma StepSingleExactly(settings: Settings, w: World, e: Event, g: nat, identifier: string)
    requires Shape(w) && Enabled(w, e) && g < |w.sys.accounts| && Single(w.sys.accounts[g], identifier)
    ensures g < |Next(settings, w, e).sys.accounts|
    ensures Single(Next(settings, w, e).sys.accounts[g], identifier) <==> !CreatesStale(w, e, g, identifier)
  {
    if e.Request? {
      var f := w.workers[e.p].flight;
      CallSingleExactly(w.sys.accounts[g], f.call, w.sys.optOuts[f.row.optOut].identifier, e.outcome, identifier);
    }
  }

  // ---------------------------------------------------------------- who is overtaken

  /** Worker p is dispatching the identifier to account g and has a request left to send. */
  predicate AtWork(w: World, p: nat, g: nat, identifier: string) {
    p < |w.workers| && w.workers[p].Attempting? &&
    var f := w.workers[p].flight;
    f.target.Some? && f.target.value.account == g && !f.call.Done? &&
    f.row.optOut < |w.sys.optOuts| && w.sys.optOuts[f.row.optOut].identifier == identifier
  }

  /** Worker p's searches found nothing, so that it creates next. */
  predicate Creating(w: World, p: nat, g: nat, identifier: string) {
    AtWork(w, p, g, identifier) && w.workers[p].flight.call in {HsCreate, SfCreateLead}
  }

  /** The workers about to create the record that this step creates. */
  function OvertakenBy(w: World, e: Event, g: nat, identifier: string): set<nat> {
    if e.Request? && Creating(w, e.p, g, identifier) && TakesEffect(e.outcome) then
      set p: nat | p < |w.workers| && p != e.p && Creating(w, p, g, identifier) &&
                   w.workers[p].flight.call == w.workers[e.p].flight.call
    else {}
  }

  /** The overtaken workers after the step: a worker's own request ends its being overtaken. */
  function StillOvertaken(w: World, e: Event, g: nat, identifier: string, overtaken: set<nat>): set<nat> {
    (if e.Request? then overtaken - {e.p} else overtaken) + OvertakenBy(w, e, g, identifier)
  }

  /** The step is the create of an overtaken worker, and takes effect. */
  predicate OvertakenCreate(w: World, e: Event, g: nat, identifier: string, overtaken: set<nat>) {
    e.Request? && Creating(w, e.p, g, identifier) && TakesEffect(e.outcome) && e.p in overtaken
  }

  /** What a worker's searches found still holds, except for what overtook it. */
  predicate FoundNothing(a: Account, call: Call, identifier: string, overtaken: bool) {
    (call == HsCreate ==> (overtaken <==> MatchCount(a.hubspot, identifier) >= 1)) &&
    (call == SfFindLead ==> MatchCount(a.contacts, identifier) == 0) &&
    (call == SfCreateLead ==>
       MatchCount(a.contacts, identifier) == 0 && (overtaken <==> SalesforceCount(a, identifier) >= 1))
  }

  predicate WorkerInformed(w: World, p: nat, g: nat, identifier: string, overtaken: set<nat>)
    requires g < |w.sys.accounts|
  {
    AtWork(w, p, g, identifier) ==>
      FoundNothing(w.sys.accounts[g], w.workers[p].flight.call, identifier, p in overtaken)
  }

  predicate Informed(w: World, g: nat, identifier: string, overtaken: set<nat>)
    requires g < |w.sys.accounts|
  {
    forall p: nat :: p < |w.workers| ==> WorkerInformed(w, p, g, identifier, overtaken)
  }

  // ---------------------------------------------------------------- the steps

  lemma OwnRequestInforms(a: Account, call: Call, identifier: string, outcome: Outcome, overtaken: bool)
    requires FoundNothing(a, call, identifier, overtaken)
    ensures var (b, next) := Step(a, call, identifier, outcome); FoundNothing(b, next, identifier, false)
  {
    CountNone(a.hubspot, identifier);
    CountNone(a.contacts, identifier);
    CountNone(a.leads, identifier);
  }

  /** A request for the identifier by another worker whose call is `call`. */
  lemma OtherRequestInforms(a: Account, call: Call, y: string, outcome: Outcome, mine: Call, x: string, overtaken: bool)
    requires FoundNothing(a, mine, x, overtaken)
    ensures FoundNothing(Step(a, call, y, outcome).0, mine, x,
                         overtaken ||
                         (x == y && TakesEffect(outcome) && call == mine && call in {HsCreate, SfCreateLead}))
  {
    EffectCounts(a, call, y, x);
  }

  lemma RequestKeepsInformed(w: World, q: nat, outcome: Outcome, p: nat, g: nat, identifier: string,
                             overtaken: set<nat>)
    requires Shape(w) && Enabled(w, Request(q, outcome)) && g < |w.sys.accounts| && p < |w.workers|
    requires WorkerInformed(w, p, g, identifier, overtaken)
    ensures WorkerInformed(RequestStep(w, q, outcome), p, g, identifier,
                           StillOvertaken(w, Request(q, outcome), g, identifier, overtaken))
  {
    var f := w.workers[q].flight;
    var h, y := f.target.value.account, w.sys.optOuts[f.row.optOut].identifier;
    if AtWork(w, p, g, identifier) && h == g {
      if p == q {
        OwnRequestInforms(w.sys.accounts[g], f.call, identifier, outcome, p in overtaken);
      } else {
        OtherRequestInforms(w.sys.accounts[g], f.call, y, outcome, w.workers[p].flight.call, identifier,
                            p in overtaken);
      }
    }
  }

  /** A dispatch begins with a search or with a request that no search precedes. */
  lemma LoadInforms(settings: Settings, w: World, q: nat, g: nat, identifier: string, overtaken: set<nat>)
    requires Shape(w) && Enabled(w, Load(q)) && g < |w.sys.accounts|
    ensures WorkerInformed(LoadStep(settings, w, q), q, g, identifier, overtaken)
  {
  }

  lemma NextKeepsInformed(settings: Settings, w: World, e: Event, p: nat, g: nat, identifier: string,
                          overtaken: set<nat>)
    requires Shape(w) && Enabled(w, e) && g < |w.sys.accounts| && p < |w.workers|
    requires WorkerInformed(w, p, g, identifier, overtaken)
    ensures var r := Next(settings, w, e);
            g < |r.sys.accounts| && WorkerInformed(r, p, g, identifier, StillOvertaken(w, e, g, identifier, overtaken))
  {
    match e
    case Request(q, outcome) => RequestKeepsInformed(w, q, outcome, p, g, identifier, overtaken);
    case Load(q) =>
      if p == q {
        LoadInforms(settings, w, q, g, identifier, overtaken);
      }
    case _ => OtherStepsInform(settings, w, e, p, g, identifier);
  }

  /** No other step sends anybody to work, or changes an account or an identifier. */
  lemma OtherStepsInform(settings: Settings, w: World, e: Event, p: nat, g: nat, identifier: string)
    requires Shape(w) && Enabled(w, e) && !e.Request? && !e.Load? && p < |w.workers| && g < |w.sys.accounts|
    ensures var r := Next(settings, w, e);
            r.sys.accounts == w.sys.accounts && p < |r.workers| &&
            (AtWork(r, p, g, identifier) ==> AtWork(w, p, g, identifier) && r.workers[p] == w.workers[p])
  {
    OtherStepsKeepIdentifiers(settings, w, e);
    OtherStepsStartNothing(settings, w, e, p);
    if w.workers[p].Attempting? {
      assert WorkerShape(w.sys, w.workers[p]);
    }
  }

  lemma OtherStepsKeepIdentifiers(settings: Settings, w: World, e: Event)
    requires Shape(w) && Enabled(w, e) && !e.Request?
    ensures var r := Next(settings, w, e);
            r.sys.accounts == w.sys.accounts && |w.sys.optOuts| <= |r.sys.optOuts| &&
            forall o :: 0 <= o < |w.sys.optOuts| ==> r.sys.optOuts[o] == w.sys.optOuts[o]
  {
  }

  lemma OtherStepsStartNothing(settings: Settings, w: World, e: Event, p: nat)
    requires Shape(w) && Enabled(w, e) && !e.Request? && !e.Load? && p < |w.workers|
    ensures var r := Next(settings, w, e);
            p < |r.workers| && (r.workers[p].Attempting? ==> r.workers[p] == w.workers[p])
  {
  }

  lemma NextKeepsAllInformed(settings: Settings, w: World, e: Event, g: nat, identifier: string, overtaken: set<nat>)
    requires Shape(w) && Enabled(w, e) && g < |w.sys.accounts| && Informed(w, g, identifier, overtaken)
    ensures var r := Next(settings, w, e);
            g < |r.sys.accounts| && Informed(r, g, identifier, StillOvertaken(w, e, g, identifier, overtaken))
  {
    NextKeepsSystem(settings, w, e);
    var r := Next(settings, w, e);
    forall p: nat | p < |r.workers|
      ensures WorkerInformed(r, p, g, identifier, StillOvertaken(w, e, g, identifier, overtaken))
    {
      assert WorkerInformed(w, p, g, identifier, overtaken);
      NextKeepsInformed(settings, w, e, p, g, identifier, overtaken);
    }
  }

  /** From a single record, a step makes a second one if and only if it is an overtaken worker's create. */
  lemma StepOvertakenExactly(settings: Settings, w: World, e: Event, g: nat, identifier: string, overtaken: set<nat>)
    requires Shape(w) && Enabled(w, e) && g < |w.sys.accounts|
    requires Single(w.sys.accounts[g], identifier) && Informed(w, g, identifier, overtaken)
    ensures g < |Next(settings, w, e).sys.accounts|
    ensures Single(Next(settings, w, e).sys.accounts[g], identifier) <==>
            !OvertakenCreate(w, e, g, identifier, overtaken)
  {
    StepSingleExactly(settings, w, e, g, identifier);
    if e.Request? {
      assert WorkerInformed(w, e.p, g, identifier, overtaken);
    }
  }

  // ---------------------------------------------------------------- whole runs

  predicate SingleThroughout(settings: Settings, w: World, es: seq<Event>, g: nat, identifier: string)
    requires Shape(w) && Valid(settings, w, es)
    decreases |es|
  {
    g < |w.sys.accounts| && Single(w.sys.accounts[g], identifier) &&
    (es == [] ||
     (NextKeepsShape(settings, w, es[0]);
      SingleThroughout(settings, Next(settings, w, es[0]), es[1..], g, identifier)))
  }

  /** No create of a worker takes effect that another worker has overtaken since its search. */
  predicate NeverOvertaken(settings: Settings, w: World, es: seq<Event>, g: nat, identifier: string,
                           overtaken: set<nat>)
    requires Shape(w) && Valid(settings, w, es)
    decreases |es|
  {
    es == [] ||
    (!OvertakenCreate(w, es[0], g, identifier, overtaken) &&
     (NextKeepsShape(settings, w, es[0]);
      NeverOvertaken(settings, Next(settings, w, es[0]), es[1..], g, identifier,
                     StillOvertaken(w, es[0], g, identifier, overtaken))))
  }

  lemma {:induction false} InformedRunSingleExactly(settings: Settings, w: World, es: seq<Event>, g: nat,
                                                    identifier: string, overtaken: set<nat>)
    requires Shape(w) && Valid(settings, w, es)
    requires g < |w.sys.accounts| && Single(w.sys.accounts[g], identifier) && Informed(w, g, identifier, overtaken)
    ensures SingleThroughout(settings, w, es, g, identifier) <==>
            NeverOvertaken(settings, w, es, g, identifier, overtaken)
    decreases |es|
  {
    if es != [] {
      NextKeepsShape(settings, w, es[0]);
      StepOvertakenExactly(settings, w, es[0], g, identifier, overtaken);
      NextKeepsAllInformed(settings, w, es[0], g, identifier, overtaken);
      if !OvertakenCreate(w, es[0], g, identifier, overtaken) {
        InformedRunSingleExactly(settings, Next(settings, w, es[0]), es[1..], g, identifier,
                                 StillOvertaken(w, es[0], g, identifier, overtaken));
      }
    }
  }

  /** No attempt is under way. */
  predicate NoneAttempting(w: World) {
    forall p :: 0 <= p < |w.workers| ==> !w.workers[p].Attempting?
  }

  /** Over any run of any number of workers, an identifier keeps at most one HubSpot contact and one
      Salesforce record if and only if no create takes effect that was overtaken: another worker's
      create of the same record took effect after the search that found nothing. */
  lemma RunSingleExactly(settings: Settings, w: World, es: seq<Event>, g: nat, identifier: string)
    requires Shape(w) && NoneAttempting(w) && Valid(settings, w, es)
    requires g < |w.sys.accounts| && Single(w.sys.accounts[g], identifier)
    ensures SingleThroughout(settings, w, es, g, identifier) <==>
            NeverOvertaken(settings, w, es, g, identifier, {})
  {
    InformedRunSingleExactly(settings, w, es, g, identifier, {});
  }

  // ---------------------------------------------------------------- without contention

  /** The request is not sent while another worker is at the same identifier of the same account. */
  predicate Uncontended(w: World, e: Event, g: nat, identifier: string) {
    e.Request? && AtWork(w, e.p, g, identifier) ==>
      forall q: nat :: q < |w.workers| && q != e.p ==> !AtWork(w, q, g, identifier)
  }

  predicate NeverContended(settings: Settings, w: World, es: seq<Event>, g: nat, identifier: string)
    requires Shape(w) && Valid(settings, w, es)
    decreases |es|
  {
    es == [] ||
    (Uncontended(w, es[0], g, identifier) &&
     (NextKeepsShape(settings, w, es[0]);
      NeverContended(settings, Next(settings, w, es[0]), es[1..], g, identifier)))
  }

  lemma {:induction false} UncontendedIsNeverOvertaken(settings: Settings, w: World, es: seq<Event>, g: nat,
                                                       identifier: string)
    requires Shape(w) && Valid(settings, w, es) && NeverContended(settings, w, es, g, identifier)
    ensures NeverOvertaken(settings, w, es, g, identifier, {})
    decreases |es|
  {
    if es != [] {
      NextKeepsShape(settings, w, es[0]);
      UncontendedOvertakesNobody(w, es[0], g, identifier);
      UncontendedIsNeverOvertaken(settings, Next(settings, w, es[0]), es[1..], g, identifier);
    }
  }

  lemma UncontendedOvertakesNobody(w: World, e: Event, g: nat, identifier: string)
    requires Uncontended(w, e, g, identifier)
    ensures StillOvertaken(w, e, g, identifier, {}) == {}
  {
  }

  /** If no request for an identifier is sent while another worker is at the same identifier of the same
      account, the identifier keeps at most one record, with any number of workers. */
  lemma UncontendedKeepsSingle(settings: Settings, w: World, es: seq<Event>, g: nat, identifier: string)
    requires Shape(w) && NoneAttempting(w) && Valid(settings, w, es)
    requires g < |w.sys.accounts| && Single(w.sys.accounts[g], identifier)
    requires NeverContended(settings, w, es, g, identifier)
    ensures SingleThroughout(settings, w, es, g, identifier)
  {
    UncontendedIsNeverOvertaken(settings, w, es, g, identifier);
    RunSingleExactly(settings, w, es, g, identifier);
  }
}
