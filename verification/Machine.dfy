/**
 The service as a transition system: any number of workers, each in its own process, whose
 selects, claims, requests and commits interleave with each other, with ingestion, with the
 administration of integrations and with crashes.
 */
module Machine {
  import opened Basics
  import opened Records
  import opened Crm
  import opened Dispatcher
  import opened Normalizer
  import opened Queue
  import opened Registry

  /** An attempt under way: the row and the integration as its transaction read them, and the
      next request or the result. */
  datatype Flight = Flight(row: Task, target: Option<Integration>, call: Call)

  datatype Worker =
    | Idle
    | Selected(batch: seq<nat>)                   // rows read, PROCESSING not yet committed
    | Running(batch: seq<nat>)                    // rows still to be attempted
    | Attempting(batch: seq<nat>, flight: Flight) // the first of them is under way

  datatype HubSpotWrite = HubSpotWrite(account: nat, contact: nat, email: bool)

  /** What happened so far; no transition depends on it. */
  datatype History = History(
    owner: map<nat, nat>,                        // per task, the last worker that selected it
    start: seq<nat>,                             // per task, the retry count it was staged with
    firstFailure: map<nat, int>,                 // per task, when its first failure was recorded
    completedBy: map<nat, Option<Integration>>,  // per task, the target of its last successful attempt
    fanOut: map<nat, seq<nat>>,                  // per ingested opt-out, the integrations active then
    requests: seq<nat>,                          // the task of every request sent
    hubSpotWrites: seq<HubSpotWrite>             // the HubSpot writes that took effect
  )

  datatype World = World(now: int, sys: System, workers: seq<Worker>, hist: History)

  datatype Event =
    | Ingesting(raw: string, channel: string)
    | Registering(integration: Integration)
    | Toggling(id: nat, active: bool)
    | Deleting(id: nat)
    | Tick(elapsed: nat)
    | Select(p: nat)
    | CommitClaim(p: nat)
    | Load(p: nat)
    | Request(p: nat, outcome: Outcome)
    | CommitAttempt(p: nat)
    | Abandon(p: nat)                            // a crash, or an exception that ends the cycle

  function Batch(wk: Worker): seq<nat> {
    match wk
    case Idle => []
    case Selected(b) => b
    case Running(b) => b
    case Attempting(b, _) => b
  }

  predicate FlightShape(s: System, f: Flight) {
    f.row.optOut < |s.optOuts| &&
    (f.target.Some? ==> f.target.value.account < |s.accounts|) &&
    (f.call.Done? || f.target.Some?)
  }

  predicate WorkerShape(s: System, wk: Worker) {
    Within(Batch(wk), |s.tasks|) &&
    (wk.Idle? || wk.batch != []) &&
    (wk.Attempting? ==> FlightShape(s, wk.flight))
  }

  predicate Shape(w: World) {
    WellFormed(w.sys) && |w.hist.start| == |w.sys.tasks| &&
    forall p :: 0 <= p < |w.workers| ==> WorkerShape(w.sys, w.workers[p])
  }

  predicate Enabled(w: World, e: Event) {
    match e
    case Ingesting(raw, _) => Canonicalize(raw).Some?
    case Registering(g) => g.account < |w.sys.accounts|
    case Toggling(id, _) => id in w.sys.integrations
    case Deleting(id) => id in w.sys.integrations
    case Tick(_) => true
    case Select(p) => p < |w.workers| && w.workers[p].Idle?
    case CommitClaim(p) => p < |w.workers| && w.workers[p].Selected?
    case Load(p) => p < |w.workers| && w.workers[p].Running?
    case Request(p, _) => p < |w.workers| && w.workers[p].Attempting? && !w.workers[p].flight.call.Done?
    case CommitAttempt(p) => p < |w.workers| && w.workers[p].Attempting? && w.workers[p].flight.call.Done?
    case Abandon(p) => p < |w.workers| && !w.workers[p].Idle?
  }

  /** The worker with the given rows left to attempt. */
  function WithLeft(batch: seq<nat>): Worker {
    if batch == [] then Idle else Running(batch)
  }

  function IngestStep(w: World, raw: string, channel: string): World
    requires Shape(w)
  {
    var ids := ActiveIds(w.sys.integrations, w.sys.nextIntegration);
    w.(sys := Ingest(w.sys, raw, channel, w.now),
       hist := w.hist.(start := w.hist.start + seq(|ids|, _ => 0),
                       fanOut := w.hist.fanOut[|w.sys.optOuts| := ids]))
  }

  function SelectStep(w: World, p: nat): World
    requires p < |w.workers|
  {
    var batch := EligibleIds(w.sys.tasks, w.now);
    w.(workers := w.workers[p := if batch == [] then Idle else Selected(batch)],
       hist := w.hist.(owner := w.hist.owner + map id | id in batch :: p))
  }

  /** The update by id: only the status column is written. */
  function ClaimStep(w: World, p: nat): World
    requires p < |w.workers|
  {
    var batch := Batch(w.workers[p]);
    w.(sys := w.sys.(tasks := Claim(w.sys.tasks, batch)), workers := w.workers[p := WithLeft(batch)])
  }

  function LoadStep(settings: Settings, w: World, p: nat): World
    requires Shape(w) && p < |w.workers| && w.workers[p].Running?
  {
    var batch := w.workers[p].batch;
    var row := w.sys.tasks[batch[0]];
    var target := TargetOf(w.sys, row);
    w.(workers := w.workers[p := Attempting(batch, Flight(row, target, FirstCall(settings, target)))])
  }

  /** The HubSpot contact a call writes. */
  function WrittenContact(a: Account, call: Call): Option<nat> {
    match call
    case HsPatch(i) => if i < |a.hubspot| then Some(i) else None
    case HsCreate => Some(|a.hubspot|)
    case _ => None
  }

  function LogWrite(account: nat, a: Account, call: Call, identifier: string, outcome: Outcome): seq<HubSpotWrite> {
    if TakesEffect(outcome) && WrittenContact(a, call).Some?
    then [HubSpotWrite(account, WrittenContact(a, call).value, IsEmail(identifier))]
    else []
  }

  function RequestStep(w: World, p: nat, outcome: Outcome): World
    requires Shape(w) && Enabled(w, Request(p, outcome))
  {
    var batch, f := w.workers[p].batch, w.workers[p].flight;
    var g := f.target.value.account;
    var identifier := w.sys.optOuts[f.row.optOut].identifier;
    var (a, next) := Step(w.sys.accounts[g], f.call, identifier, outcome);
    w.(sys := w.sys.(accounts := w.sys.accounts[g := a]),
       workers := w.workers[p := Attempting(batch, f.(call := next))],
       hist := w.hist.(requests := w.hist.requests + [batch[0]],
                       hubSpotWrites := w.hist.hubSpotWrites +
                                        LogWrite(g, w.sys.accounts[g], f.call, identifier, outcome)))
  }

  /** The update an ORM sends: a column is written only if it differs from the value read. */
  function Merge(current: Task, read: Task, updated: Task): Task {
    current.(
      status := if updated.status != read.status then updated.status else current.status,
      retryCount := if updated.retryCount != read.retryCount then updated.retryCount else current.retryCount,
      lastError := if updated.lastError != read.lastError then updated.lastError else current.lastError,
      nextRetryAt := if updated.nextRetryAt != read.nextRetryAt then updated.nextRetryAt else current.nextRetryAt)
  }

  function CommitStep(settings: Settings, w: World, p: nat): World
    requires Shape(w) && Enabled(w, CommitAttempt(p))
  {
    var batch, f := w.workers[p].batch, w.workers[p].flight;
    var id, reply := batch[0], f.call.reply;
    var updated := Settle(f.row, reply, w.now, settings.backoffFactor);
    w.(sys := w.sys.(tasks := w.sys.tasks[id := Merge(w.sys.tasks[id], f.row, updated)],
                     failedSyncs := w.sys.failedSyncs + Failures(id, f.row, reply)),
       workers := w.workers[p := WithLeft(batch[1..])],
       hist := w.hist.(
         firstFailure := if reply.Failure? && id !in w.hist.firstFailure then w.hist.firstFailure[id := w.now]
                         else w.hist.firstFailure,
         completedBy := if reply.Success? then w.hist.completedBy[id := f.target] else w.hist.completedBy))
  }

  function Next(settings: Settings, w: World, e: Event): World
    requires Shape(w) && Enabled(w, e)
  {
    match e
    case Ingesting(raw, channel) => IngestStep(w, raw, channel)
    case Registering(g) => w.(sys := Register(w.sys, g))
    case Toggling(id, active) => w.(sys := Toggle(w.sys, id, active))
    case Deleting(id) => w.(sys := Delete(w.sys, id))
    case Tick(elapsed) => w.(now := w.now + elapsed)
    case Select(p) => SelectStep(w, p)
    case CommitClaim(p) => ClaimStep(w, p)
    case Load(p) => LoadStep(settings, w, p)
    case Request(p, outcome) => RequestStep(w, p, outcome)
    case CommitAttempt(p) => CommitStep(settings, w, p)
    case Abandon(p) => w.(workers := w.workers[p := Idle])
  }

  lemma ShapeFrame(s: System, r: System, wk: Worker)
    requires WorkerShape(s, wk)
    requires |r.tasks| >= |s.tasks| && |r.optOuts| >= |s.optOuts| && |r.accounts| == |s.accounts|
    ensures WorkerShape(r, wk)
  {
  }

  lemma NextKeepsSystem(settings: Settings, w: World, e: Event)
    requires Shape(w) && Enabled(w, e)
    ensures var r := Next(settings, w, e);
            WellFormed(r.sys) && |r.hist.start| == |r.sys.tasks| &&
            |r.sys.tasks| >= |w.sys.tasks| && |r.sys.optOuts| >= |w.sys.optOuts| &&
            |r.sys.accounts| == |w.sys.accounts| && |r.workers| == |w.workers|
  {
  }

  /** The worker a step changes, if any. */
  predicate Moves(e: Event, p: nat) {
    match e
    case Select(q) => q == p
    case CommitClaim(q) => q == p
    case Load(q) => q == p
    case Request(q, _) => q == p
    case CommitAttempt(q) => q == p
    case Abandon(q) => q == p
    case _ => false
  }

  lemma NextKeepsWorkerShape(settings: Settings, w: World, e: Event, p: nat)
    requires Shape(w) && Enabled(w, e) && p < |w.workers|
    ensures var r := Next(settings, w, e);
            p < |r.workers| && WorkerShape(r.sys, r.workers[p]) &&
            (!Moves(e, p) ==> r.workers[p] == w.workers[p])
  {
    NextKeepsSystem(settings, w, e);
    if !Moves(e, p) {
      ShapeFrame(w.sys, Next(settings, w, e).sys, w.workers[p]);
    }
  }

  lemma NextKeepsShape(settings: Settings, w: World, e: Event)
    requires Shape(w) && Enabled(w, e)
    ensures Shape(Next(settings, w, e))
  {
    NextKeepsSystem(settings, w, e);
    var r := Next(settings, w, e);
    forall p | 0 <= p < |r.workers| ensures WorkerShape(r.sys, r.workers[p]) {
      NextKeepsWorkerShape(settings, w, e, p);
    }
  }

  /** A worker that commits changes rows of its own batch only. */
  lemma CommitsOwnRows(settings: Settings, w: World, p: nat, i: nat)
    requires Shape(w) && p < |w.workers| && i < |w.sys.tasks| && i !in Batch(w.workers[p])
    ensures Enabled(w, CommitClaim(p)) ==> ClaimStep(w, p).sys.tasks[i] == w.sys.tasks[i]
    ensures Enabled(w, CommitAttempt(p)) ==> CommitStep(settings, w, p).sys.tasks[i] == w.sys.tasks[i]
  {
  }

  /** All other steps change no row. */
  lemma OthersChangeNoRow(settings: Settings, w: World, e: Event, i: nat)
    requires Shape(w) && Enabled(w, e) && i < |w.sys.tasks| && !e.CommitClaim? && !e.CommitAttempt?
    ensures i < |Next(settings, w, e).sys.tasks| && Next(settings, w, e).sys.tasks[i] == w.sys.tasks[i]
  {
  }

  // ---------------------------------------------------------------- runs

  predicate Valid(settings: Settings, w: World, es: seq<Event>)
    requires Shape(w)
    decreases |es|
  {
    es == [] ||
    (Enabled(w, es[0]) &&
     (NextKeepsShape(settings, w, es[0]);
      Valid(settings, Next(settings, w, es[0]), es[1..])))
  }

  function After(settings: Settings, w: World, es: seq<Event>): (r: World)
    requires Shape(w) && Valid(settings, w, es)
    ensures Shape(r)
    decreases |es|
  {
    if es == [] then w
    else
      NextKeepsShape(settings, w, es[0]);
      After(settings, Next(settings, w, es[0]), es[1..])
  }

  lemma Prepend(settings: Settings, w: World, e: Event, es: seq<Event>)
    requires Shape(w) && Enabled(w, e)
    ensures Shape(Next(settings, w, e))
    ensures Valid(settings, Next(settings, w, e), es) ==>
            Valid(settings, w, [e] + es) &&
            After(settings, w, [e] + es) == After(settings, Next(settings, w, e), es)
  {
    NextKeepsShape(settings, w, e);
    assert ([e] + es)[1..] == es;
  }

  predicate Extends(settings: Settings, w: World, es: seq<Event>, e: Event)
    requires Shape(w) && Valid(settings, w, es) && Enabled(After(settings, w, es), e)
  {
    Valid(settings, w, es + [e]) && After(settings, w, es + [e]) == Next(settings, After(settings, w, es), e)
  }

  lemma ExtendEarlier(settings: Settings, w: World, es: seq<Event>, e: Event)
    requires Shape(w) && es != [] && Valid(settings, w, es) && Shape(Next(settings, w, es[0]))
    requires Enabled(After(settings, w, es), e) && Extends(settings, Next(settings, w, es[0]), es[1..], e)
    ensures Extends(settings, w, es, e)
  {
    Prepend(settings, w, es[0], es[1..] + [e]);
    assert es + [e] == [es[0]] + (es[1..] + [e]);
  }

  /** A run continues with any step enabled at its end. */
  lemma {:induction false} Extend(settings: Settings, w: World, es: seq<Event>, e: Event)
    requires Shape(w) && Valid(settings, w, es) && Enabled(After(settings, w, es), e)
    ensures Extends(settings, w, es, e)
    decreases |es|
  {
    if es == [] {
      Prepend(settings, w, e, []);
      assert es + [e] == [e] + [];
    } else {
      NextKeepsShape(settings, w, es[0]);
      Extend(settings, Next(settings, w, es[0]), es[1..], e);
      ExtendEarlier(settings, w, es, e);
    }
  }

  /** Some run leads from w to r. */
  ghost predicate Reaches(settings: Settings, w: World, r: World)
    requires Shape(w)
  {
    exists es :: Valid(settings, w, es) && After(settings, w, es) == r
  }

  lemma ReachesStep(settings: Settings, w: World, r: World, e: Event)
    requires Shape(w) && Reaches(settings, w, r) && Shape(r) && Enabled(r, e)
    ensures Shape(Next(settings, r, e)) && Reaches(settings, w, Next(settings, r, e))
  {
    var es :| Valid(settings, w, es) && After(settings, w, es) == r;
    NextKeepsShape(settings, r, e);
    Extend(settings, w, es, e);
  }

  lemma ReachesSelf(settings: Settings, w: World)
    requires Shape(w)
    ensures Reaches(settings, w, w)
  {
    assert Valid(settings, w, []) && After(settings, w, []) == w;
  }

  /** The world r is reached from w. */
  ghost predicate Reached(settings: Settings, w: World, r: World) {
    Shape(w) && Shape(r) && Reaches(settings, w, r)
  }

  lemma TakeStep(settings: Settings, w: World, r: World, e: Event) returns (r': World)
    requires Reached(settings, w, r) && Enabled(r, e)
    ensures r' == Next(settings, r, e) && Reached(settings, w, r')
  {
    ReachesStep(settings, w, r, e);
    r' := Next(settings, r, e);
  }
}
