/** Several workers: when claim phases do not interleave, no task is in two live batches. */
module Exclusion {
  import opened Basics
  import opened Records
  import opened Crm
  import opened Dispatcher
  import opened Queue
  import opened Machine

  /** The claim phases of two workers do not interleave: nobody selects while another worker is
      between its select and the commit of its claim. */
  predicate Apart(w: World, e: Event) {
    e.Select? ==> forall q :: 0 <= q < |w.workers| ==> !w.workers[q].Selected?
  }

  predicate ClaimsApart(settings: Settings, w: World, es: seq<Event>)
    requires Shape(w) && Valid(settings, w, es)
    decreases |es|
  {
    es == [] ||
    (Apart(w, es[0]) &&
     (NextKeepsShape(settings, w, es[0]);
      ClaimsApart(settings, Next(settings, w, es[0]), es[1..])))
  }

  /** What a live batch knows of its rows: still eligible after the select, PROCESSING after the claim. */
  predicate RowFits(wk: Worker, t: Task, now: int) {
    if wk.Selected? then Eligible(t, now) else t.status == Processing
  }

  predicate Holds(w: World, p: nat, id: nat)
    requires Shape(w) && p < |w.workers|
  {
    id in w.hist.owner && w.hist.owner[id] == p &&
    id < |w.sys.tasks| && RowFits(w.workers[p], w.sys.tasks[id], w.now)
  }

  /** The worker holds its batch: each task once, no other worker's, in the state it left it. */
  ghost predicate HoldsBatch(w: World, p: nat)
    requires Shape(w) && p < |w.workers|
  {
    var b := Batch(w.workers[p]);
    Distinct(b) && (forall a :: 0 <= a < |b| ==> Holds(w, p, b[a])) &&
    (w.workers[p].Attempting? ==> w.workers[p].flight.row == w.sys.tasks[b[0]])
  }

  predicate OneSelected(w: World) {
    forall p, q :: 0 <= p < q < |w.workers| ==> !(w.workers[p].Selected? && w.workers[q].Selected?)
  }

  ghost predicate Exclusive(w: World)
    requires Shape(w)
  {
    OneSelected(w) && forall p :: 0 <= p < |w.workers| ==> HoldsBatch(w, p)
  }

  lemma HeldRow(w: World, p: nat, a: nat)
    requires Shape(w) && p < |w.workers| && HoldsBatch(w, p) && a < |Batch(w.workers[p])|
    ensures Holds(w, p, Batch(w.workers[p])[a])
  {
  }

  /** Two workers hold no task in common. */
  lemma HeldByOne(w: World, p: nat, q: nat, id: nat)
    requires Shape(w) && p < |w.workers| && q < |w.workers| && p != q
    requires HoldsBatch(w, p) && HoldsBatch(w, q)
    ensures !(id in Batch(w.workers[p]) && id in Batch(w.workers[q]))
  {
  }

  lemma HeldRowUnchanged(settings: Settings, w: World, e: Event, p: nat, a: nat)
    requires Shape(w) && Enabled(w, e) && Exclusive(w)
    requires p < |w.workers| && !Moves(e, p) && a < |Batch(w.workers[p])|
    ensures var id, r := Batch(w.workers[p])[a], Next(settings, w, e);
            id < |w.sys.tasks| && id < |r.sys.tasks| && r.sys.tasks[id] == w.sys.tasks[id]
  {
    var id := Batch(w.workers[p])[a];
    assert HoldsBatch(w, p);
    HeldRow(w, p, a);
    if e.CommitClaim? || e.CommitAttempt? {
      CommitsElsewhere(w, p, e.p, a);
      CommitsOwnRows(settings, w, e.p, id);
    } else {
      OthersChangeNoRow(settings, w, e, id);
    }
  }

  lemma HeldRowNotSelected(w: World, p: nat, a: nat, q: nat)
    requires Shape(w) && Exclusive(w) && Enabled(w, Select(q)) && Apart(w, Select(q))
    requires p < |w.workers| && p != q && a < |Batch(w.workers[p])|
    ensures Batch(w.workers[p])[a] !in EligibleIds(w.sys.tasks, w.now)
  {
    assert HoldsBatch(w, p);
    HeldRow(w, p, a);
  }

  /** A step of another worker, or of the environment, leaves a held row and its owner alone. */
  lemma HeldRowUndisturbed(settings: Settings, w: World, e: Event, p: nat, a: nat)
    requires Shape(w) && Enabled(w, e) && Apart(w, e) && Exclusive(w)
    requires p < |w.workers| && !Moves(e, p) && a < |Batch(w.workers[p])|
    ensures var id, r := Batch(w.workers[p])[a], Next(settings, w, e);
            id < |r.sys.tasks| && r.sys.tasks[id] == w.sys.tasks[id] &&
            id in r.hist.owner && r.hist.owner[id] == p && r.now >= w.now
  {
    HeldRowUnchanged(settings, w, e, p, a);
    assert HoldsBatch(w, p);
    HeldRow(w, p, a);
    if e.Select? {
      HeldRowNotSelected(w, p, a, e.p);
    }
  }

  lemma CommitsElsewhere(w: World, p: nat, q: nat, a: nat)
    requires Shape(w) && Exclusive(w) && p < |w.workers| && q < |w.workers| && p != q && a < |Batch(w.workers[p])|
    ensures Batch(w.workers[p])[a] !in Batch(w.workers[q])
  {
    assert HoldsBatch(w, p) && HoldsBatch(w, q);
    HeldByOne(w, p, q, Batch(w.workers[p])[a]);
  }

  lemma OthersKeepBatches(settings: Settings, w: World, e: Event, p: nat)
    requires Shape(w) && Enabled(w, e) && Apart(w, e) && Exclusive(w)
    requires p < |w.workers| && !Moves(e, p)
    requires Shape(Next(settings, w, e))
    ensures p < |Next(settings, w, e).workers| && HoldsBatch(Next(settings, w, e), p)
  {
    NextKeepsWorkerShape(settings, w, e, p);
    var r := Next(settings, w, e);
    var b := Batch(w.workers[p]);
    assert HoldsBatch(w, p);
    forall a | 0 <= a < |b| ensures Holds(r, p, b[a]) && r.sys.tasks[b[a]] == w.sys.tasks[b[a]] {
      HeldRow(w, p, a);
      HeldRowUndisturbed(settings, w, e, p, a);
    }
  }

  lemma SelectHolds(settings: Settings, w: World, p: nat)
    requires Shape(w) && Enabled(w, Select(p)) && Shape(SelectStep(w, p))
    ensures HoldsBatch(SelectStep(w, p), p)
  {
  }

  lemma ClaimHolds(settings: Settings, w: World, p: nat)
    requires Shape(w) && Enabled(w, CommitClaim(p)) && HoldsBatch(w, p) && Shape(ClaimStep(w, p))
    ensures HoldsBatch(ClaimStep(w, p), p)
  {
    var b := Batch(w.workers[p]);
    forall a | 0 <= a < |b| ensures Holds(ClaimStep(w, p), p, b[a]) {
      HeldRow(w, p, a);
    }
  }

  lemma CommitHolds(settings: Settings, w: World, p: nat)
    requires Shape(w) && Enabled(w, CommitAttempt(p)) && HoldsBatch(w, p) && Shape(CommitStep(settings, w, p))
    ensures HoldsBatch(CommitStep(settings, w, p), p)
  {
    var b := Batch(w.workers[p]);
    var r := CommitStep(settings, w, p);
    forall a | 1 <= a < |b| ensures Holds(r, p, b[a]) {
      HeldRow(w, p, a);
    }
  }

  lemma MoverKeepsBatch(settings: Settings, w: World, e: Event, p: nat)
    requires Shape(w) && Enabled(w, e) && Apart(w, e) && Exclusive(w)
    requires p < |w.workers| && Moves(e, p)
    requires Shape(Next(settings, w, e))
    ensures p < |Next(settings, w, e).workers| && HoldsBatch(Next(settings, w, e), p)
  {
    assert HoldsBatch(w, p);
    match e
    case Select(_) => SelectHolds(settings, w, p);
    case CommitClaim(_) => ClaimHolds(settings, w, p);
    case CommitAttempt(_) => CommitHolds(settings, w, p);
    case Load(_) =>
      forall a | 0 <= a < |Batch(w.workers[p])|
        ensures Holds(Next(settings, w, e), p, Batch(w.workers[p])[a])
      {
        HeldRow(w, p, a);
      }
    case Request(_, _) =>
      forall a | 0 <= a < |Batch(w.workers[p])|
        ensures Holds(Next(settings, w, e), p, Batch(w.workers[p])[a])
      {
        HeldRow(w, p, a);
      }
    case _ =>
  }

  lemma NextKeepsOneSelected(settings: Settings, w: World, e: Event)
    requires Shape(w) && Enabled(w, e) && Apart(w, e) && OneSelected(w)
    ensures OneSelected(Next(settings, w, e))
  {
  }

  lemma NextKeepsExclusive(settings: Settings, w: World, e: Event)
    requires Shape(w) && Enabled(w, e) && Apart(w, e) && Exclusive(w)
    ensures Shape(Next(settings, w, e)) && Exclusive(Next(settings, w, e))
  {
    NextKeepsShape(settings, w, e);
    NextKeepsOneSelected(settings, w, e);
    var r := Next(settings, w, e);
    forall p | 0 <= p < |r.workers| ensures HoldsBatch(r, p) {
      NextKeepsWorkerShape(settings, w, e, p);
      if Moves(e, p) {
        MoverKeepsBatch(settings, w, e, p);
      } else {
        OthersKeepBatches(settings, w, e, p);
      }
    }
  }

  lemma {:induction false} RunKeepsExclusive(settings: Settings, w: World, es: seq<Event>)
    requires Shape(w) && Exclusive(w) && Valid(settings, w, es) && ClaimsApart(settings, w, es)
    ensures Exclusive(After(settings, w, es))
    decreases |es|
  {
    if es != [] {
      NextKeepsExclusive(settings, w, es[0]);
      RunKeepsExclusive(settings, Next(settings, w, es[0]), es[1..]);
    }
  }

  /** If claim phases do not interleave, then however many workers there are and however their
      attempts interleave, no task is ever in two live batches. */
  lemma NoTaskInTwoBatches(settings: Settings, w: World, es: seq<Event>, p: nat, q: nat, id: nat)
    requires Shape(w) && Exclusive(w) && Valid(settings, w, es) && ClaimsApart(settings, w, es)
    requires p < |After(settings, w, es).workers| && q < |After(settings, w, es).workers| && p != q
    ensures var r := After(settings, w, es);
            !(id in Batch(r.workers[p]) && id in Batch(r.workers[q]))
  {
    RunKeepsExclusive(settings, w, es);
    var r := After(settings, w, es);
    assert HoldsBatch(r, p) && HoldsBatch(r, q);
    HeldByOne(r, p, q, id);
  }

  /** A commit then finds the row exactly as its own transaction read it, PROCESSING: it loses no
      retry, overwrites no COMPLETED row, and the row becomes what one attempt makes of it. */
  lemma CommitsOverwriteNothing(settings: Settings, w: World, p: nat)
    requires Shape(w) && Exclusive(w) && Enabled(w, CommitAttempt(p))
    ensures var id, f, r := w.workers[p].batch[0], w.workers[p].flight, CommitStep(settings, w, p);
            w.sys.tasks[id] == f.row && f.row.status == Processing &&
            r.sys.tasks == w.sys.tasks[id := Settle(w.sys.tasks[id], f.call.reply, w.now, settings.backoffFactor)]
  {
    assert HoldsBatch(w, p);
    HeldRow(w, p, 0);
  }

  // ---------------------------------------------------------------- exactly when

  /** No task is in the live batches of two workers. */
  ghost predicate Disjoint(w: World) {
    forall p: nat, q: nat, id :: p < q < |w.workers| && id in Batch(w.workers[p]) ==> id !in Batch(w.workers[q])
  }

  lemma ExclusiveIsDisjoint(w: World)
    requires Shape(w) && Exclusive(w)
    ensures Disjoint(w)
  {
    forall p: nat, q: nat, id | p < q < |w.workers| && id in Batch(w.workers[p]) ensures id !in Batch(w.workers[q]) {
      assert HoldsBatch(w, p) && HoldsBatch(w, q);
      HeldByOne(w, p, q, id);
    }
  }

  /** A select between another worker's select and its claim takes a task of that worker's batch. */
  lemma SelectOverlaps(settings: Settings, w: World, p: nat, q: nat)
    requires Shape(w) && Exclusive(w) && Enabled(w, Select(p)) && q < |w.workers| && w.workers[q].Selected?
    ensures p != q && var id, r := w.workers[q].batch[0], SelectStep(w, p);
            r.workers[q] == w.workers[q] && id in Batch(r.workers[p]) && id in Batch(r.workers[q])
  {
    assert HoldsBatch(w, q) && WorkerShape(w.sys, w.workers[q]);
    HeldRow(w, q, 0);
    assert w.workers[q].batch[0] in EligibleIds(w.sys.tasks, w.now);
  }

  /** From an exclusive world, a step leads to an exclusive world, or one with disjoint batches,
      if and only if it does not interleave claim phases. */
  lemma StepExclusiveExactly(settings: Settings, w: World, e: Event)
    requires Shape(w) && Enabled(w, e) && Exclusive(w)
    ensures Shape(Next(settings, w, e))
    ensures Exclusive(Next(settings, w, e)) <==> Apart(w, e)
    ensures Disjoint(Next(settings, w, e)) <==> Apart(w, e)
  {
    NextKeepsShape(settings, w, e);
    if Apart(w, e) {
      NextKeepsExclusive(settings, w, e);
      ExclusiveIsDisjoint(Next(settings, w, e));
    } else {
      var q :| 0 <= q < |w.workers| && w.workers[q].Selected?;
      SelectOverlaps(settings, w, e.p, q);
      NotDisjoint(SelectStep(w, e.p), e.p, q, w.workers[q].batch[0]);
    }
  }

  lemma NotDisjoint(w: World, p: nat, q: nat, id: nat)
    requires Shape(w) && p < |w.workers| && q < |w.workers| && p != q
    requires id in Batch(w.workers[p]) && id in Batch(w.workers[q])
    ensures !Disjoint(w) && !Exclusive(w)
  {
    if Exclusive(w) {
      assert HoldsBatch(w, p) && HoldsBatch(w, q);
      HeldByOne(w, p, q, id);
    }
  }

  /** In every world the run passes through, no task is in two live batches. */
  ghost predicate DisjointThroughout(settings: Settings, w: World, es: seq<Event>)
    requires Shape(w) && Valid(settings, w, es)
    decreases |es|
  {
    Disjoint(w) &&
    (es == [] ||
     (NextKeepsShape(settings, w, es[0]);
      DisjointThroughout(settings, Next(settings, w, es[0]), es[1..])))
  }

  ghost predicate ExclusiveThroughout(settings: Settings, w: World, es: seq<Event>)
    requires Shape(w) && Valid(settings, w, es)
    decreases |es|
  {
    Exclusive(w) &&
    (es == [] ||
     (NextKeepsShape(settings, w, es[0]);
      ExclusiveThroughout(settings, Next(settings, w, es[0]), es[1..])))
  }

  /** A run keeps all live batches disjoint, and the whole invariant, if and only if its claim phases
      do not interleave. */
  lemma {:induction false} RunExclusiveExactly(settings: Settings, w: World, es: seq<Event>)
    requires Shape(w) && Exclusive(w) && Valid(settings, w, es)
    ensures DisjointThroughout(settings, w, es) <==> ClaimsApart(settings, w, es)
    ensures ExclusiveThroughout(settings, w, es) <==> ClaimsApart(settings, w, es)
    decreases |es|
  {
    ExclusiveIsDisjoint(w);
    if es != [] {
      StepExclusiveExactly(settings, w, es[0]);
      if Apart(w, es[0]) {
        RunExclusiveExactly(settings, Next(settings, w, es[0]), es[1..]);
      }
    }
  }

  /** Without live batches the invariant holds: the start of every run. */
  lemma IdleIsExclusive(w: World)
    requires Shape(w) && forall p :: 0 <= p < |w.workers| ==> w.workers[p].Idle?
    ensures Exclusive(w)
  {
  }

  // ---------------------------------------------------------------- the hypothesis is needed

  const WEBHOOK := Integration(GenericWebhook, true, None, Some("u"), 0)
  const WAITING := Task(0, 0, Pending, 0, DEFAULT_MAX_RETRIES, None, 0)

  /** One PENDING task, one webhook, two idle workers. */
  function TwoWorkers(): World {
    World(0,
          System([OptOut("+15550000000", "sms")], map[0 := WEBHOOK], 1, [WAITING], [], [Account([], [], [])]),
          [Idle, Idle],
          History(map[], [0], map[], map[], map[], [], []))
  }

  const CLAIMED := WAITING.(status := Processing)

  lemma BothSelect(settings: Settings) returns (r: World)
    ensures Reached(settings, TwoWorkers(), r)
    ensures r.sys == TwoWorkers().sys && r.now == 0 && r.workers == [Selected([0]), Selected([0])]
  {
    r := TwoWorkers();
    assert EligibleAmong(r.sys.tasks, 0, 1) == [0];
    ReachesSelf(settings, r);
    r := TakeStep(settings, TwoWorkers(), r, Select(0));
    r := TakeStep(settings, TwoWorkers(), r, Select(1));
  }

  lemma BothClaim(settings: Settings) returns (r: World)
    ensures Reached(settings, TwoWorkers(), r) && r.now == 0
    ensures r.sys == TwoWorkers().sys.(tasks := [CLAIMED]) && r.workers == [Running([0]), Running([0])]
  {
    r := BothSelect(settings);
    r := TakeStep(settings, TwoWorkers(), r, CommitClaim(0));
    r := TakeStep(settings, TwoWorkers(), r, CommitClaim(1));
  }

  lemma WebhookPosts(settings: Settings)
    ensures FirstCall(settings, Some(WEBHOOK)) == Post
  {
    assert |"u"| == 1;
  }

  predicate ReadyToLoad(w: World, p: nat) {
    p < |w.workers| && w.workers[p] == Running([0]) &&
    w.sys.tasks == [CLAIMED] && w.sys.integrations == map[0 := WEBHOOK]
  }

  function InFlight(call: Call): Worker {
    Attempting([0], Flight(CLAIMED, Some(WEBHOOK), call))
  }

  /** A worker with the claimed task loads it ... */
  lemma LoadFacts(settings: Settings, w: World, p: nat)
    requires Shape(w) && ReadyToLoad(w, p)
    ensures LoadStep(settings, w, p) == w.(workers := w.workers[p := InFlight(Post)])
  {
    WebhookPosts(settings);
  }

  /** ... and sends its request. */
  lemma SendFacts(settings: Settings, w: World, p: nat, outcome: Outcome)
    requires Shape(w) && p < |w.workers| && w.workers[p] == InFlight(Post)
    ensures var r := RequestStep(w, p, outcome);
            r.sys == w.sys && r.now == w.now && r.workers == w.workers[p := InFlight(Done(ReplyTo(outcome)))]
  {
    assert RequestStep(w, p, outcome).sys.accounts == w.sys.accounts;
  }

  lemma OneAttempts(settings: Settings, w: World, p: nat, outcome: Outcome) returns (r: World)
    requires Reached(settings, TwoWorkers(), w) && ReadyToLoad(w, p)
    ensures Reached(settings, TwoWorkers(), r) && r.sys == w.sys && r.now == w.now
    ensures r.workers == w.workers[p := InFlight(Done(ReplyTo(outcome)))]
  {
    LoadFacts(settings, w, p);
    r := TakeStep(settings, TwoWorkers(), w, Load(p));
    SendFacts(settings, r, p, outcome);
    r := TakeStep(settings, TwoWorkers(), r, Request(p, outcome));
  }

  lemma BothAttempt(settings: Settings, first: Outcome, second: Outcome) returns (r: World)
    ensures Reached(settings, TwoWorkers(), r) && r.sys == TwoWorkers().sys.(tasks := [CLAIMED]) && r.now == 0
    ensures r.workers == [InFlight(Done(ReplyTo(first))), InFlight(Done(ReplyTo(second)))]
  {
    r := BothClaim(settings);
    r := OneAttempts(settings, r, 0, first);
    r := OneAttempts(settings, r, 1, second);
  }

  lemma FirstCommits(settings: Settings, first: Outcome, second: Outcome) returns (r: World)
    ensures Reached(settings, TwoWorkers(), r) && r.now == 0
    ensures r.sys.tasks == [Settle(CLAIMED, ReplyTo(first), 0, settings.backoffFactor)]
    ensures r.sys.failedSyncs == Failures(0, CLAIMED, ReplyTo(first))
    ensures r.workers == [Idle, InFlight(Done(ReplyTo(second)))]
    ensures first.Delivered? ==> 0 in r.hist.completedBy
  {
    r := BothAttempt(settings, first, second);
    r := TakeStep(settings, TwoWorkers(), r, CommitAttempt(0));
  }

  /** Without the hypothesis both attempts take place, and the second commit merges into a row the
      first has already settled. */
  lemma BothCommit(settings: Settings, first: Outcome, second: Outcome) returns (r: World)
    ensures Reached(settings, TwoWorkers(), r)
    ensures var settled := Settle(CLAIMED, ReplyTo(first), 0, settings.backoffFactor);
            r.sys.tasks == [Merge(settled, CLAIMED, Settle(CLAIMED, ReplyTo(second), 0, settings.backoffFactor))] &&
            r.sys.failedSyncs == Failures(0, CLAIMED, ReplyTo(first)) + Failures(0, CLAIMED, ReplyTo(second)) &&
            (first.Delivered? ==> 0 in r.hist.completedBy)
  {
    r := FirstCommits(settings, first, second);
    r := TakeStep(settings, TwoWorkers(), r, CommitAttempt(1));
  }

  /** Interleaved claims lose a retry: two failures are logged, one is counted. */
  lemma InterleavedClaimsLoseRetry(settings: Settings) returns (r: World)
    ensures Reached(settings, TwoWorkers(), r)
    ensures |r.sys.failedSyncs| == 2 && |r.sys.tasks| == 1 && r.sys.tasks[0].retryCount == 1
  {
    r := BothCommit(settings, Lost(false, "a"), Lost(false, "b"));
  }

  /** Interleaved claims overwrite a completion: the delivered task ends FAILED. */
  lemma InterleavedClaimsUndoCompletion(settings: Settings) returns (r: World)
    ensures Reached(settings, TwoWorkers(), r)
    ensures |r.sys.tasks| == 1 && r.sys.tasks[0].status == Failed && 0 in r.hist.completedBy
  {
    r := BothCommit(settings, Delivered, Lost(false, "b"));
  }
}
