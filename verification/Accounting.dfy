/** Retry accounting and backoff times in every reachable world, crashes included. */
module Accounting {
  import opened Basics
  import opened Records
  import opened Crm
  import opened Queue
  import opened Registry
  import opened Machine
  import opened Exclusion

  /** The number of failed_syncs rows of task i. */
  function CountFailures(log: seq<FailedSync>, i: nat): nat {
    if log == [] then 0
    else CountFailures(log[..|log| - 1], i) + if log[|log| - 1].task == i then 1 else 0
  }

  /** The least time between the first failure of a task staged with `start` retries and its
      k-th attempt; for start 0 this is factor * (2^k - 2). */
  function Delay(factor: nat, start: nat, k: nat): int {
    factor * (Pow2(k) - Pow2(start + 1))
  }

  /** The retry count is the starting count plus the logged failures, and fits the status. */
  predicate Accounted(t: Task, start: nat, failures: nat) {
    t.retryCount == start + failures &&
    match t.status
    case Pending => t.retryCount == start && t.retryCount < t.maxRetries
    case Failed => start < t.retryCount < t.maxRetries
    case Processing => t.retryCount < t.maxRetries
    case Completed => t.retryCount < t.maxRetries
    case MaxRetriesExceeded => t.retryCount == t.maxRetries
  }

  /** A task that has failed is not due, or not yet claimed again, before its delay is over. */
  predicate Timed(t: Task, start: nat, first: Option<int>, now: int, factor: nat) {
    (first.Some? <==> t.retryCount > start) &&
    (first.Some? && t.status == Failed ==> t.nextRetryAt >= first.value + Delay(factor, start, t.retryCount + 1)) &&
    (first.Some? && t.status == Processing ==> now >= first.value + Delay(factor, start, t.retryCount + 1))
  }

  function FirstFailure(w: World, i: nat): Option<int> {
    if i in w.hist.firstFailure then Some(w.hist.firstFailure[i]) else None
  }

  predicate RowOk(settings: Settings, w: World, i: nat) {
    i < |w.sys.tasks| && i < |w.hist.start| &&
    Accounted(w.sys.tasks[i], w.hist.start[i], CountFailures(w.sys.failedSyncs, i)) &&
    Timed(w.sys.tasks[i], w.hist.start[i], FirstFailure(w, i), w.now, settings.backoffFactor)
  }

  /** Failures are logged and timed for existing tasks only. */
  predicate LogKnown(w: World) {
    (forall k :: 0 <= k < |w.sys.failedSyncs| ==> w.sys.failedSyncs[k].task < |w.sys.tasks|) &&
    (forall i :: i in w.hist.firstFailure ==> i < |w.sys.tasks|)
  }

  ghost predicate Ledger(settings: Settings, w: World)
    requires Shape(w)
  {
    Exclusive(w) && LogKnown(w) && forall i :: 0 <= i < |w.sys.tasks| ==> RowOk(settings, w, i)
  }

  lemma SettleAccounted(t: Task, start: nat, failures: nat, reply: Reply, at: int, factor: nat)
    requires t.status == Processing && Accounted(t, start, failures)
    ensures Accounted(Settle(t, reply, at, factor), start, if reply.Success? then failures else failures + 1)
  {
  }

  lemma DelayStep(factor: nat, start: nat, k: nat)
    ensures Delay(factor, start, k + 1) == Delay(factor, start, k) + factor * Pow2(k)
  {
    assert Pow2(k + 1) == 2 * Pow2(k);
    assert factor * (Pow2(k + 1) - Pow2(start + 1)) == factor * (Pow2(k) - Pow2(start + 1)) + factor * Pow2(k);
  }

  lemma SettleTimed(t: Task, start: nat, first: Option<int>, reply: Reply, now: int, factor: nat)
    requires t.status == Processing && t.retryCount >= start && Timed(t, start, first, now, factor)
    ensures Timed(Settle(t, reply, now, factor), start,
                  if reply.Failure? && first.None? then Some(now) else first, now, factor)
  {
    DelayStep(factor, start, t.retryCount + 1);
    assert Delay(factor, start, start + 1) == 0;
  }

  /** A row whose backoff is over is due no earlier than its delay. */
  lemma DueAfterDelay(t: Task, start: nat, failures: nat, first: Option<int>, now: int, factor: nat)
    requires Eligible(t, now) && Accounted(t, start, failures) && Timed(t, start, first, now, factor)
    ensures first.Some? ==> now >= first.value + Delay(factor, start, t.retryCount + 1)
    ensures Accounted(Claimed(t), start, failures) && Timed(Claimed(t), start, first, now, factor)
  {
  }

  lemma DelayFromZero(factor: nat, k: nat)
    ensures Delay(factor, 0, k) == factor * (Pow2(k) - 2)
  {
    assert Pow2(1) == 2;
  }

  lemma CountAppend(log: seq<FailedSync>, more: seq<FailedSync>, i: nat)
    requires |more| <= 1
    ensures CountFailures(log + more, i) ==
            CountFailures(log, i) + if more != [] && more[0].task == i then 1 else 0
  {
    if more != [] {
      assert (log + more)[..|log + more| - 1] == log;
    } else {
      assert log + more == log;
    }
  }

  lemma {:induction false} CountUnknown(log: seq<FailedSync>, i: nat)
    requires forall k :: 0 <= k < |log| ==> log[k].task != i
    ensures CountFailures(log, i) == 0
  {
    if log != [] {
      CountUnknown(log[..|log| - 1], i);
    }
  }

  lemma CommitKeepsRow(settings: Settings, w: World, p: nat, i: nat)
    requires Shape(w) && Enabled(w, CommitAttempt(p)) && Ledger(settings, w) && i < |w.sys.tasks|
    ensures RowOk(settings, CommitStep(settings, w, p), i)
  {
    var id, f := w.workers[p].batch[0], w.workers[p].flight;
    assert RowOk(settings, w, i);
    if i == id {
      CommitKeepsOwnRow(settings, w, p);
    } else {
      CountAppend(w.sys.failedSyncs, Failures(id, f.row, f.call.reply), i);
    }
  }

  lemma LoggedCount(log: seq<FailedSync>, id: nat, t: Task, reply: Reply, i: nat)
    ensures CountFailures(log + Failures(id, t, reply), i) ==
            CountFailures(log, i) + if id == i && reply.Failure? then 1 else 0
  {
    CountAppend(log, Failures(id, t, reply), i);
  }

  /** What a commit makes of its own row and of what is known about it. */
  lemma CommittedRow(settings: Settings, w: World, p: nat)
    requires Shape(w) && Enabled(w, CommitAttempt(p)) && Exclusive(w)
    ensures var i, reply, r := w.workers[p].batch[0], w.workers[p].flight.call.reply, CommitStep(settings, w, p);
            var first := FirstFailure(w, i);
            r.sys.tasks == w.sys.tasks[i := Settle(w.sys.tasks[i], reply, w.now, settings.backoffFactor)] &&
            w.sys.tasks[i].status == Processing && r.now == w.now && r.hist.start == w.hist.start &&
            r.sys.failedSyncs == w.sys.failedSyncs + Failures(i, w.sys.tasks[i], reply) &&
            FirstFailure(r, i) == if reply.Failure? && first.None? then Some(w.now) else first
  {
    CommitsOverwriteNothing(settings, w, p);
  }

  lemma CommitKeepsOwnRow(settings: Settings, w: World, p: nat)
    requires Shape(w) && Enabled(w, CommitAttempt(p)) && Exclusive(w)
    requires RowOk(settings, w, w.workers[p].batch[0])
    ensures RowOk(settings, CommitStep(settings, w, p), w.workers[p].batch[0])
  {
    var i, reply := w.workers[p].batch[0], w.workers[p].flight.call.reply;
    CommittedRow(settings, w, p);
    LoggedCount(w.sys.failedSyncs, i, w.sys.tasks[i], reply, i);
    SettleAccounted(w.sys.tasks[i], w.hist.start[i], CountFailures(w.sys.failedSyncs, i), reply, w.now,
                    settings.backoffFactor);
    SettleTimed(w.sys.tasks[i], w.hist.start[i], FirstFailure(w, i), reply, w.now, settings.backoffFactor);
  }

  lemma ClaimKeepsRow(settings: Settings, w: World, p: nat, i: nat)
    requires Shape(w) && Enabled(w, CommitClaim(p)) && Ledger(settings, w) && i < |w.sys.tasks|
    ensures RowOk(settings, ClaimStep(w, p), i)
  {
    assert HoldsBatch(w, p);
    assert RowOk(settings, w, i);
    if i in Batch(w.workers[p]) {
      var a :| 0 <= a < |Batch(w.workers[p])| && Batch(w.workers[p])[a] == i;
      HeldRow(w, p, a);
      DueAfterDelay(w.sys.tasks[i], w.hist.start[i], CountFailures(w.sys.failedSyncs, i), FirstFailure(w, i), w.now,
                    settings.backoffFactor);
    }
  }

  lemma StagedOk(t: Task, now: int, factor: nat)
    requires t == NewTask(t.optOut, t.integration, now)
    ensures Accounted(t, 0, 0) && Timed(t, 0, None, now, factor)
  {
  }

  lemma IngestedRowOk(settings: Settings, w: World, raw: string, channel: string, i: nat)
    requires Shape(w) && LogKnown(w) && |w.sys.tasks| <= i
    ensures Enabled(w, Ingesting(raw, channel)) && i < |IngestStep(w, raw, channel).sys.tasks| ==>
              RowOk(settings, IngestStep(w, raw, channel), i)
  {
    var r := IngestStep(w, raw, channel);
    if Enabled(w, Ingesting(raw, channel)) && i < |r.sys.tasks| {
      CountUnknown(w.sys.failedSyncs, i);
      assert FirstFailure(r, i) == None;
      assert r.hist.start[i] == 0 && r.sys.failedSyncs == w.sys.failedSyncs;
      StagedOk(r.sys.tasks[i], w.now, settings.backoffFactor);
    }
  }

  lemma IngestKeepsRow(settings: Settings, w: World, raw: string, channel: string, i: nat)
    requires Shape(w) && Ledger(settings, w)
    ensures Enabled(w, Ingesting(raw, channel)) && i < |IngestStep(w, raw, channel).sys.tasks| ==>
              RowOk(settings, IngestStep(w, raw, channel), i)
  {
    if i < |w.sys.tasks| {
      assert RowOk(settings, w, i);
    } else {
      IngestedRowOk(settings, w, raw, channel, i);
    }
  }

  lemma NextKeepsRow(settings: Settings, w: World, e: Event, i: nat)
    requires Shape(w) && Enabled(w, e) && Ledger(settings, w) && i < |Next(settings, w, e).sys.tasks|
    ensures RowOk(settings, Next(settings, w, e), i)
  {
    match e
    case Ingesting(raw, channel) => IngestKeepsRow(settings, w, raw, channel, i);
    case CommitClaim(p) => ClaimKeepsRow(settings, w, p, i);
    case CommitAttempt(p) => CommitKeepsRow(settings, w, p, i);
    case _ => assert RowOk(settings, w, i);
  }

  lemma NextKeepsLogKnown(settings: Settings, w: World, e: Event)
    requires Shape(w) && Enabled(w, e) && LogKnown(w)
    ensures LogKnown(Next(settings, w, e))
  {
  }

  lemma NextKeepsLedger(settings: Settings, w: World, e: Event)
    requires Shape(w) && Enabled(w, e) && Apart(w, e) && Ledger(settings, w)
    ensures Shape(Next(settings, w, e)) && Ledger(settings, Next(settings, w, e))
  {
    NextKeepsExclusive(settings, w, e);
    NextKeepsLogKnown(settings, w, e);
    forall i | 0 <= i < |Next(settings, w, e).sys.tasks| ensures RowOk(settings, Next(settings, w, e), i) {
      NextKeepsRow(settings, w, e, i);
    }
  }

  /** The ledger is kept by every run in which claim phases do not interleave. */
  lemma {:induction false} RunKeepsLedger(settings: Settings, w: World, es: seq<Event>)
    requires Shape(w) && Ledger(settings, w) && Valid(settings, w, es) && ClaimsApart(settings, w, es)
    ensures Ledger(settings, After(settings, w, es))
    decreases |es|
  {
    if es != [] {
      NextKeepsLedger(settings, w, es[0]);
      RunKeepsLedger(settings, Next(settings, w, es[0]), es[1..]);
    }
  }

  /** A world in which runs start: no worker at work, nothing logged, every staged task PENDING
      with retries left. */
  ghost predicate Initial(w: World) {
    Shape(w) && (forall p :: 0 <= p < |w.workers| ==> w.workers[p].Idle?) &&
    w.sys.failedSyncs == [] && w.hist.firstFailure == map[] &&
    (forall i :: 0 <= i < |w.sys.tasks| ==>
       w.sys.tasks[i].status == Pending && w.sys.tasks[i].retryCount == w.hist.start[i] < w.sys.tasks[i].maxRetries)
  }

  lemma InitialLedger(settings: Settings, w: World)
    requires Initial(w)
    ensures Ledger(settings, w)
  {
    IdleIsExclusive(w);
  }

  /** In every reachable world: retry_count is the starting value plus the failed_syncs rows of the
      task, and the status fits it. */
  lemma AccountingInvariant(settings: Settings, w: World, es: seq<Event>, i: nat)
    requires Initial(w) && Valid(settings, w, es) && ClaimsApart(settings, w, es)
    requires i < |After(settings, w, es).sys.tasks|
    ensures var r := After(settings, w, es);
            Accounted(r.sys.tasks[i], r.hist.start[i], CountFailures(r.sys.failedSyncs, i))
  {
    InitialLedger(settings, w);
    RunKeepsLedger(settings, w, es);
    assert RowOk(settings, After(settings, w, es), i);
  }

  /** The clock has passed the delay of the next attempt at a task that has failed before. */
  predicate PastDelay(settings: Settings, w: World, i: nat) {
    i < |w.sys.tasks| && i < |w.hist.start| &&
    (i in w.hist.firstFailure ==>
       w.now >= w.hist.firstFailure[i]
                + Delay(settings.backoffFactor, w.hist.start[i], w.sys.tasks[i].retryCount + 1))
  }

  lemma EligiblePastDelay(settings: Settings, w: World, i: nat)
    requires RowOk(settings, w, i) && Eligible(w.sys.tasks[i], w.now)
    ensures PastDelay(settings, w, i)
  {
    DueAfterDelay(w.sys.tasks[i], w.hist.start[i], CountFailures(w.sys.failedSyncs, i), FirstFailure(w, i), w.now,
                  settings.backoffFactor);
  }

  /** For a task staged with no retries the delay is factor * (2^k - 2) before its k-th attempt. */
  predicate PastGeometricDelay(settings: Settings, w: World, i: nat) {
    i < |w.sys.tasks| && i < |w.hist.start| &&
    (i in w.hist.firstFailure && w.hist.start[i] == 0 ==>
       w.now >= w.hist.firstFailure[i] + settings.backoffFactor * (Pow2(w.sys.tasks[i].retryCount + 1) - 2))
  }

  lemma GeometricDelay(settings: Settings, w: World, i: nat)
    requires PastDelay(settings, w, i)
    ensures PastGeometricDelay(settings, w, i)
  {
    DelayFromZero(settings.backoffFactor, w.sys.tasks[i].retryCount + 1);
  }

  /** Whenever a task can be selected for its k-th attempt, the clock is at least
      factor * (2^k - 2^(start + 1)) after its first failure; staged with no retries, that is
      factor * (2^k - 2). */
  lemma BackoffLowerBound(settings: Settings, w: World, es: seq<Event>, i: nat)
    requires Initial(w) && Valid(settings, w, es) && ClaimsApart(settings, w, es)
    requires i < |After(settings, w, es).sys.tasks|
    requires Eligible(After(settings, w, es).sys.tasks[i], After(settings, w, es).now)
    ensures PastDelay(settings, After(settings, w, es), i)
    ensures PastGeometricDelay(settings, After(settings, w, es), i)
  {
    InitialLedger(settings, w);
    RunKeepsLedger(settings, w, es);
    assert RowOk(settings, After(settings, w, es), i);
    EligiblePastDelay(settings, After(settings, w, es), i);
    GeometricDelay(settings, After(settings, w, es), i);
  }

  // ---------------------------------------------------------------- what the log says

  /** A failing commit logs the count and the error of the row it commits; a success logs nothing. */
  lemma CommitLogsNewCount(settings: Settings, w: World, p: nat)
    requires Shape(w) && Exclusive(w) && Enabled(w, CommitAttempt(p))
    ensures var id, r := w.workers[p].batch[0], CommitStep(settings, w, p);
            var t := r.sys.tasks[id];
            if t.status == Completed then
              t.retryCount == w.sys.tasks[id].retryCount && t.lastError == None &&
              r.sys.failedSyncs == w.sys.failedSyncs
            else
              t.retryCount == w.sys.tasks[id].retryCount + 1 && t.lastError.Some? &&
              r.sys.failedSyncs ==
              w.sys.failedSyncs + [FailedSync(id, t.lastError.value, t.retryCount, t.maxRetries)]
  {
    CommittedRow(settings, w, p);
  }

  /** Row k of the log is the task's n-th, carries the starting count plus n, and the task's maximum. */
  predicate Numbered(tasks: seq<Task>, start: seq<nat>, log: seq<FailedSync>, k: nat)
    requires k < |log|
  {
    var i := log[k].task;
    i < |tasks| && i < |start| &&
    log[k].retryCount == start[i] + CountFailures(log[..k + 1], i) && log[k].maxRetries == tasks[i].maxRetries
  }

  predicate LogNumbered(w: World) {
    forall k: nat :: k < |w.sys.failedSyncs| ==> Numbered(w.sys.tasks, w.hist.start, w.sys.failedSyncs, k)
  }

  /** Tasks stay, with their maximum and their starting count. */
  predicate StartsKept(w: World, r: World) {
    |w.sys.tasks| <= |r.sys.tasks| && |w.hist.start| <= |r.hist.start| &&
    (forall i :: 0 <= i < |w.sys.tasks| ==> r.sys.tasks[i].maxRetries == w.sys.tasks[i].maxRetries) &&
    (forall i :: 0 <= i < |w.hist.start| ==> r.hist.start[i] == w.hist.start[i])
  }

  lemma NextKeepsStarts(settings: Settings, w: World, e: Event)
    requires Shape(w) && Enabled(w, e)
    ensures StartsKept(w, Next(settings, w, e))
  {
  }

  lemma NumberedStays(w: World, r: World, more: seq<FailedSync>, k: nat)
    requires StartsKept(w, r) && k < |w.sys.failedSyncs| && r.sys.failedSyncs == w.sys.failedSyncs + more
    requires Numbered(w.sys.tasks, w.hist.start, w.sys.failedSyncs, k)
    ensures Numbered(r.sys.tasks, r.hist.start, r.sys.failedSyncs, k)
  {
    assert r.sys.failedSyncs[..k + 1] == w.sys.failedSyncs[..k + 1];
  }

  /** The row a commit logs is numbered, because the ledger held before it. */
  lemma LoggedRowNumbered(settings: Settings, w: World, p: nat)
    requires Shape(w) && Enabled(w, CommitAttempt(p)) && Ledger(settings, w)
    ensures var r, n := CommitStep(settings, w, p), |w.sys.failedSyncs|;
            n < |r.sys.failedSyncs| ==> Numbered(r.sys.tasks, r.hist.start, r.sys.failedSyncs, n)
  {
    var id, r, n := w.workers[p].batch[0], CommitStep(settings, w, p), |w.sys.failedSyncs|;
    CommitLogsNewCount(settings, w, p);
    CommittedRow(settings, w, p);
    assert RowOk(settings, w, id);
    if n < |r.sys.failedSyncs| {
      var row := r.sys.failedSyncs[n];
      assert r.sys.failedSyncs[..n + 1] == w.sys.failedSyncs + [row];
      CountAppend(w.sys.failedSyncs, [row], id);
    }
  }

  lemma LogGrows(settings: Settings, w: World, e: Event) returns (more: seq<FailedSync>)
    requires Shape(w) && Enabled(w, e)
    ensures Next(settings, w, e).sys.failedSyncs == w.sys.failedSyncs + more && |more| <= 1
    ensures more != [] ==> e.CommitAttempt?
  {
    more := Next(settings, w, e).sys.failedSyncs[|w.sys.failedSyncs|..];
  }

  lemma NextKeepsLogNumbered(settings: Settings, w: World, e: Event)
    requires Shape(w) && Enabled(w, e) && Ledger(settings, w) && LogNumbered(w)
    ensures LogNumbered(Next(settings, w, e))
  {
    var r := Next(settings, w, e);
    var more := LogGrows(settings, w, e);
    NextKeepsStarts(settings, w, e);
    if e.CommitAttempt? {
      LoggedRowNumbered(settings, w, e.p);
    }
    forall k: nat | k < |r.sys.failedSyncs| ensures Numbered(r.sys.tasks, r.hist.start, r.sys.failedSyncs, k) {
      if k < |w.sys.failedSyncs| {
        NumberedStays(w, r, more, k);
      }
    }
  }

  lemma {:induction false} RunKeepsLogNumbered(settings: Settings, w: World, es: seq<Event>)
    requires Shape(w) && Ledger(settings, w) && LogNumbered(w)
    requires Valid(settings, w, es) && ClaimsApart(settings, w, es)
    ensures LogNumbered(After(settings, w, es))
    decreases |es|
  {
    if es != [] {
      NextKeepsLedger(settings, w, es[0]);
      NextKeepsLogNumbered(settings, w, es[0]);
      RunKeepsLogNumbered(settings, Next(settings, w, es[0]), es[1..]);
    }
  }

  /** In every reachable world the n-th failed_syncs row of a task records the retry count start + n and
      the task's maximum. */
  lemma LogRecordsAttempts(settings: Settings, w: World, es: seq<Event>, k: nat)
    requires Initial(w) && Valid(settings, w, es) && ClaimsApart(settings, w, es)
    requires k < |After(settings, w, es).sys.failedSyncs|
    ensures var r := After(settings, w, es);
            var i := r.sys.failedSyncs[k].task;
            i < |r.sys.tasks| && i < |r.hist.start| &&
            r.sys.failedSyncs[k].retryCount == r.hist.start[i] + CountFailures(r.sys.failedSyncs[..k + 1], i) &&
            r.sys.failedSyncs[k].maxRetries == r.sys.tasks[i].maxRetries
  {
    InitialLedger(settings, w);
    RunKeepsLogNumbered(settings, w, es);
    assert Numbered(After(settings, w, es).sys.tasks, After(settings, w, es).hist.start,
                    After(settings, w, es).sys.failedSyncs, k);
  }

  // ---------------------------------------------------------------- without the hypothesis

  /** The retry count is the starting count plus the logged failures. */
  predicate Counted(w: World, i: nat) {
    i < |w.sys.tasks| && i < |w.hist.start| &&
    w.sys.tasks[i].retryCount == w.hist.start[i] + CountFailures(w.sys.failedSyncs, i)
  }

  /** The step commits a failure of task i, but the row is no longer at the count its transaction read. */
  predicate CommitsStaleFailure(w: World, e: Event, i: nat)
    requires Shape(w) && Enabled(w, e) && i < |w.sys.tasks|
  {
    e.CommitAttempt? &&
    var wk := w.workers[e.p];
    wk.batch[0] == i && wk.flight.call.reply.Failure? && wk.flight.row.retryCount != w.sys.tasks[i].retryCount
  }

  lemma MergedCount(current: Task, read: Task, reply: Reply, at: int, factor: nat)
    ensures Merge(current, read, Settle(read, reply, at, factor)).retryCount ==
            if reply.Failure? then read.retryCount + 1 else current.retryCount
  {
  }

  /** What a commit does to the retry count and the log of task i. */
  lemma CommittedCount(settings: Settings, w: World, p: nat, i: nat)
    requires Shape(w) && Enabled(w, CommitAttempt(p)) && i < |w.sys.tasks|
    ensures var id, f, r := w.workers[p].batch[0], w.workers[p].flight, CommitStep(settings, w, p);
            |r.sys.tasks| == |w.sys.tasks| && r.hist.start == w.hist.start &&
            r.sys.tasks[i].retryCount ==
              (if i == id && f.call.reply.Failure? then f.row.retryCount + 1 else w.sys.tasks[i].retryCount) &&
            r.sys.failedSyncs == w.sys.failedSyncs + Failures(id, f.row, f.call.reply)
  {
    var id, f := w.workers[p].batch[0], w.workers[p].flight;
    MergedCount(w.sys.tasks[id], f.row, f.call.reply, w.now, settings.backoffFactor);
  }

  lemma CommitCountedExactly(settings: Settings, w: World, p: nat, i: nat)
    requires Shape(w) && Enabled(w, CommitAttempt(p)) && Counted(w, i)
    ensures Counted(CommitStep(settings, w, p), i) <==> !CommitsStaleFailure(w, CommitAttempt(p), i)
  {
    var id, f := w.workers[p].batch[0], w.workers[p].flight;
    CommittedCount(settings, w, p, i);
    LoggedCount(w.sys.failedSyncs, id, f.row, f.call.reply, i);
  }

  /** Whatever interleaves, a step keeps the account of task i if and only if it does not commit a
      failure over a retry count that changed since the row was read. */
  lemma StepCountedExactly(settings: Settings, w: World, e: Event, i: nat)
    requires Shape(w) && Enabled(w, e) && Counted(w, i)
    ensures Counted(Next(settings, w, e), i) <==> !CommitsStaleFailure(w, e, i)
  {
    if e.CommitAttempt? {
      CommitCountedExactly(settings, w, e.p, i);
    }
  }

  ghost predicate CountedThroughout(settings: Settings, w: World, es: seq<Event>, i: nat)
    requires Shape(w) && Valid(settings, w, es)
    decreases |es|
  {
    Counted(w, i) &&
    (es == [] ||
     (NextKeepsShape(settings, w, es[0]);
      CountedThroughout(settings, Next(settings, w, es[0]), es[1..], i)))
  }

  predicate NeverStale(settings: Settings, w: World, es: seq<Event>, i: nat)
    requires Shape(w) && Valid(settings, w, es)
    decreases |es|
  {
    es == [] ||
    (i < |w.sys.tasks| && !CommitsStaleFailure(w, es[0], i) &&
     (NextKeepsShape(settings, w, es[0]);
      NeverStale(settings, Next(settings, w, es[0]), es[1..], i)))
  }

  /** Over any run, interleaved claims included: no retry increment of task i is lost if and only if
      no failure is committed over a changed count. */
  lemma {:induction false} RunCountedExactly(settings: Settings, w: World, es: seq<Event>, i: nat)
    requires Shape(w) && Valid(settings, w, es) && Counted(w, i)
    ensures CountedThroughout(settings, w, es, i) <==> NeverStale(settings, w, es, i)
    decreases |es|
  {
    if es != [] {
      NextKeepsShape(settings, w, es[0]);
      StepCountedExactly(settings, w, es[0], i);
      if Counted(Next(settings, w, es[0]), i) {
        RunCountedExactly(settings, Next(settings, w, es[0]), es[1..], i);
      }
    }
  }

  /** A commit leaves a COMPLETED row COMPLETED if and only if it brings success itself, or the status
      it settles is the one it read, which the update then does not write. */
  lemma CompletionSurvivesExactly(settings: Settings, w: World, p: nat)
    requires Shape(w) && Enabled(w, CommitAttempt(p)) && w.sys.tasks[w.workers[p].batch[0]].status == Completed
    ensures var id, f := w.workers[p].batch[0], w.workers[p].flight;
            CommitStep(settings, w, p).sys.tasks[id].status == Completed <==>
            f.call.reply.Success? ||
            f.row.status == (if f.row.retryCount + 1 >= f.row.maxRetries then MaxRetriesExceeded else Failed)
  {
  }
}
