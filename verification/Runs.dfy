/**
 Runs of the service with one worker: cycles, complete or cut off by a crash, interleaved
 with ingestion and administration.
 */
module Runs {
  import opened Basics
  import opened Records
  import opened Crm
  import opened Dispatcher
  import opened Queue
  import opened Registry

  datatype Op =
    | CycleOp(now: int, weather: nat -> Weather, commits: nat)
    | IngestOp(raw: string, channel: string, at: int)
    | RegisterOp(integration: Integration)
    | ToggleOp(id: nat, active: bool)
    | DeleteOp(id: nat)

  function Apply(settings: Settings, s: System, op: Op): (r: System)
    requires WellFormed(s)
    ensures WellFormed(r)
  {
    match op
    case CycleOp(now, weather, commits) => Cycle(settings, s, now, weather, commits)
    case IngestOp(raw, channel, at) => Ingest(s, raw, channel, at)
    case RegisterOp(g) => if g.account < |s.accounts| then Register(s, g) else s
    case ToggleOp(id, active) => Toggle(s, id, active)
    case DeleteOp(id) => Delete(s, id)
  }

  function Run(settings: Settings, s: System, ops: seq<Op>): (r: System)
    requires WellFormed(s)
    ensures WellFormed(r)
    decreases |ops|
  {
    if ops == [] then s else Run(settings, Apply(settings, s, ops[0]), ops[1..])
  }

  predicate Selects(s: System, op: Op, i: nat)
    requires i < |s.tasks|
  {
    op.CycleOp? && Eligible(s.tasks[i], op.now)
  }

  /** The number of attempts that a cycle commits. */
  function Commits(s: System, op: Op): nat {
    if op.CycleOp? then CommitCount(EligibleIds(s.tasks, op.now), op.commits) else 0
  }

  /** The cycle is not cut off. */
  predicate Completes(s: System, op: Op) {
    op.CycleOp? ==> op.commits >= |EligibleIds(s.tasks, op.now)|
  }

  predicate CrashFree(settings: Settings, s: System, ops: seq<Op>)
    requires WellFormed(s)
    decreases |ops|
  {
    ops == [] || (Completes(s, ops[0]) && CrashFree(settings, Apply(settings, s, ops[0]), ops[1..]))
  }

  // ---------------------------------------------------------------- one row under one step

  lemma RowUntouched(settings: Settings, s: System, op: Op, i: nat)
    requires WellFormed(s) && i < |s.tasks| && !Selects(s, op, i)
    ensures i < |Apply(settings, s, op).tasks| && Apply(settings, s, op).tasks[i] == s.tasks[i]
  {
    if op.CycleOp? {
      CycleOffBatch(settings, s, op.now, op.weather, op.commits, i);
    }
  }

  /** A selected row is settled with its dispatch's result, or left PROCESSING by a crash. */
  lemma RowSelected(settings: Settings, s: System, op: Op, i: nat) returns (p: nat, reply: Reply)
    requires WellFormed(s) && i < |s.tasks| && Selects(s, op, i)
    ensures |Apply(settings, s, op).tasks| == |s.tasks|
    ensures p < |EligibleIds(s.tasks, op.now)| && EligibleIds(s.tasks, op.now)[p] == i
    ensures Apply(settings, s, op).tasks[i] ==
            if p < op.commits
            then Settle(Claimed(s.tasks[i]), reply, op.weather(p).finishedAt, settings.backoffFactor)
            else Claimed(s.tasks[i])
    ensures s.tasks[i].integration !in s.integrations ==> reply.Failure?
    ensures s.tasks[i].integration in s.integrations && !s.integrations[s.tasks[i].integration].isActive
            ==> reply.Success?
  {
    var batch := EligibleIds(s.tasks, op.now);
    p :| 0 <= p < |batch| && batch[p] == i;
    CycleOnBatch(settings, s, op.now, op.weather, op.commits, p);
    var claimed := ClaimBatch(s, op.now);
    reply := ReplyAt(settings, claimed, batch, op.weather, p);
    ReplyWithoutRequest(settings, claimed, batch, op.weather, p);
  }

  /** A deleted integration fails every attempt, an inactive one lets it pass. */
  lemma ReplyWithoutRequest(settings: Settings, s: System, batch: seq<nat>, weather: nat -> Weather, p: nat)
    requires WellFormed(s) && p < |batch| && Within(batch, |s.tasks|) && Distinct(batch)
    ensures var reply, g := ReplyAt(settings, s, batch, weather, p), s.tasks[batch[p]].integration;
            (g !in s.integrations ==> reply.Failure?) &&
            (g in s.integrations && !s.integrations[g].isActive ==> reply.Success?)
  {
    RowBeforeAttempt(settings, s, batch, weather, p);
  }

  // ---------------------------------------------------------------- rows that never change again

  predicate Frozen(t: Task) {
    t.status == Processing || Terminal(t)
  }

  /** A PROCESSING row that no cycle is working on, and every terminal row, stays as it is. */
  lemma {:induction false} FrozenForever(settings: Settings, s: System, ops: seq<Op>, i: nat)
    requires WellFormed(s) && i < |s.tasks| && Frozen(s.tasks[i])
    ensures i < |Run(settings, s, ops).tasks| && Run(settings, s, ops).tasks[i] == s.tasks[i]
    decreases |ops|
  {
    if ops != [] {
      RowUntouched(settings, s, ops[0], i);
      FrozenForever(settings, Apply(settings, s, ops[0]), ops[1..], i);
    }
  }

  /** A cycle cut off before its k-th commit strands exactly the uncommitted suffix of its batch:
      every committed row has left PROCESSING, every later row of the batch is PROCESSING and
      is never selected or changed again. */
  lemma CrashPartition(settings: Settings, s: System, cycle: Op, p: nat, later: seq<Op>)
    requires WellFormed(s) && cycle.CycleOp? && p < |EligibleIds(s.tasks, cycle.now)|
    ensures var i := EligibleIds(s.tasks, cycle.now)[p];
            var crashed := Apply(settings, s, cycle);
            (p < cycle.commits <==> crashed.tasks[i].status != Processing) &&
            (p >= cycle.commits ==>
               i < |Run(settings, crashed, later).tasks| &&
               Run(settings, crashed, later).tasks[i] == s.tasks[i].(status := Processing))
  {
    var i := EligibleIds(s.tasks, cycle.now)[p];
    CycleOnBatch(settings, s, cycle.now, cycle.weather, cycle.commits, p);
    if p >= cycle.commits {
      FrozenForever(settings, Apply(settings, s, cycle), later, i);
    }
  }

  /** A complete cycle settles every eligible row once and leaves none of them PROCESSING;
      all other rows keep their values. */
  lemma CompleteCycle(settings: Settings, s: System, cycle: Op, i: nat)
    requires WellFormed(s) && cycle.CycleOp? && Completes(s, cycle) && i < |s.tasks|
    ensures var r := Apply(settings, s, cycle);
            if Eligible(s.tasks[i], cycle.now)
            then r.tasks[i].status in {Completed, Failed, MaxRetriesExceeded} &&
                 (r.tasks[i].status == Completed <==> r.tasks[i].retryCount == s.tasks[i].retryCount) &&
                 (r.tasks[i].status != Completed <==> r.tasks[i].retryCount == s.tasks[i].retryCount + 1)
            else r.tasks[i] == s.tasks[i]
  {
    if Eligible(s.tasks[i], cycle.now) {
      var p, reply := RowSelected(settings, s, cycle, i);
    } else {
      RowUntouched(settings, s, cycle, i);
    }
  }

  // ---------------------------------------------------------------- termination

  /** Every row that may still be attempted has retries left. */
  predicate RetriesLeft(tasks: seq<Task>) {
    forall i :: 0 <= i < |tasks| && !Terminal(tasks[i]) ==> tasks[i].retryCount < tasks[i].maxRetries
  }

  function Weight(t: Task): nat {
    if Terminal(t) || t.retryCount >= t.maxRetries then 0 else t.maxRetries - t.retryCount
  }

  /** The sum over the non-terminal rows of the retries they have left. */
  function Potential(tasks: seq<Task>): nat {
    if tasks == [] then 0 else Potential(tasks[..|tasks| - 1]) + Weight(tasks[|tasks| - 1])
  }

  lemma {:induction false} PotentialUpdate(tasks: seq<Task>, i: nat, t: Task)
    requires i < |tasks|
    ensures Potential(tasks[i := t]) + Weight(tasks[i]) == Potential(tasks) + Weight(t)
  {
    var n := |tasks| - 1;
    if i == n {
      assert tasks[i := t][..n] == tasks[..n];
    } else {
      assert tasks[i := t][..n] == tasks[..n][i := t];
      PotentialUpdate(tasks[..n], i, t);
    }
  }

  lemma {:induction false} PotentialSame(a: seq<Task>, b: seq<Task>)
    requires |a| == |b| && forall i :: 0 <= i < |a| ==> Weight(a[i]) == Weight(b[i])
    ensures Potential(a) == Potential(b)
  {
    if a != [] {
      PotentialSame(a[..|a| - 1], b[..|b| - 1]);
    }
  }

  lemma AttemptUsesPotential(settings: Settings, s: System, id: nat, weather: Weather)
    requires WellFormed(s) && id < |s.tasks| && Weight(s.tasks[id]) >= 1
    ensures 1 + Potential(Attempt(settings, s, id, weather).tasks) <= Potential(s.tasks)
  {
    var reply := Dispatched(settings, s, id, weather.faults).1;
    PotentialUpdate(s.tasks, id, Settle(s.tasks[id], reply, weather.finishedAt, settings.backoffFactor));
  }

  predicate HaveRetries(tasks: seq<Task>, batch: seq<nat>)
    requires Within(batch, |tasks|)
  {
    forall p :: 0 <= p < |batch| ==> Weight(tasks[batch[p]]) >= 1
  }

  /** The sum after k attempts of a batch. */
  function PotentialAt(settings: Settings, s: System, batch: seq<nat>, weather: nat -> Weather, k: nat): nat
    requires WellFormed(s) && Within(batch, |s.tasks|)
  {
    Potential(AfterAttempts(settings, s, batch, weather, if k <= |batch| then k else 0).tasks)
  }

  function PotentialHistory(settings: Settings, s: System, batch: seq<nat>, weather: nat -> Weather): nat -> nat
    requires WellFormed(s) && Within(batch, |s.tasks|)
  {
    (k: nat) => PotentialAt(settings, s, batch, weather, k)
  }

  predicate Falls(f: nat -> nat, k: nat) {
    f(k + 1) < f(k)
  }

  lemma {:induction false} FallsBelow(f: nat -> nat, n: nat)
    requires forall k: nat :: k < n ==> Falls(f, k)
    ensures n + f(n) <= f(0)
  {
    if n > 0 {
      FallsBelow(f, n - 1);
      assert Falls(f, n - 1);
    }
  }

  lemma NextAttemptUsesPotential(settings: Settings, s: System, batch: seq<nat>, weather: nat -> Weather, k: nat)
    requires WellFormed(s) && k < |batch| && Within(batch, |s.tasks|) && Distinct(batch)
    requires HaveRetries(s.tasks, batch)
    ensures Falls(PotentialHistory(settings, s, batch, weather), k)
  {
    RowBeforeAttempt(settings, s, batch, weather, k);
    AttemptUsesPotential(settings, AfterAttempts(settings, s, batch, weather, k), batch[k], weather(k));
  }

  /** Each attempt uses up at least one unit. */
  lemma AttemptsUsePotential(settings: Settings, s: System, batch: seq<nat>, weather: nat -> Weather, n: nat)
    requires WellFormed(s) && n <= |batch| && Within(batch, |s.tasks|) && Distinct(batch)
    requires HaveRetries(s.tasks, batch)
    ensures n + Potential(AfterAttempts(settings, s, batch, weather, n).tasks) <= Potential(s.tasks)
  {
    var f := PotentialHistory(settings, s, batch, weather);
    forall k: nat | k < n ensures Falls(f, k) {
      NextAttemptUsesPotential(settings, s, batch, weather, k);
    }
    FallsBelow(f, n);
    assert f(n) == PotentialAt(settings, s, batch, weather, n) && f(0) == PotentialAt(settings, s, batch, weather, 0);
  }

  lemma ClaimKeepsPotential(s: System, now: int)
    requires WellFormed(s) && RetriesLeft(s.tasks)
    ensures var batch, claimed := EligibleIds(s.tasks, now), ClaimBatch(s, now);
            Potential(claimed.tasks) == Potential(s.tasks) && HaveRetries(claimed.tasks, batch)
  {
    var claimed := ClaimBatch(s, now).tasks;
    forall i | 0 <= i < |s.tasks| ensures Weight(claimed[i]) == Weight(s.tasks[i]) {
      ClaimKeepsWeight(s.tasks[i], now);
    }
    PotentialSame(claimed, s.tasks);
  }

  lemma ClaimKeepsWeight(t: Task, now: int)
    ensures Eligible(t, now) ==> Weight(Claimed(t)) == Weight(t)
  {
  }

  /** A cycle lowers the sum by at least the number of attempts it commits. */
  lemma CycleUsesPotential(settings: Settings, s: System, now: int, weather: nat -> Weather, commits: nat)
    requires WellFormed(s) && RetriesLeft(s.tasks)
    ensures CommitCount(EligibleIds(s.tasks, now), commits) + Potential(Cycle(settings, s, now, weather, commits).tasks)
            <= Potential(s.tasks)
  {
    var batch := EligibleIds(s.tasks, now);
    ClaimKeepsPotential(s, now);
    AttemptsUsePotential(settings, ClaimBatch(s, now), batch, weather, CommitCount(batch, commits));
  }

  lemma StepUsesPotential(settings: Settings, s: System, op: Op)
    requires WellFormed(s) && RetriesLeft(s.tasks) && !op.IngestOp?
    ensures Commits(s, op) + Potential(Apply(settings, s, op).tasks) <= Potential(s.tasks)
  {
    if op.CycleOp? {
      CycleUsesPotential(settings, s, op.now, op.weather, op.commits);
    }
  }

  lemma RowKeepsRetriesLeft(settings: Settings, s: System, op: Op, i: nat)
    requires WellFormed(s) && i < |s.tasks|
    requires Terminal(s.tasks[i]) || s.tasks[i].retryCount < s.tasks[i].maxRetries
    ensures i < |Apply(settings, s, op).tasks|
    ensures var t := Apply(settings, s, op).tasks[i]; Terminal(t) || t.retryCount < t.maxRetries
  {
    if Selects(s, op, i) {
      var p, reply := RowSelected(settings, s, op, i);
    } else {
      RowUntouched(settings, s, op, i);
    }
  }

  lemma StepKeepsRetriesLeft(settings: Settings, s: System, op: Op)
    requires WellFormed(s) && RetriesLeft(s.tasks)
    ensures RetriesLeft(Apply(settings, s, op).tasks)
  {
    var after := Apply(settings, s, op).tasks;
    forall i | 0 <= i < |after|
      ensures Terminal(after[i]) || after[i].retryCount < after[i].maxRetries
    {
      if i < |s.tasks| {
        RowKeepsRetriesLeft(settings, s, op, i);
      }
    }
  }

  function TotalCommits(settings: Settings, s: System, ops: seq<Op>): nat
    requires WellFormed(s)
    decreases |ops|
  {
    if ops == [] then 0
    else Commits(s, ops[0]) + TotalCommits(settings, Apply(settings, s, ops[0]), ops[1..])
  }

  predicate NoIngest(ops: seq<Op>) {
    forall k :: 0 <= k < |ops| ==> !ops[k].IngestOp?
  }

  /** Without new opt-outs the attempts of a whole run, however long, are bounded by the retries
      left at its start; each attempt lowers that sum. */
  lemma {:induction false} AttemptsBounded(settings: Settings, s: System, ops: seq<Op>)
    requires WellFormed(s) && RetriesLeft(s.tasks) && NoIngest(ops)
    ensures TotalCommits(settings, s, ops) + Potential(Run(settings, s, ops).tasks) <= Potential(s.tasks)
    ensures RetriesLeft(Run(settings, s, ops).tasks)
    decreases |ops|
  {
    if ops != [] {
      StepUsesPotential(settings, s, ops[0]);
      StepKeepsRetriesLeft(settings, s, ops[0]);
      AttemptsBounded(settings, Apply(settings, s, ops[0]), ops[1..]);
    }
  }

  /** No FAILED row is permanently ineligible: a cycle at or after its retry time attempts it. */
  lemma FailedIsRetriedWhenDue(settings: Settings, s: System, cycle: Op, i: nat)
    requires WellFormed(s) && RetriesLeft(s.tasks) && i < |s.tasks| && s.tasks[i].status == Failed
    requires cycle.CycleOp? && Completes(s, cycle)
    ensures Apply(settings, s, cycle).tasks[i] != s.tasks[i] <==> cycle.now >= s.tasks[i].nextRetryAt
  {
    CompleteCycle(settings, s, cycle, i);
  }

  // ---------------------------------------------------------------- the latest terminal time

  /** Cycle starts are at most `gap` apart from `last` on, and dispatches take no time. */
  ghost predicate Punctual(ops: seq<Op>, last: int, gap: int)
    decreases |ops|
  {
    ops == [] ||
    (if ops[0].CycleOp?
     then last <= ops[0].now <= last + gap && (forall p: nat :: ops[0].weather(p).finishedAt == ops[0].now) &&
          Punctual(ops[1..], ops[0].now, gap)
     else Punctual(ops[1..], last, gap))
  }

  function LastStart(ops: seq<Op>, last: int): int
    decreases |ops|
  {
    if ops == [] then last else LastStart(ops[1..], if ops[0].CycleOp? then ops[0].now else last)
  }

  /** The latest time at which a row with r failures can become due again. */
  function Deadline(created: int, gap: int, factor: nat, r: nat): int {
    created + r * gap + factor * (Pow2(r + 1) - 2)
  }

  lemma DeadlineStep(created: int, gap: int, factor: nat, r: nat)
    ensures Deadline(created, gap, factor, r + 1) ==
            Deadline(created, gap, factor, r) + gap + factor * Pow2(r + 1)
  {
    assert Pow2(r + 2) == 2 * Pow2(r + 1);
    assert factor * (Pow2(r + 2) - 2) == factor * (Pow2(r + 1) - 2) + factor * Pow2(r + 1);
  }

  lemma {:induction false} DeadlineMonotone(created: int, gap: int, factor: nat, r: nat, q: nat)
    requires gap >= 0 && r <= q
    ensures Deadline(created, gap, factor, r) <= Deadline(created, gap, factor, q)
    decreases q - r
  {
    if r < q {
      DeadlineStep(created, gap, factor, r);
      assert factor * Pow2(r + 1) >= 0;
      DeadlineMonotone(created, gap, factor, r + 1, q);
    }
  }

  /** What is known of a row staged at `created` once all cycles up to the one at `last` have run. */
  predicate OnSchedule(t: Task, created: int, gap: int, factor: nat, last: int) {
    Terminal(t) ||
    (t.status == Pending && t.retryCount == 0 && last == created && t.maxRetries >= 1) ||
    (t.status == Failed && 1 <= t.retryCount < t.maxRetries &&
     last <= t.nextRetryAt <= Deadline(created, gap, factor, t.retryCount))
  }

  lemma SettleOnSchedule(t: Task, reply: Reply, created: int, gap: int, factor: nat, last: int, now: int)
    requires gap > 0 && OnSchedule(t, created, gap, factor, last)
    requires Eligible(t, now) && last <= now <= last + gap
    ensures OnSchedule(Settle(Claimed(t), reply, now, factor), created, gap, factor, now)
  {
    var r := t.retryCount;
    assert Deadline(created, gap, factor, 0) == created;
    assert now <= Deadline(created, gap, factor, r) + gap;
    DeadlineStep(created, gap, factor, r);
    assert factor * Pow2(r + 1) >= 0;
  }

  lemma StepOnSchedule(settings: Settings, s: System, op: Op, i: nat, created: int, gap: int, last: int)
    requires WellFormed(s) && i < |s.tasks| && gap > 0 && Completes(s, op)
    requires OnSchedule(s.tasks[i], created, gap, settings.backoffFactor, last)
    requires Punctual([op], last, gap)
    ensures i < |Apply(settings, s, op).tasks|
    ensures OnSchedule(Apply(settings, s, op).tasks[i], created, gap, settings.backoffFactor,
                       if op.CycleOp? then op.now else last)
  {
    if Selects(s, op, i) {
      var p, reply := RowSelected(settings, s, op, i);
      SettleOnSchedule(s.tasks[i], reply, created, gap, settings.backoffFactor, last, op.now);
    } else {
      RowUntouched(settings, s, op, i);
    }
  }

  lemma {:induction false} RunOnSchedule(settings: Settings, s: System, ops: seq<Op>, i: nat,
                                         created: int, gap: int, last: int)
    requires WellFormed(s) && i < |s.tasks| && gap > 0 && CrashFree(settings, s, ops)
    requires OnSchedule(s.tasks[i], created, gap, settings.backoffFactor, last)
    requires Punctual(ops, last, gap)
    ensures i < |Run(settings, s, ops).tasks|
    ensures OnSchedule(Run(settings, s, ops).tasks[i], created, gap, settings.backoffFactor, LastStart(ops, last))
    ensures Run(settings, s, ops).tasks[i].maxRetries == s.tasks[i].maxRetries
    decreases |ops|
  {
    if ops != [] {
      var op := ops[0];
      StepOnSchedule(settings, s, op, i, created, gap, last);
      RowKeepsKeys(settings, s, op, i);
      RunOnSchedule(settings, Apply(settings, s, op), ops[1..], i, created, gap,
                    if op.CycleOp? then op.now else last);
    }
  }

  lemma RowKeepsKeys(settings: Settings, s: System, op: Op, i: nat)
    requires WellFormed(s) && i < |s.tasks|
    ensures i < |Apply(settings, s, op).tasks|
    ensures var t, u := s.tasks[i], Apply(settings, s, op).tasks[i];
            u.maxRetries == t.maxRetries && u.integration == t.integration && u.optOut == t.optOut
  {
    if Selects(s, op, i) {
      var p, reply := RowSelected(settings, s, op, i);
    } else {
      RowUntouched(settings, s, op, i);
    }
  }

  lemma ScheduleExpires(t: Task, m: nat, created: int, gap: int, factor: nat, last: int)
    requires gap > 0 && t.maxRetries == m && m >= 1 && OnSchedule(t, created, gap, factor, last)
    requires last > Deadline(created, gap, factor, m - 1)
    ensures Terminal(t)
  {
    assert Deadline(created, gap, factor, 0) == created;
    DeadlineMonotone(created, gap, factor, 0, m - 1);
    if t.status == Failed {
      DeadlineMonotone(created, gap, factor, t.retryCount, m - 1);
    }
  }

  /** A task created with m max retries is terminal once a cycle has started after
      created + (m - 1) * gap + factor * (2^m - 2). */
  lemma TerminalByDeadline(settings: Settings, s: System, ops: seq<Op>, i: nat, m: nat, created: int, gap: int)
    requires WellFormed(s) && i < |s.tasks| && gap > 0 && CrashFree(settings, s, ops)
    requires s.tasks[i].status == Pending && s.tasks[i].retryCount == 0 && s.tasks[i].maxRetries == m && m >= 1
    requires Punctual(ops, created, gap)
    requires LastStart(ops, created) > Deadline(created, gap, settings.backoffFactor, m - 1)
    ensures i < |Run(settings, s, ops).tasks| && Terminal(Run(settings, s, ops).tasks[i])
  {
    RunOnSchedule(settings, s, ops, i, created, gap, created);
    ScheduleExpires(Run(settings, s, ops).tasks[i], m, created, gap, settings.backoffFactor, LastStart(ops, created));
  }

  lemma {:induction false} PunctualPrefix(ops: seq<Op>, next: Op, last: int, gap: int)
    requires Punctual(ops + [next], last, gap) && next.CycleOp?
    ensures Punctual(ops, last, gap) && next.now <= LastStart(ops, last) + gap
    decreases |ops|
  {
    if ops == [] {
      assert ops + [next] == [next];
    } else {
      assert (ops + [next])[0] == ops[0] && (ops + [next])[1..] == ops[1..] + [next];
      PunctualPrefix(ops[1..], next, if ops[0].CycleOp? then ops[0].now else last, gap);
    }
  }

  lemma LastDeadline(m: nat, created: int, gap: int, factor: nat)
    requires m >= 1
    ensures created + m * gap + factor * (Pow2(m) - 2) == Deadline(created, gap, factor, m - 1) + gap
  {
    assert m * gap == (m - 1) * gap + gap;
  }

  /** So it is terminal at the time created + m * gap + factor * (2^m - 2), that is, in the state
      left by the cycles up to then, when the next cycle starts later. */
  lemma TerminalAtDeadline(settings: Settings, s: System, ops: seq<Op>, next: Op, i: nat, m: nat,
                           created: int, gap: int)
    requires WellFormed(s) && i < |s.tasks| && gap > 0 && CrashFree(settings, s, ops)
    requires s.tasks[i].status == Pending && s.tasks[i].retryCount == 0 && s.tasks[i].maxRetries == m && m >= 1
    requires next.CycleOp? && Punctual(ops + [next], created, gap)
    requires next.now > created + m * gap + settings.backoffFactor * (Pow2(m) - 2)
    ensures i < |Run(settings, s, ops).tasks| && Terminal(Run(settings, s, ops).tasks[i])
  {
    PunctualPrefix(ops, next, created, gap);
    LastDeadline(m, created, gap, settings.backoffFactor);
    TerminalByDeadline(settings, s, ops, i, m, created, gap);
  }

  // ---------------------------------------------------------------- deleted and paused integrations

  /** How often a run selects row i. */
  function Selections(settings: Settings, s: System, ops: seq<Op>, i: nat): nat
    requires WellFormed(s) && i < |s.tasks|
    decreases |ops|
  {
    if ops == [] then 0
    else
      (if Selects(s, ops[0], i) then 1 else 0) +
      (var r := Apply(settings, s, ops[0]); if i < |r.tasks| then Selections(settings, r, ops[1..], i) else 0)
  }

  predicate IsDeleted(s: System, id: nat) {
    id < s.nextIntegration && id !in s.integrations
  }

  /** The row after `extra` more failures. */
  predicate FailedTimes(before: Task, after: Task, extra: nat) {
    after.retryCount == before.retryCount + extra && after.maxRetries == before.maxRetries &&
    after.retryCount <= after.maxRetries &&
    (if extra == 0 then after == before
     else if after.retryCount == after.maxRetries then after.status == MaxRetriesExceeded
     else after.status == Failed)
  }

  lemma DeletedStaysDeleted(settings: Settings, s: System, op: Op, id: nat)
    requires WellFormed(s) && IsDeleted(s, id)
    ensures IsDeleted(Apply(settings, s, op), id)
  {
  }

  /** A row that has either retries left or none and the final status. */
  predicate Exhausting(t: Task) {
    t.status in {Pending, Failed, MaxRetriesExceeded} &&
    if t.status == MaxRetriesExceeded then t.retryCount == t.maxRetries else t.retryCount < t.maxRetries
  }

  lemma DeletedTargetStep(settings: Settings, s: System, op: Op, i: nat)
    requires WellFormed(s) && i < |s.tasks| && Completes(s, op)
    requires IsDeleted(s, s.tasks[i].integration) && Exhausting(s.tasks[i])
    ensures i < |Apply(settings, s, op).tasks|
    ensures var t := Apply(settings, s, op).tasks[i];
            t.integration == s.tasks[i].integration && Exhausting(t) &&
            FailedTimes(s.tasks[i], t, if Selects(s, op, i) then 1 else 0)
  {
    RowKeepsKeys(settings, s, op, i);
    if Selects(s, op, i) {
      var p, reply := RowSelected(settings, s, op, i);
    } else {
      RowUntouched(settings, s, op, i);
    }
  }

  /** In a crash-free run, every attempt at a task of a deleted integration fails; it ends
      MAX_RETRIES_EXCEEDED exactly with its (max - retries)-th further attempt, never COMPLETED. */
  lemma {:induction false} DeletedTargetExhausts(settings: Settings, s: System, ops: seq<Op>, i: nat)
    requires WellFormed(s) && i < |s.tasks| && CrashFree(settings, s, ops)
    requires IsDeleted(s, s.tasks[i].integration)
    requires Exhausting(s.tasks[i])
    ensures i < |Run(settings, s, ops).tasks|
    ensures FailedTimes(s.tasks[i], Run(settings, s, ops).tasks[i], Selections(settings, s, ops, i))
    decreases |ops|
  {
    if ops != [] {
      var op := ops[0];
      DeletedStaysDeleted(settings, s, op, s.tasks[i].integration);
      DeletedTargetStep(settings, s, op, i);
      DeletedTargetExhausts(settings, Apply(settings, s, op), ops[1..], i);
    }
  }

  /** Dispatching a task of a deleted or paused integration reaches no account. */
  lemma NoCallWithoutActiveTarget(settings: Settings, s: System, i: nat, faults: nat -> Outcome)
    requires WellFormed(s) && i < |s.tasks|
    requires var t := TargetOf(s, s.tasks[i]); t.None? || !t.value.isActive
    ensures FirstCall(settings, TargetOf(s, s.tasks[i])).Done?
    ensures Dispatched(settings, s, i, faults).0 == s.accounts
  {
  }

  /** The p-th attempt of the cycle sends no request and reaches no account. */
  predicate SendsNothing(settings: Settings, s: System, cycle: Op, p: nat)
    requires WellFormed(s) && cycle.CycleOp? && p < |EligibleIds(s.tasks, cycle.now)|
  {
    var batch := EligibleIds(s.tasks, cycle.now);
    var before := AfterAttempts(settings, ClaimBatch(s, cycle.now), batch, cycle.weather, p);
    FirstCall(settings, TargetOf(before, before.tasks[batch[p]])).Done? &&
    Attempt(settings, before, batch[p], cycle.weather(p)).accounts == before.accounts
  }

  lemma InactiveTargetSendsNothing(settings: Settings, s: System, cycle: Op, p: nat)
    requires WellFormed(s) && cycle.CycleOp? && p < |EligibleIds(s.tasks, cycle.now)|
    requires var t := TargetOf(s, s.tasks[EligibleIds(s.tasks, cycle.now)[p]]); t.None? || !t.value.isActive
    ensures SendsNothing(settings, s, cycle, p)
  {
    var batch, claimed := EligibleIds(s.tasks, cycle.now), ClaimBatch(s, cycle.now);
    RowBeforeAttempt(settings, claimed, batch, cycle.weather, p);
    NoCallWithoutActiveTarget(settings, AfterAttempts(settings, claimed, batch, cycle.weather, p), batch[p],
                              cycle.weather(p).faults);
  }

  /** A task attempted while its integration is paused is COMPLETED without any request, and
      stays so whatever happens later, reactivation included. */
  lemma PausedTargetCompletes(settings: Settings, s: System, cycle: Op, i: nat, later: seq<Op>)
    requires WellFormed(s) && i < |s.tasks| && Selects(s, cycle, i) && Completes(s, cycle)
    requires var t := TargetOf(s, s.tasks[i]); t.Some? && !t.value.isActive
    ensures var r := Run(settings, Apply(settings, s, cycle), later);
            i < |r.tasks| && r.tasks[i] == s.tasks[i].(status := Completed, lastError := None)
    ensures forall p: nat :: p < |EligibleIds(s.tasks, cycle.now)| && EligibleIds(s.tasks, cycle.now)[p] == i ==>
              SendsNothing(settings, s, cycle, p)
  {
    forall p: nat | p < |EligibleIds(s.tasks, cycle.now)| && EligibleIds(s.tasks, cycle.now)[p] == i
      ensures SendsNothing(settings, s, cycle, p)
    {
      InactiveTargetSendsNothing(settings, s, cycle, p);
    }
    var p, reply := RowSelected(settings, s, cycle, i);
    FrozenForever(settings, Apply(settings, s, cycle), later, i);
  }
}
