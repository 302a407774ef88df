/**
 The task queue as one worker sees it: a cycle claims every eligible row, then attempts
 and settles the claimed rows one transaction at a time. A cycle may be cut off before
 any of those commits.
 */
module Queue {
  import opened Basics
  import opened Records
  import opened Crm
  import opened Dispatcher

  /** All tables, and the remote accounts the integrations reach. */
  datatype System = System(
    optOuts: seq<OptOut>,
    integrations: map<nat, Integration>,
    nextIntegration: nat,
    tasks: seq<Task>,
    failedSyncs: seq<FailedSync>,
    accounts: seq<Account>
  )

  /** All ids are rows of a table of the given size. */
  predicate Within(ids: seq<nat>, size: nat) {
    forall p :: 0 <= p < |ids| ==> ids[p] < size
  }

  predicate Eligible(t: Task, now: int) {
    t.status == Pending ||
    (t.status == Failed && t.retryCount < t.maxRetries && t.nextRetryAt <= now)
  }

  /** The selected rows among the first n, in table order. */
  function EligibleAmong(tasks: seq<Task>, now: int, n: nat): (ids: seq<nat>)
    requires n <= |tasks|
    ensures Within(ids, n)
    ensures forall p :: 0 <= p < |ids| ==> Eligible(tasks[ids[p]], now)
    ensures forall i :: 0 <= i < n && Eligible(tasks[i], now) ==> i in ids
    ensures Distinct(ids)
  {
    if n == 0 then []
    else EligibleAmong(tasks, now, n - 1) + if Eligible(tasks[n - 1], now) then [n - 1] else []
  }

  function EligibleIds(tasks: seq<Task>, now: int): seq<nat> {
    EligibleAmong(tasks, now, |tasks|)
  }

  /** The selected ids are those of the PENDING rows, and of the FAILED rows with retries left that are due. */
  lemma EligibleExactly(tasks: seq<Task>, now: int)
    ensures forall i :: i in EligibleIds(tasks, now) ==> i < |tasks|
    ensures forall i :: 0 <= i < |tasks| ==>
              var t := tasks[i];
              i in EligibleIds(tasks, now) <==>
              t.status == Pending || (t.status == Failed && t.retryCount < t.maxRetries && t.nextRetryAt <= now)
  {
    var ids := EligibleIds(tasks, now);
    forall i | i in ids ensures i < |tasks| && Eligible(tasks[i], now) {
      var p :| 0 <= p < |ids| && ids[p] == i;
    }
  }

  function Claimed(t: Task): Task {
    t.(status := Processing)
  }

  function Claim(tasks: seq<Task>, batch: seq<nat>): (r: seq<Task>)
    ensures |r| == |tasks|
    ensures forall i :: 0 <= i < |tasks| ==> r[i] == if i in batch then Claimed(tasks[i]) else tasks[i]
  {
    seq(|tasks|, i requires 0 <= i < |tasks| => if i in batch then Claimed(tasks[i]) else tasks[i])
  }

  /** The row after an attempt with the given result, settled at time `at`. */
  function Settle(t: Task, reply: Reply, at: int, factor: nat): Task {
    match reply
    case Success => t.(status := Completed, lastError := None)
    case Failure(error) =>
      var retries := t.retryCount + 1;
      if retries >= t.maxRetries then
        t.(retryCount := retries, lastError := Some(error), status := MaxRetriesExceeded)
      else
        t.(retryCount := retries, lastError := Some(error), status := Failed,
           nextRetryAt := at + factor * Pow2(retries))
  }

  /** The failed_syncs rows of one attempt. */
  function Failures(id: nat, t: Task, reply: Reply): seq<FailedSync> {
    match reply
    case Success => []
    case Failure(error) => [FailedSync(id, error, t.retryCount + 1, t.maxRetries)]
  }

  predicate WellFormed(s: System) {
    (forall i :: 0 <= i < |s.tasks| ==> s.tasks[i].optOut < |s.optOuts|) &&
    (forall g :: g in s.integrations ==> g < s.nextIntegration && s.integrations[g].account < |s.accounts|)
  }

  /** The tables a cycle never writes, and the sizes it never changes. */
  predicate SameRegistry(r: System, s: System) {
    r.optOuts == s.optOuts && r.integrations == s.integrations && r.nextIntegration == s.nextIntegration &&
    |r.tasks| == |s.tasks| && |r.accounts| == |s.accounts|
  }

  function TargetOf(s: System, t: Task): Option<Integration> {
    if t.integration in s.integrations then Some(s.integrations[t.integration]) else None
  }

  /** The accounts and the reply after dispatching row `id`. */
  function Dispatched(settings: Settings, s: System, id: nat, faults: nat -> Outcome): (r: (seq<Account>, Reply))
    requires WellFormed(s) && id < |s.tasks|
    ensures |r.0| == |s.accounts|
  {
    var t := s.tasks[id];
    match TargetOf(s, t)
    case None => (s.accounts, FirstCall(settings, None).reply)
    case Some(g) =>
      var (a, reply) := Finish(s.accounts[g.account], FirstCall(settings, Some(g)),
                               s.optOuts[t.optOut].identifier, faults, 0);
      (s.accounts[g.account := a], reply)
  }

  /** The network and the clock during one attempt. */
  datatype Weather = Weather(faults: nat -> Outcome, finishedAt: int)

  /** One dispatch and its commit. */
  function Attempt(settings: Settings, s: System, id: nat, weather: Weather): (r: System)
    requires WellFormed(s) && id < |s.tasks|
    ensures WellFormed(r) && SameRegistry(r, s)
  {
    var (accounts, reply) := Dispatched(settings, s, id, weather.faults);
    var t := s.tasks[id];
    s.(accounts := accounts,
       tasks := s.tasks[id := Settle(t, reply, weather.finishedAt, settings.backoffFactor)],
       failedSyncs := s.failedSyncs + Failures(id, t, reply))
  }

  /** The system after the first n attempts of a batch. */
  function AfterAttempts(settings: Settings, s: System, batch: seq<nat>, weather: nat -> Weather, n: nat): (r: System)
    requires WellFormed(s) && n <= |batch| && Within(batch, |s.tasks|)
    ensures WellFormed(r) && SameRegistry(r, s)
  {
    if n == 0 then s
    else Attempt(settings, AfterAttempts(settings, s, batch, weather, n - 1), batch[n - 1], weather(n - 1))
  }

  /** The result of the n-th attempt of a batch. */
  function ReplyAt(settings: Settings, s: System, batch: seq<nat>, weather: nat -> Weather, n: nat): Reply
    requires WellFormed(s) && n < |batch| && Within(batch, |s.tasks|)
  {
    Dispatched(settings, AfterAttempts(settings, s, batch, weather, n), batch[n], weather(n).faults).1
  }

  function CommitCount(batch: seq<nat>, commits: nat): nat {
    if commits < |batch| then commits else |batch|
  }

  function ClaimBatch(s: System, now: int): (r: System)
    requires WellFormed(s)
    ensures WellFormed(r) && SameRegistry(r, s)
  {
    s.(tasks := Claim(s.tasks, EligibleIds(s.tasks, now)))
  }

  /** One call of `process_pending_tasks` that is cut off after `commits` attempts have been
      committed; a number as large as the batch is a normal cycle. The requests of an
      interrupted attempt may have reached the account. */
  function Cycle(settings: Settings, s: System, now: int, weather: nat -> Weather, commits: nat): (r: System)
    requires WellFormed(s)
    ensures WellFormed(r) && SameRegistry(r, s)
  {
    var batch := EligibleIds(s.tasks, now);
    var claimed := ClaimBatch(s, now);
    var n := CommitCount(batch, commits);
    var done := AfterAttempts(settings, claimed, batch, weather, n);
    if n == |batch| then done
    else done.(accounts := Dispatched(settings, done, batch[n], weather(n).faults).0)
  }

  // ---------------------------------------------------------------- batch exactness

  /** What one attempt logs: nothing on success, otherwise one row with the new retry count and the
      error of the row it commits. */
  lemma AttemptLogsNewCount(settings: Settings, s: System, id: nat, weather: Weather)
    requires WellFormed(s) && id < |s.tasks|
    ensures var r := Attempt(settings, s, id, weather);
            var t := r.tasks[id];
            if t.status == Completed then
              t.retryCount == s.tasks[id].retryCount && t.lastError == None && r.failedSyncs == s.failedSyncs
            else
              t.retryCount == s.tasks[id].retryCount + 1 && t.lastError.Some? &&
              r.failedSyncs == s.failedSyncs + [FailedSync(id, t.lastError.value, t.retryCount, t.maxRetries)]
  {
  }

  /** The failed_syncs rows of the k-th attempt of a batch. */
  function FailuresAt(settings: Settings, s: System, batch: seq<nat>, weather: nat -> Weather, k: nat): seq<FailedSync>
    requires WellFormed(s) && Within(batch, |s.tasks|)
  {
    if k < |batch|
    then Failures(batch[k], AfterAttempts(settings, s, batch, weather, k).tasks[batch[k]],
                  ReplyAt(settings, s, batch, weather, k))
    else []
  }

  function FailureParts(settings: Settings, s: System, batch: seq<nat>, weather: nat -> Weather): nat -> seq<FailedSync>
    requires WellFormed(s) && Within(batch, |s.tasks|)
  {
    (k: nat) => FailuresAt(settings, s, batch, weather, k)
  }

  /** The failed_syncs rows written by the first n attempts. */
  function FailureLog(settings: Settings, s: System, batch: seq<nat>, weather: nat -> Weather, n: nat): seq<FailedSync>
    requires WellFormed(s) && n <= |batch| && Within(batch, |s.tasks|)
  {
    Joined(FailureParts(settings, s, batch, weather), n)
  }

  /** Row i after k attempts of a batch. */
  function RowAt(settings: Settings, s: System, batch: seq<nat>, weather: nat -> Weather, i: nat, k: nat): Task
    requires WellFormed(s) && Within(batch, |s.tasks|) && i < |s.tasks|
  {
    AfterAttempts(settings, s, batch, weather, if k <= |batch| then k else 0).tasks[i]
  }

  function RowHistory(settings: Settings, s: System, batch: seq<nat>, weather: nat -> Weather, i: nat): nat -> Task
    requires WellFormed(s) && Within(batch, |s.tasks|) && i < |s.tasks|
  {
    (k: nat) => RowAt(settings, s, batch, weather, i, k)
  }

  predicate Unchanged(row: nat -> Task, k: nat) {
    row(k + 1) == row(k)
  }

  lemma {:induction false} UnchangedFrom(row: nat -> Task, q: nat, n: nat)
    requires q <= n && forall k :: q <= k < n ==> Unchanged(row, k)
    ensures row(n) == row(q)
    decreases n - q
  {
    if q < n {
      assert Unchanged(row, q);
      UnchangedFrom(row, q + 1, n);
    }
  }

  lemma AttemptLeavesOthers(settings: Settings, s: System, batch: seq<nat>, weather: nat -> Weather, i: nat, k: nat)
    requires WellFormed(s) && k < |batch| && Within(batch, |s.tasks|) && i < |s.tasks| && batch[k] != i
    ensures Unchanged(RowHistory(settings, s, batch, weather, i), k)
  {
  }

  lemma AttemptsLeaveOthers(settings: Settings, s: System, batch: seq<nat>, weather: nat -> Weather, n: nat, i: nat)
    requires WellFormed(s) && n <= |batch| && Within(batch, |s.tasks|)
    requires i < |s.tasks| && forall p :: 0 <= p < n ==> batch[p] != i
    ensures AfterAttempts(settings, s, batch, weather, n).tasks[i] == s.tasks[i]
  {
    var row := RowHistory(settings, s, batch, weather, i);
    forall k | 0 <= k < n ensures Unchanged(row, k) {
      AttemptLeavesOthers(settings, s, batch, weather, i, k);
    }
    UnchangedFrom(row, 0, n);
    assert row(n) == RowAt(settings, s, batch, weather, i, n) && row(0) == RowAt(settings, s, batch, weather, i, 0);
  }

  /** A row of the batch is still as claimed when its own attempt starts. */
  lemma RowBeforeAttempt(settings: Settings, s: System, batch: seq<nat>, weather: nat -> Weather, p: nat)
    requires WellFormed(s) && p < |batch| && Within(batch, |s.tasks|) && Distinct(batch)
    ensures AfterAttempts(settings, s, batch, weather, p).tasks[batch[p]] == s.tasks[batch[p]]
  {
    AttemptsLeaveOthers(settings, s, batch, weather, p, batch[p]);
  }

  lemma OwnAttemptSettles(settings: Settings, s: System, batch: seq<nat>, weather: nat -> Weather, p: nat)
    requires WellFormed(s) && p < |batch| && Within(batch, |s.tasks|) && Distinct(batch)
    ensures RowAt(settings, s, batch, weather, batch[p], p + 1) ==
            Settle(s.tasks[batch[p]], ReplyAt(settings, s, batch, weather, p),
                   weather(p).finishedAt, settings.backoffFactor)
  {
    RowBeforeAttempt(settings, s, batch, weather, p);
  }

  /** The later attempts leave it alone. */
  lemma RowAfterAttempt(settings: Settings, s: System, batch: seq<nat>, weather: nat -> Weather, n: nat, p: nat)
    requires WellFormed(s) && p < n <= |batch| && Within(batch, |s.tasks|) && Distinct(batch)
    ensures RowAt(settings, s, batch, weather, batch[p], n) == RowAt(settings, s, batch, weather, batch[p], p + 1)
  {
    var row := RowHistory(settings, s, batch, weather, batch[p]);
    forall k | p + 1 <= k < n ensures Unchanged(row, k) {
      AttemptLeavesOthers(settings, s, batch, weather, batch[p], k);
    }
    UnchangedFrom(row, p + 1, n);
  }

  lemma AttemptSettles(settings: Settings, s: System, batch: seq<nat>, weather: nat -> Weather, n: nat, p: nat)
    requires WellFormed(s) && p < n <= |batch| && Within(batch, |s.tasks|) && Distinct(batch)
    ensures AfterAttempts(settings, s, batch, weather, n).tasks[batch[p]] ==
            Settle(s.tasks[batch[p]], ReplyAt(settings, s, batch, weather, p),
                   weather(p).finishedAt, settings.backoffFactor)
  {
    OwnAttemptSettles(settings, s, batch, weather, p);
    RowAfterAttempt(settings, s, batch, weather, n, p);
  }

  /** The failed_syncs table after k attempts of a batch. */
  function LogAt(settings: Settings, s: System, batch: seq<nat>, weather: nat -> Weather, k: nat): seq<FailedSync>
    requires WellFormed(s) && Within(batch, |s.tasks|)
  {
    AfterAttempts(settings, s, batch, weather, if k <= |batch| then k else 0).failedSyncs
  }

  function LogHistory(settings: Settings, s: System, batch: seq<nat>, weather: nat -> Weather): nat -> seq<FailedSync>
    requires WellFormed(s) && Within(batch, |s.tasks|)
  {
    (k: nat) => LogAt(settings, s, batch, weather, k)
  }

  lemma AttemptAppends(settings: Settings, s: System, batch: seq<nat>, weather: nat -> Weather, k: nat)
    requires WellFormed(s) && k < |batch| && Within(batch, |s.tasks|)
    ensures Appends(LogHistory(settings, s, batch, weather), FailureParts(settings, s, batch, weather), k)
  {
  }

  lemma AttemptsLog(settings: Settings, s: System, batch: seq<nat>, weather: nat -> Weather, n: nat)
    requires WellFormed(s) && n <= |batch| && Within(batch, |s.tasks|)
    ensures AfterAttempts(settings, s, batch, weather, n).failedSyncs ==
            s.failedSyncs + FailureLog(settings, s, batch, weather, n)
  {
    var log, part := LogHistory(settings, s, batch, weather), FailureParts(settings, s, batch, weather);
    forall k: nat | k < n ensures Appends(log, part, k) {
      AttemptAppends(settings, s, batch, weather, k);
    }
    LogJoined(log, part, n);
    assert log(n) == LogAt(settings, s, batch, weather, n) && log(0) == LogAt(settings, s, batch, weather, 0);
  }

  /** What a cycle makes of the row at position p of its batch. */
  lemma CycleOnBatch(settings: Settings, s: System, now: int, weather: nat -> Weather, commits: nat, p: nat)
    requires WellFormed(s) && p < |EligibleIds(s.tasks, now)|
    ensures var batch := EligibleIds(s.tasks, now);
            Cycle(settings, s, now, weather, commits).tasks[batch[p]] ==
            if p < commits
            then Settle(Claimed(s.tasks[batch[p]]), ReplyAt(settings, ClaimBatch(s, now), batch, weather, p),
                        weather(p).finishedAt, settings.backoffFactor)
            else Claimed(s.tasks[batch[p]])
  {
    var batch := EligibleIds(s.tasks, now);
    var n := CommitCount(batch, commits);
    if p < commits {
      AttemptSettles(settings, ClaimBatch(s, now), batch, weather, n, p);
    } else {
      AttemptsLeaveOthers(settings, ClaimBatch(s, now), batch, weather, n, batch[p]);
    }
  }

  lemma CycleOffBatch(settings: Settings, s: System, now: int, weather: nat -> Weather, commits: nat, i: nat)
    requires WellFormed(s) && i < |s.tasks| && !Eligible(s.tasks[i], now)
    ensures Cycle(settings, s, now, weather, commits).tasks[i] == s.tasks[i]
  {
    var batch := EligibleIds(s.tasks, now);
    AttemptsLeaveOthers(settings, ClaimBatch(s, now), batch, weather, CommitCount(batch, commits), i);
  }

  lemma CycleLog(settings: Settings, s: System, now: int, weather: nat -> Weather, commits: nat)
    requires WellFormed(s)
    ensures var batch := EligibleIds(s.tasks, now);
            Cycle(settings, s, now, weather, commits).failedSyncs ==
            s.failedSyncs + FailureLog(settings, ClaimBatch(s, now), batch, weather, CommitCount(batch, commits))
  {
    var batch := EligibleIds(s.tasks, now);
    AttemptsLog(settings, ClaimBatch(s, now), batch, weather, CommitCount(batch, commits));
  }
}
