/** The worker's polling cycle. */
module Worker {
  import opened Basics
  import opened Records
  import opened Crm
  import opened Dispatcher
  import opened Queue
  import opened Database

  /** The select of the cycle: PENDING rows, and FAILED rows with retries left whose backoff is over. */
  method SelectEligible(db: Store, now: int) returns (batch: seq<nat>)
    ensures batch == EligibleIds(db.tasks, now)
  {
    batch := [];
    for i := 0 to |db.tasks|
      invariant batch == EligibleAmong(db.tasks, now, i)
    {
      var t := db.tasks[i];
      if t.status == Pending || (t.status == Failed && t.retryCount < t.maxRetries && t.nextRetryAt <= now) {
        batch := batch + [i];
      }
    }
  }

  /** Marks the selected rows PROCESSING. */
  method ClaimTasks(db: Store, batch: seq<nat>)
    requires Within(batch, |db.tasks|)
    modifies db`tasks
    ensures db.tasks == Claim(old(db.tasks), batch)
  {
    for p := 0 to |batch|
      invariant |db.tasks| == |old(db.tasks)|
      invariant forall i :: 0 <= i < |db.tasks| ==>
                  db.tasks[i] == if i in batch[..p] then Claimed(old(db.tasks)[i]) else old(db.tasks)[i]
    {
      assert batch[..p + 1] == batch[..p] + [batch[p]];
      db.tasks := db.tasks[batch[p] := db.tasks[batch[p]].(status := Processing)];
    }
    assert batch[..|batch|] == batch;
  }

  /** The dispatch of one claimed row, before its result is committed. */
  method DispatchTask(db: Store, settings: Settings, id: nat, faults: nat -> Outcome) returns (reply: Reply)
    requires WellFormed(db.State()) && id < |db.tasks|
    modifies db`accounts
    ensures (db.accounts, reply) == Dispatched(settings, old(db.State()), id, faults)
  {
    var t := db.tasks[id];
    if t.integration in db.integrations {
      var g := db.integrations[t.integration];
      var client := new Client(db.accounts[g.account], faults);
      reply := Dispatch(settings, client, Some(g), db.optOuts[t.optOut].identifier);
      db.accounts := db.accounts[g.account := client.account];
    } else {
      reply := FirstCall(settings, None).reply;
    }
  }

  /** The commit of one attempt: success completes the row; failure counts a retry, logs it, and
      either gives up or schedules the next attempt after an exponential backoff. */
  method CommitResult(db: Store, settings: Settings, id: nat, reply: Reply, at: int)
    requires id < |db.tasks|
    modifies db`tasks, db`failedSyncs
    ensures db.tasks == old(db.tasks)[id := Settle(old(db.tasks)[id], reply, at, settings.backoffFactor)]
    ensures db.failedSyncs == old(db.failedSyncs) + Failures(id, old(db.tasks)[id], reply)
    ensures var before, t := old(db.tasks)[id], db.tasks[id];
            if reply.Success? then
              t == before.(status := Completed, lastError := None) && db.failedSyncs == old(db.failedSyncs)
            else
              t == before.(retryCount := before.retryCount + 1, lastError := Some(reply.error), status := t.status,
                           nextRetryAt := t.nextRetryAt) &&
              (t.status == MaxRetriesExceeded || t.status == Failed) &&
              (t.status == MaxRetriesExceeded <==> t.retryCount >= t.maxRetries) &&
              (t.status == Failed ==> t.nextRetryAt == at + settings.backoffFactor * Pow2(t.retryCount)) &&
              db.failedSyncs == old(db.failedSyncs) + [FailedSync(id, reply.error, t.retryCount, t.maxRetries)]
  {
    var t := db.tasks[id];
    match reply {
      case Success =>
        t := t.(status := Completed, lastError := None);
      case Failure(error) =>
        t := t.(retryCount := t.retryCount + 1, lastError := Some(error));
        db.failedSyncs := db.failedSyncs + [FailedSync(id, error, t.retryCount, t.maxRetries)];
        if t.retryCount >= t.maxRetries {
          t := t.(status := MaxRetriesExceeded);
        } else {
          t := t.(status := Failed, nextRetryAt := at + settings.backoffFactor * Pow2(t.retryCount));
        }
    }
    db.tasks := db.tasks[id := t];
  }

  /** One task in its own transaction. */
  method AttemptTask(db: Store, settings: Settings, id: nat, weather: Weather)
    requires WellFormed(db.State()) && id < |db.tasks|
    modifies db
    ensures db.State() == Attempt(settings, old(db.State()), id, weather)
  {
    var reply := DispatchTask(db, settings, id, weather.faults);
    CommitResult(db, settings, id, reply, weather.finishedAt);
  }

  /** The claimed rows, one after the other, up to the given number of commits. */
  method AttemptTasks(db: Store, settings: Settings, batch: seq<nat>, weather: nat -> Weather, n: nat)
    requires WellFormed(db.State()) && n <= |batch| && Within(batch, |db.tasks|)
    modifies db
    ensures db.State() == AfterAttempts(settings, old(db.State()), batch, weather, n)
  {
    ghost var start := db.State();
    for p := 0 to n
      invariant db.State() == AfterAttempts(settings, start, batch, weather, p)
    {
      AttemptTask(db, settings, batch[p], weather(p));
    }
  }

  /** One polling cycle; the process dies after `commits` commits unless the batch is shorter,
      possibly with the requests of one more attempt already sent. */
  method ProcessPendingTasks(db: Store, settings: Settings, now: int, weather: nat -> Weather, commits: nat)
    requires WellFormed(db.State())
    modifies db
    ensures db.State() == Cycle(settings, old(db.State()), now, weather, commits)
  {
    ghost var start := db.State();
    var batch := SelectEligible(db, now);
    ClaimTasks(db, batch);
    assert db.State() == ClaimBatch(start, now);
    var n := CommitCount(batch, commits);
    AttemptTasks(db, settings, batch, weather, n);
    if n < |batch| {
      var reply := DispatchTask(db, settings, batch[n], weather(n).faults);
    }
  }
}
