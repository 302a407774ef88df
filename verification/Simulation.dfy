/** A polling cycle of one worker is a run of the transition system. */
module Simulation {
  import opened Basics
  import opened Records
  import opened Crm
  import opened Dispatcher
  import opened Queue
  import opened Machine

  function CallInFlight(batch: seq<nat>, row: Task, target: Option<Integration>, call: Call): Worker {
    Attempting(batch, Flight(row, target, call))
  }

  /** Only the accounts, worker p and the history differ. */
  predicate SameBut(w: World, r: World, p: nat) {
    r.now == w.now && r.sys == w.sys.(accounts := r.sys.accounts) &&
    p < |w.workers| && p < |r.workers| && r.workers == w.workers[p := r.workers[p]]
  }

  lemma SameButChain(w: World, m: World, r: World, p: nat)
    requires SameBut(w, m, p) && SameBut(m, r, p)
    ensures SameBut(w, r, p)
  {
  }

  lemma RequestFacts(w: World, p: nat, batch: seq<nat>, row: Task, g: Integration, call: Call, outcome: Outcome)
    requires Shape(w) && p < |w.workers| && !call.Done?
    requires w.workers[p] == CallInFlight(batch, row, Some(g), call)
    ensures row.optOut < |w.sys.optOuts| && g.account < |w.sys.accounts|
    ensures var (a, next) := Step(w.sys.accounts[g.account], call, w.sys.optOuts[row.optOut].identifier, outcome);
            var r := RequestStep(w, p, outcome);
            SameBut(w, r, p) && r.sys.accounts == w.sys.accounts[g.account := a] &&
            r.workers[p] == CallInFlight(batch, row, Some(g), next)
  {
    assert WorkerShape(w.sys, w.workers[p]);
  }

  /** One request of a dispatch. */
  lemma RequestReaches(settings: Settings, start: World, w: World, p: nat, batch: seq<nat>, row: Task,
                       g: Integration, call: Call, outcome: Outcome)
    returns (r: World)
    requires Reached(settings, start, w) && p < |w.workers| && !call.Done?
    requires w.workers[p] == CallInFlight(batch, row, Some(g), call)
    requires row.optOut < |w.sys.optOuts| && g.account < |w.sys.accounts|
    ensures Reached(settings, start, r) && SameBut(w, r, p)
    ensures var (a, next) := Step(w.sys.accounts[g.account], call, w.sys.optOuts[row.optOut].identifier, outcome);
            r.sys.accounts == w.sys.accounts[g.account := a] &&
            r.workers[p] == CallInFlight(batch, row, Some(g), next)
  {
    RequestFacts(w, p, batch, row, g, call, outcome);
    r := TakeStep(settings, start, w, Request(p, outcome));
  }

  /** The states of the account and of the dispatch, request by request. */
  ghost predicate Trace(states: seq<(Account, Call)>, identifier: string, faults: nat -> Outcome, n: nat) {
    states != [] &&
    forall k: nat :: k + 1 < |states| ==>
      !states[k].1.Done? && states[k + 1] == Step(states[k].0, states[k].1, identifier, faults(n + k))
  }

  lemma {:induction false} FinishTrace(a: Account, call: Call, identifier: string, faults: nat -> Outcome, n: nat)
    returns (states: seq<(Account, Call)>)
    ensures Trace(states, identifier, faults, n) && states[0] == (a, call)
    ensures var (b, reply) := Finish(a, call, identifier, faults, n); states[|states| - 1] == (b, Done(reply))
    decreases CallsLeft(call)
  {
    states := [(a, call)];
    if !call.Done? {
      var (b, next) := Step(a, call, identifier, faults(n));
      var rest := FinishTrace(b, next, identifier, faults, n + 1);
      states := states + rest;
      forall k: nat | k + 1 < |states|
        ensures !states[k].1.Done? && states[k + 1] == Step(states[k].0, states[k].1, identifier, faults(n + k))
      {
        if k > 0 {
          assert states[k] == rest[k - 1] && states[k + 1] == rest[k - 1 + 1];
          assert n + k == n + 1 + (k - 1);
        }
      }
    }
  }

  /** The first k requests of a dispatch. */
  lemma {:induction false} RequestsReach(settings: Settings, start: World, w: World, p: nat, batch: seq<nat>, row: Task,
                                         g: Integration, states: seq<(Account, Call)>, faults: nat -> Outcome, k: nat)
    returns (r: World)
    requires Reached(settings, start, w) && p < |w.workers|
    requires row.optOut < |w.sys.optOuts| && g.account < |w.sys.accounts|
    requires Trace(states, w.sys.optOuts[row.optOut].identifier, faults, 0) && k < |states|
    requires w.sys.accounts[g.account] == states[0].0
    requires w.workers[p] == CallInFlight(batch, row, Some(g), states[0].1)
    ensures Reached(settings, start, r) && SameBut(w, r, p)
    ensures r.sys.accounts == w.sys.accounts[g.account := states[k].0]
    ensures r.workers[p] == CallInFlight(batch, row, Some(g), states[k].1)
  {
    if k == 0 {
      r := w;
    } else {
      var m := RequestsReach(settings, start, w, p, batch, row, g, states, faults, k - 1);
      assert states[k - 1 + 1] == Step(states[k - 1].0, states[k - 1].1, w.sys.optOuts[row.optOut].identifier,
                                       faults(0 + (k - 1)));
      r := RequestReaches(settings, start, m, p, batch, row, g, states[k - 1].1, faults(k - 1));
      SameButChain(w, m, r, p);
    }
  }

  /** Load the first row of the batch and dispatch it. */
  lemma DispatchReaches(settings: Settings, start: World, w: World, p: nat, batch: seq<nat>, faults: nat -> Outcome)
    returns (r: World)
    requires Reached(settings, start, w) && p < |w.workers| && w.workers[p] == Running(batch) && batch != []
    requires batch[0] < |w.sys.tasks|
    ensures Reached(settings, start, r) && SameBut(w, r, p)
    ensures var (accounts, reply) := Dispatched(settings, w.sys, batch[0], faults);
            r.sys.accounts == accounts &&
            r.workers[p] == CallInFlight(batch, w.sys.tasks[batch[0]], TargetOf(w.sys, w.sys.tasks[batch[0]]),
                                         Done(reply))
  {
    r := TakeStep(settings, start, w, Load(p));
    var row := w.sys.tasks[batch[0]];
    match TargetOf(w.sys, row)
    case None =>
    case Some(g) =>
      var states := FinishTrace(w.sys.accounts[g.account], FirstCall(settings, Some(g)),
                                w.sys.optOuts[row.optOut].identifier, faults, 0);
      r := RequestsReach(settings, start, r, p, batch, row, g, states, faults, |states| - 1);
  }

  lemma MergeSame(t: Task, updated: Task)
    requires updated.optOut == t.optOut && updated.integration == t.integration && updated.maxRetries == t.maxRetries
    ensures Merge(t, t, updated) == updated
  {
  }

  lemma CommitFacts(settings: Settings, w: World, p: nat, batch: seq<nat>, target: Option<Integration>, reply: Reply)
    requires Shape(w) && p < |w.workers| && batch != [] && batch[0] < |w.sys.tasks|
    requires w.workers[p] == CallInFlight(batch, w.sys.tasks[batch[0]], target, Done(reply))
    ensures var id, t, r := batch[0], w.sys.tasks[batch[0]], CommitStep(settings, w, p);
            r.now == w.now && r.workers == w.workers[p := WithLeft(batch[1..])] &&
            r.sys == w.sys.(tasks := w.sys.tasks[id := Settle(t, reply, w.now, settings.backoffFactor)],
                            failedSyncs := w.sys.failedSyncs + Failures(id, t, reply))
  {
    MergeSame(w.sys.tasks[batch[0]], Settle(w.sys.tasks[batch[0]], reply, w.now, settings.backoffFactor));
  }

  /** The commit, after the time the attempt took. */
  lemma CommitReaches(settings: Settings, start: World, w: World, p: nat, batch: seq<nat>,
                      target: Option<Integration>, reply: Reply, at: int)
    returns (r: World)
    requires Reached(settings, start, w) && p < |w.workers| && batch != [] && batch[0] < |w.sys.tasks|
    requires w.workers[p] == CallInFlight(batch, w.sys.tasks[batch[0]], target, Done(reply)) && at >= w.now
    ensures Reached(settings, start, r) && r.now == at && r.workers == w.workers[p := WithLeft(batch[1..])]
    ensures var id, t := batch[0], w.sys.tasks[batch[0]];
            r.sys == w.sys.(tasks := w.sys.tasks[id := Settle(t, reply, at, settings.backoffFactor)],
                            failedSyncs := w.sys.failedSyncs + Failures(id, t, reply))
  {
    r := TakeStep(settings, start, w, Tick(at - w.now));
    CommitFacts(settings, r, p, batch, target, reply);
    r := TakeStep(settings, start, r, CommitAttempt(p));
  }

  /** One attempt of the cycle: load, requests, commit. */
  lemma AttemptReaches(settings: Settings, start: World, w: World, p: nat, batch: seq<nat>, weather: Weather)
    returns (r: World)
    requires Reached(settings, start, w) && p < |w.workers| && w.workers[p] == Running(batch) && batch != []
    requires batch[0] < |w.sys.tasks| && weather.finishedAt >= w.now
    ensures Reached(settings, start, r) && r.sys == Attempt(settings, w.sys, batch[0], weather)
    ensures r.now == weather.finishedAt && r.workers == w.workers[p := WithLeft(batch[1..])]
  {
    r := DispatchReaches(settings, start, w, p, batch, weather.faults);
    r := CommitReaches(settings, start, r, p, batch, TargetOf(w.sys, w.sys.tasks[batch[0]]),
                       Dispatched(settings, w.sys, batch[0], weather.faults).1, weather.finishedAt);
  }

  /** An attempt cut off by a crash before its commit. */
  lemma InterruptReaches(settings: Settings, start: World, w: World, p: nat, batch: seq<nat>, faults: nat -> Outcome)
    returns (r: World)
    requires Reached(settings, start, w) && p < |w.workers| && w.workers[p] == Running(batch) && batch != []
    requires batch[0] < |w.sys.tasks|
    ensures Reached(settings, start, r) && r.workers == w.workers[p := Idle]
    ensures r.sys == w.sys.(accounts := Dispatched(settings, w.sys, batch[0], faults).0)
  {
    r := DispatchReaches(settings, start, w, p, batch, faults);
    r := TakeStep(settings, start, r, Abandon(p));
  }

  /** The clock does not run backwards during the cycle. */
  ghost predicate Forward(now: int, weather: nat -> Weather) {
    now <= weather(0).finishedAt && forall k: nat :: weather(k).finishedAt <= weather(k + 1).finishedAt
  }

  function ClockAfter(now: int, weather: nat -> Weather, n: nat): int {
    if n == 0 then now else weather(n - 1).finishedAt
  }

  lemma ClockStep(now: int, weather: nat -> Weather, n: nat)
    requires Forward(now, weather)
    ensures ClockAfter(now, weather, n) <= weather(n).finishedAt
  {
    assert n >= 1 ==> weather(n - 1).finishedAt <= weather(n - 1 + 1).finishedAt;
  }

  /** World r, reached from start, is where a batch begun in s by worker p stands after n attempts. */
  ghost predicate Progress(settings: Settings, start: World, s: System, now: int, r: World, p: nat, batch: seq<nat>,
                           weather: nat -> Weather, n: nat)
    requires WellFormed(s) && n <= |batch| && Within(batch, |s.tasks|) && p < |start.workers|
  {
    Reached(settings, start, r) && r.sys == AfterAttempts(settings, s, batch, weather, n) &&
    r.now == ClockAfter(now, weather, n) && r.workers == start.workers[p := WithLeft(batch[n..])]
  }

  lemma NextAttemptReaches(settings: Settings, start: World, s: System, now: int, w: World, p: nat, batch: seq<nat>,
                           weather: nat -> Weather, n: nat)
    returns (r: World)
    requires WellFormed(s) && n < |batch| && Within(batch, |s.tasks|) && p < |start.workers| && Forward(now, weather)
    requires Progress(settings, start, s, now, w, p, batch, weather, n)
    ensures Progress(settings, start, s, now, r, p, batch, weather, n + 1)
  {
    ClockStep(now, weather, n);
    assert batch[n..][1..] == batch[n + 1..];
    r := AttemptReaches(settings, start, w, p, batch[n..], weather(n));
  }

  lemma {:induction false} AttemptsReach(settings: Settings, start: World, w: World, p: nat, batch: seq<nat>,
                                         weather: nat -> Weather, n: nat)
    returns (r: World)
    requires n <= |batch| && Within(batch, |w.sys.tasks|) && p < |start.workers| && Forward(w.now, weather)
    requires WellFormed(w.sys) && Progress(settings, start, w.sys, w.now, w, p, batch, weather, 0)
    ensures Progress(settings, start, w.sys, w.now, r, p, batch, weather, n)
  {
    r := w;
    if n > 0 {
      r := AttemptsReach(settings, start, w, p, batch, weather, n - 1);
      r := NextAttemptReaches(settings, start, w.sys, w.now, r, p, batch, weather, n - 1);
    }
  }

  lemma ClaimReaches(settings: Settings, w: World, p: nat) returns (r: World)
    requires Shape(w) && p < |w.workers| && w.workers[p].Idle?
    ensures Reached(settings, w, r) && r.sys == ClaimBatch(w.sys, w.now) && r.now == w.now
    ensures r.workers == w.workers[p := WithLeft(EligibleIds(w.sys.tasks, w.now))]
  {
    ReachesSelf(settings, w);
    r := TakeStep(settings, w, w, Select(p));
    if EligibleIds(w.sys.tasks, w.now) == [] {
      assert ClaimBatch(w.sys, w.now) == w.sys;
    } else {
      r := TakeStep(settings, w, r, CommitClaim(p));
    }
  }

  /** Every cycle, complete or cut off by a crash, is a run that starts and ends with the worker
      idle and leaves the other workers alone. */
  lemma CycleIsARun(settings: Settings, w: World, p: nat, weather: nat -> Weather, commits: nat) returns (r: World)
    requires Shape(w) && p < |w.workers| && w.workers[p].Idle? && Forward(w.now, weather)
    ensures Reached(settings, w, r) && r.workers == w.workers
    ensures r.sys == Cycle(settings, w.sys, w.now, weather, commits)
  {
    var batch := EligibleIds(w.sys.tasks, w.now);
    var n := CommitCount(batch, commits);
    var claimed := ClaimReaches(settings, w, p);
    assert batch[0..] == batch;
    r := AttemptsReach(settings, w, claimed, p, batch, weather, n);
    r := EndOfCycle(settings, w, claimed.sys, w.now, r, p, batch, weather, n);
  }

  lemma EndOfCycle(settings: Settings, start: World, s: System, now: int, w: World, p: nat, batch: seq<nat>,
                   weather: nat -> Weather, n: nat)
    returns (r: World)
    requires WellFormed(s) && n <= |batch| && Within(batch, |s.tasks|)
    requires p < |start.workers| && start.workers[p].Idle?
    requires Progress(settings, start, s, now, w, p, batch, weather, n)
    ensures Reached(settings, start, r) && r.workers == start.workers
    ensures var done := AfterAttempts(settings, s, batch, weather, n);
            r.sys == if n == |batch| then done
                     else done.(accounts := Dispatched(settings, done, batch[n], weather(n).faults).0)
  {
    r := w;
    if n < |batch| {
      assert batch[n..][0] == batch[n];
      r := InterruptReaches(settings, start, w, p, batch[n..], weather(n).faults);
    }
  }
}
