/**
 Retries seen from the CRM: through any run of cycles, with failing requests, lost responses
 and crashes, a task leaves its account either untouched or exactly as one clean dispatch
 would, and in the second case once it is COMPLETED.
 */
module Convergence {
  import opened Basics
  import opened Records
  import opened Crm
  import opened Dispatcher
  import opened Queue
  import opened Runs
  import opened Marks

  /** The task, its integration and account, and the account's state when the task was staged. */
  datatype Delivery = Delivery(task: nat, integration: nat, account: nat, start: Call, identifier: string,
                               base: Account)

  /** No other task's integration reaches the account. */
  predicate AloneOn(s: System, d: Delivery) {
    forall j :: 0 <= j < |s.tasks| ==> Elsewhere(s, d, j)
  }

  predicate Elsewhere(s: System, d: Delivery, j: nat)
    requires j < |s.tasks|
  {
    var g := s.tasks[j].integration;
    g < s.nextIntegration && (j != d.task && g in s.integrations ==> s.integrations[g].account != d.account)
  }

  /** The task is dispatched by the protocol d.start, to the account, which nobody else writes. */
  predicate Routed(settings: Settings, s: System, d: Delivery) {
    d.task < |s.tasks| && s.tasks[d.task].integration == d.integration && d.integration in s.integrations &&
    s.integrations[d.integration].account == d.account < |s.accounts| &&
    IsSearchStart(d.start) && FirstCall(settings, Some(s.integrations[d.integration])) == d.start &&
    s.tasks[d.task].optOut < |s.optOuts| && s.optOuts[s.tasks[d.task].optOut].identifier == d.identifier &&
    AloneOn(s, d)
  }

  /** The routing depends on the keys of the tasks and on the registry only. */
  lemma SameKeysRouted(settings: Settings, s: System, r: System, d: Delivery)
    requires Routed(settings, s, d) && SameRegistry(r, s)
    requires forall j :: 0 <= j < |s.tasks| ==>
               r.tasks[j].integration == s.tasks[j].integration && r.tasks[j].optOut == s.tasks[j].optOut
    ensures Routed(settings, r, d)
  {
    forall j | 0 <= j < |r.tasks| ensures Elsewhere(r, d, j) {
      assert Elsewhere(s, d, j);
    }
  }

  lemma {:induction false} AttemptsKeepKeys(settings: Settings, s: System, batch: seq<nat>, weather: nat -> Weather,
                                            n: nat, j: nat)
    requires WellFormed(s) && n <= |batch| && Within(batch, |s.tasks|) && j < |s.tasks|
    ensures var r := AfterAttempts(settings, s, batch, weather, n);
            r.tasks[j].integration == s.tasks[j].integration && r.tasks[j].optOut == s.tasks[j].optOut
  {
    if n > 0 {
      AttemptsKeepKeys(settings, s, batch, weather, n - 1, j);
    }
  }

  lemma RoutedInBatch(settings: Settings, s: System, now: int, weather: nat -> Weather, n: nat, d: Delivery)
    requires WellFormed(s) && Routed(settings, s, d) && n <= |EligibleIds(s.tasks, now)|
    ensures Routed(settings, AfterAttempts(settings, ClaimBatch(s, now), EligibleIds(s.tasks, now), weather, n), d)
  {
    var claimed, batch := ClaimBatch(s, now), EligibleIds(s.tasks, now);
    var r := AfterAttempts(settings, claimed, batch, weather, n);
    forall j | 0 <= j < |s.tasks|
      ensures r.tasks[j].integration == s.tasks[j].integration && r.tasks[j].optOut == s.tasks[j].optOut
    {
      AttemptsKeepKeys(settings, claimed, batch, weather, n, j);
    }
    SameKeysRouted(settings, s, r, d);
  }

  // ---------------------------------------------------------------- only its own delivery reaches the account

  function Own(d: Delivery): Mark
    requires IsSearchStart(d.start)
  {
    Mark(d.start, d.identifier)
  }

  lemma AttemptMarksOwn(settings: Settings, s: System, id: nat, faults: nat -> Outcome, d: Delivery, m: Mark)
    requires WellFormed(s) && id < |s.tasks| && Routed(settings, s, d)
    requires m in AttemptMarks(settings, s, id, faults, d.account)
    ensures m == Own(d)
  {
    assert Elsewhere(s, d, id);
  }

  lemma CycleMarksOwn(settings: Settings, s: System, now: int, weather: nat -> Weather, commits: nat,
                      d: Delivery, m: Mark)
    requires WellFormed(s) && Routed(settings, s, d) && m in CycleMarks(settings, s, now, weather, commits, d.account)
    ensures m == Own(d)
  {
    var batch, claimed := EligibleIds(s.tasks, now), ClaimBatch(s, now);
    var k := CommitCount(batch, commits);
    if m in BatchMarks(settings, claimed, batch, weather, k, d.account) {
      k := JoinedHasPart(Parts(settings, claimed, batch, weather, d.account), k, m);
    }
    RoutedInBatch(settings, s, now, weather, k, d);
    AttemptMarksOwn(settings, AfterAttempts(settings, claimed, batch, weather, k), batch[k], weather(k).faults, d, m);
  }

  /** The step ingests nothing and leaves the task's integration as it is. */
  predicate Undisturbing(op: Op, integration: nat) {
    match op
    case IngestOp(_, _, _) => false
    case ToggleOp(id, _) => id != integration
    case DeleteOp(id) => id != integration
    case _ => true
  }

  lemma StepKeepsRouted(settings: Settings, s: System, op: Op, d: Delivery)
    requires WellFormed(s) && Routed(settings, s, d) && Undisturbing(op, d.integration)
    ensures Routed(settings, Apply(settings, s, op), d)
  {
    var r := Apply(settings, s, op);
    forall j | 0 <= j < |s.tasks| ensures Elsewhere(s, d, j) && j < |r.tasks| &&
      r.tasks[j].integration == s.tasks[j].integration && r.tasks[j].optOut == s.tasks[j].optOut
    {
      assert Elsewhere(s, d, j);
      RowKeepsKeys(settings, s, op, j);
    }
    if op.CycleOp? {
      SameKeysRouted(settings, s, r, d);
    } else {
      forall j | 0 <= j < |r.tasks| ensures Elsewhere(r, d, j) {
        assert Elsewhere(s, d, j);
      }
    }
  }

  predicate AllUndisturbing(ops: seq<Op>, integration: nat) {
    forall k :: 0 <= k < |ops| ==> Undisturbing(ops[k], integration)
  }

  lemma {:induction false} RunMarksOwn(settings: Settings, s: System, ops: seq<Op>, d: Delivery, m: Mark)
    requires WellFormed(s) && Routed(settings, s, d) && AllUndisturbing(ops, d.integration)
    requires m in RunMarks(settings, s, ops, d.account)
    ensures m == Own(d)
    decreases |ops|
  {
    var op := ops[0];
    if m in OpMarks(settings, s, op, d.account) {
      CycleMarksOwn(settings, s, op.now, op.weather, op.commits, d, m);
    } else {
      StepKeepsRouted(settings, s, op, d);
      RunMarksOwn(settings, Apply(settings, s, op), ops[1..], d, m);
    }
  }

  /** A task that ends COMPLETED was completed by its own delivery at some point of the run. */
  lemma {:induction false} CompletionIsOwn(settings: Settings, s: System, ops: seq<Op>, d: Delivery)
    requires WellFormed(s) && Routed(settings, s, d) && AllUndisturbing(ops, d.integration)
    requires s.tasks[d.task].status != Completed
    requires d.task < |Run(settings, s, ops).tasks| && Run(settings, s, ops).tasks[d.task].status == Completed
    ensures CompletedBy(settings, s, ops, d.task, d.account, Own(d))
    decreases |ops|
  {
    var r := Apply(settings, s, ops[0]);
    StepKeepsRouted(settings, s, ops[0], d);
    if r.tasks[d.task].status != Completed {
      CompletionIsOwn(settings, r, ops[1..], d);
    } else if !Selects(s, ops[0], d.task) {
      RowUntouched(settings, s, ops[0], d.task);
    }
  }

  /** Deliveries of one mark only: none, or the same as one. */
  lemma {:induction false} SameMarks(a: Account, marks: seq<Mark>, m: Mark)
    requires forall k :: 0 <= k < |marks| ==> marks[k] == m
    ensures ApplyMarks(a, marks) == if marks == [] then a else ApplyMark(a, m)
  {
    if marks != [] {
      SameMarks(a, marks[..|marks| - 1], m);
      MarkedIdempotent(a, m.start, m.identifier);
    }
  }

  lemma {:induction false} RunKeepsTask(settings: Settings, s: System, ops: seq<Op>, i: nat)
    requires WellFormed(s) && i < |s.tasks|
    ensures i < |Run(settings, s, ops).tasks|
    decreases |ops|
  {
    if ops != [] {
      RowKeepsKeys(settings, s, ops[0], i);
      RunKeepsTask(settings, Apply(settings, s, ops[0]), ops[1..], i);
    }
  }

  /** Whatever requests fail, before or after taking effect, and wherever cycles crash: the account
      ends up untouched or exactly as after one clean dispatch, and if the task ends COMPLETED it
      is the latter. */
  lemma DeliveredOnceExactly(settings: Settings, s: System, d: Delivery, ops: seq<Op>)
    requires WellFormed(s) && Routed(settings, s, d)
    requires d.base == s.accounts[d.account] && s.tasks[d.task].status != Completed
    requires AllUndisturbing(ops, d.integration)
    ensures var r := Run(settings, s, ops);
            var done := Marked(d.base, d.start, d.identifier);
            d.task < |r.tasks| && d.account < |r.accounts| &&
            (r.accounts[d.account] == d.base || r.accounts[d.account] == done) &&
            (r.tasks[d.task].status == Completed ==> r.accounts[d.account] == done)
  {
    var marks := RunMarks(settings, s, ops, d.account);
    AccountIsMarks(settings, s, ops, d.account);
    forall k | 0 <= k < |marks| ensures marks[k] == Own(d) {
      RunMarksOwn(settings, s, ops, d, marks[k]);
    }
    SameMarks(d.base, marks, Own(d));
    RunKeepsTask(settings, s, ops, d.task);
    if Run(settings, s, ops).tasks[d.task].status == Completed {
      CompletionIsOwn(settings, s, ops, d);
      CompletedIsMarked(settings, s, ops, d.task, d.account, Own(d));
    }
  }
}
