/**
 What a run of the queue does to a shared CRM account, with any number of opt-outs and tasks,
 faults, crashes and administration: exactly a sequence of clean deliveries, in which every
 completed delivery occurs, and which never duplicates a record.
 */
module Marks {
  import opened Basics
  import opened Records
  import opened Crm
  import opened Dispatcher
  import opened Queue
  import opened Runs

  type SearchStart = c: Call | IsSearchStart(c) witness HsSearch

  /** The clean delivery of an identifier by one of the two search-then-write protocols. */
  datatype Mark = Mark(start: SearchStart, identifier: string)

  function ApplyMark(a: Account, m: Mark): Account {
    Marked(a, m.start, m.identifier)
  }

  function ApplyMarks(a: Account, marks: seq<Mark>): Account {
    if marks == [] then a else ApplyMark(ApplyMarks(a, marks[..|marks| - 1]), marks[|marks| - 1])
  }

  lemma {:induction false} ApplyConcat(a: Account, x: seq<Mark>, y: seq<Mark>)
    ensures ApplyMarks(a, x + y) == ApplyMarks(ApplyMarks(a, x), y)
  {
    if y == [] {
      assert x + y == x;
    } else {
      assert (x + y)[..|x + y| - 1] == x + y[..|y| - 1];
      ApplyConcat(a, x, y[..|y| - 1]);
    }
  }

  /** Account k + 1 is account k with part k applied. */
  predicate Follows(account: nat -> Account, part: nat -> seq<Mark>, k: nat) {
    account(k + 1) == ApplyMarks(account(k), part(k))
  }

  lemma {:induction false} AccountsJoined(account: nat -> Account, part: nat -> seq<Mark>, n: nat)
    requires forall k: nat :: k < n ==> Follows(account, part, k)
    ensures account(n) == ApplyMarks(account(0), Joined(part, n))
  {
    if n == 0 {
      assert ApplyMarks(account(0), []) == account(0);
    } else {
      AccountsJoined(account, part, n - 1);
      assert Follows(account, part, n - 1);
      ApplyConcat(account(0), Joined(part, n - 1), part(n - 1));
    }
  }

  lemma ApplyOne(a: Account, m: Mark)
    ensures ApplyMarks(a, [m]) == ApplyMark(a, m)
  {
    assert [m][..0] == [];
  }

  // ---------------------------------------------------------------- the deliveries of a run

  /** Whether a dispatch of the protocol delivered: it changed the account or reported success. */
  predicate Delivers(a: Account, call: Call, identifier: string, faults: nat -> Outcome) {
    Finish(a, call, identifier, faults, 0).0 != a || Finish(a, call, identifier, faults, 0).1.Success?
  }

  /** The delivery, if any, that one dispatch of row `id` makes to account g. */
  function AttemptMarks(settings: Settings, s: System, id: nat, faults: nat -> Outcome, g: nat): seq<Mark>
    requires WellFormed(s) && id < |s.tasks|
  {
    match TargetOf(s, s.tasks[id])
    case None => []
    case Some(h) =>
      var start, identifier := FirstCall(settings, Some(h)), s.optOuts[s.tasks[id].optOut].identifier;
      if h.account == g && IsSearchStart(start) && Delivers(s.accounts[g], start, identifier, faults)
      then [Mark(start, identifier)] else []
  }

  /** The delivery, if any, of the k-th attempt of a batch. */
  function MarksAt(settings: Settings, s: System, batch: seq<nat>, weather: nat -> Weather, g: nat, k: nat): seq<Mark>
    requires WellFormed(s) && Within(batch, |s.tasks|)
  {
    if k < |batch|
    then AttemptMarks(settings, AfterAttempts(settings, s, batch, weather, k), batch[k], weather(k).faults, g)
    else []
  }

  function Parts(settings: Settings, s: System, batch: seq<nat>, weather: nat -> Weather, g: nat): nat -> seq<Mark>
    requires WellFormed(s) && Within(batch, |s.tasks|)
  {
    (k: nat) => MarksAt(settings, s, batch, weather, g, k)
  }

  function BatchMarks(settings: Settings, s: System, batch: seq<nat>, weather: nat -> Weather, n: nat, g: nat)
    : seq<Mark>
    requires WellFormed(s) && n <= |batch| && Within(batch, |s.tasks|)
  {
    Joined(Parts(settings, s, batch, weather, g), n)
  }

  /** The deliveries of a cycle, the interrupted attempt of a crash included. */
  function CycleMarks(settings: Settings, s: System, now: int, weather: nat -> Weather, commits: nat, g: nat): seq<Mark>
    requires WellFormed(s)
  {
    var batch, claimed := EligibleIds(s.tasks, now), ClaimBatch(s, now);
    var n := CommitCount(batch, commits);
    BatchMarks(settings, claimed, batch, weather, n, g) +
    MarksAt(settings, claimed, batch, weather, g, n)
  }

  function OpMarks(settings: Settings, s: System, op: Op, g: nat): seq<Mark>
    requires WellFormed(s)
  {
    if op.CycleOp? then CycleMarks(settings, s, op.now, op.weather, op.commits, g) else []
  }

  function RunMarks(settings: Settings, s: System, ops: seq<Op>, g: nat): seq<Mark>
    requires WellFormed(s)
    decreases |ops|
  {
    if ops == [] then []
    else OpMarks(settings, s, ops[0], g) + RunMarks(settings, Apply(settings, s, ops[0]), ops[1..], g)
  }

  // ---------------------------------------------------------------- they are all that happens to the account

  lemma OtherCallsChangeNothing(settings: Settings, target: Option<Integration>, a: Account, identifier: string,
                                faults: nat -> Outcome)
    requires !IsSearchStart(FirstCall(settings, target))
    ensures Finish(a, FirstCall(settings, target), identifier, faults, 0).0 == a
  {
  }

  lemma DispatchIsMarks(settings: Settings, s: System, id: nat, faults: nat -> Outcome, g: nat)
    requires WellFormed(s) && id < |s.tasks| && g < |s.accounts|
    ensures Dispatched(settings, s, id, faults).0[g] ==
            ApplyMarks(s.accounts[g], AttemptMarks(settings, s, id, faults, g))
  {
    match TargetOf(s, s.tasks[id])
    case None =>
    case Some(h) =>
      var start, identifier := FirstCall(settings, Some(h)), s.optOuts[s.tasks[id].optOut].identifier;
      if h.account == g {
        if IsSearchStart(start) {
          AttemptAllOrNothing(s.accounts[g], start, identifier, faults, 0);
          ApplyOne(s.accounts[g], Mark(start, identifier));
        } else {
          OtherCallsChangeNothing(settings, Some(h), s.accounts[g], identifier, faults);
        }
      }
  }

  /** Account g after k attempts of a batch. */
  function AccountAt(settings: Settings, s: System, batch: seq<nat>, weather: nat -> Weather, g: nat, k: nat): Account
    requires WellFormed(s) && Within(batch, |s.tasks|) && g < |s.accounts|
  {
    AfterAttempts(settings, s, batch, weather, if k <= |batch| then k else 0).accounts[g]
  }

  function Accounts(settings: Settings, s: System, batch: seq<nat>, weather: nat -> Weather, g: nat): nat -> Account
    requires WellFormed(s) && Within(batch, |s.tasks|) && g < |s.accounts|
  {
    (k: nat) => AccountAt(settings, s, batch, weather, g, k)
  }

  lemma NextAccount(settings: Settings, s: System, batch: seq<nat>, weather: nat -> Weather, g: nat, k: nat)
    requires WellFormed(s) && k < |batch| && Within(batch, |s.tasks|) && g < |s.accounts|
    ensures Follows(Accounts(settings, s, batch, weather, g), Parts(settings, s, batch, weather, g), k)
  {
    DispatchIsMarks(settings, AfterAttempts(settings, s, batch, weather, k), batch[k], weather(k).faults, g);
  }

  lemma BatchIsMarks(settings: Settings, s: System, batch: seq<nat>, weather: nat -> Weather, n: nat, g: nat)
    requires WellFormed(s) && n <= |batch| && Within(batch, |s.tasks|) && g < |s.accounts|
    ensures AccountAt(settings, s, batch, weather, g, n) ==
            ApplyMarks(s.accounts[g], BatchMarks(settings, s, batch, weather, n, g))
  {
    var account, part := Accounts(settings, s, batch, weather, g), Parts(settings, s, batch, weather, g);
    forall k: nat | k < n ensures Follows(account, part, k) {
      NextAccount(settings, s, batch, weather, g, k);
    }
    AccountsJoined(account, part, n);
    assert account(0) == s.accounts[g] by {
      assert AccountAt(settings, s, batch, weather, g, 0) == s.accounts[g];
    }
  }

  lemma CycleIsMarks(settings: Settings, s: System, now: int, weather: nat -> Weather, commits: nat, g: nat)
    requires WellFormed(s) && g < |s.accounts|
    ensures Cycle(settings, s, now, weather, commits).accounts[g] ==
            ApplyMarks(s.accounts[g], CycleMarks(settings, s, now, weather, commits, g))
  {
    var batch, claimed := EligibleIds(s.tasks, now), ClaimBatch(s, now);
    var n := CommitCount(batch, commits);
    BatchIsMarks(settings, claimed, batch, weather, n, g);
    ApplyConcat(s.accounts[g], BatchMarks(settings, claimed, batch, weather, n, g),
                MarksAt(settings, claimed, batch, weather, g, n));
    if n < |batch| {
      DispatchIsMarks(settings, AfterAttempts(settings, claimed, batch, weather, n), batch[n], weather(n).faults, g);
    }
  }

  lemma OpIsMarks(settings: Settings, s: System, op: Op, g: nat)
    requires WellFormed(s) && g < |s.accounts|
    ensures g < |Apply(settings, s, op).accounts|
    ensures Apply(settings, s, op).accounts[g] == ApplyMarks(s.accounts[g], OpMarks(settings, s, op, g))
  {
    if op.CycleOp? {
      CycleIsMarks(settings, s, op.now, op.weather, op.commits, g);
    }
  }

  /** After any run the account is the one before it with the run's deliveries applied in order. */
  lemma {:induction false} AccountIsMarks(settings: Settings, s: System, ops: seq<Op>, g: nat)
    requires WellFormed(s) && g < |s.accounts|
    ensures g < |Run(settings, s, ops).accounts|
    ensures Run(settings, s, ops).accounts[g] == ApplyMarks(s.accounts[g], RunMarks(settings, s, ops, g))
    decreases |ops|
  {
    if ops != [] {
      OpIsMarks(settings, s, ops[0], g);
      AccountIsMarks(settings, Apply(settings, s, ops[0]), ops[1..], g);
      ApplyConcat(s.accounts[g], OpMarks(settings, s, ops[0], g),
                  RunMarks(settings, Apply(settings, s, ops[0]), ops[1..], g));
    }
  }

  // ---------------------------------------------------------------- every completed delivery occurs

  /** A dispatch of row i runs the protocol of the delivery on account g. */
  predicate AimsAt(settings: Settings, s: System, i: nat, g: nat, m: Mark)
    requires WellFormed(s) && i < |s.tasks|
  {
    var target := TargetOf(s, s.tasks[i]);
    target.Some? && target.value.account == g && FirstCall(settings, target) == m.start &&
    s.optOuts[s.tasks[i].optOut].identifier == m.identifier
  }

  lemma SuccessIsMark(settings: Settings, s: System, id: nat, faults: nat -> Outcome, g: nat, m: Mark)
    requires WellFormed(s) && id < |s.tasks| && g < |s.accounts| && AimsAt(settings, s, id, g, m)
    requires Dispatched(settings, s, id, faults).1.Success?
    ensures m in AttemptMarks(settings, s, id, faults, g)
  {
  }

  /** The attempts before a row's own leave its aim alone. */
  lemma AimBeforeAttempt(settings: Settings, s: System, batch: seq<nat>, weather: nat -> Weather, p: nat,
                         g: nat, m: Mark)
    requires WellFormed(s) && p < |batch| && Within(batch, |s.tasks|) && Distinct(batch)
    requires AimsAt(settings, s, batch[p], g, m)
    ensures AimsAt(settings, AfterAttempts(settings, s, batch, weather, p), batch[p], g, m)
  {
    RowBeforeAttempt(settings, s, batch, weather, p);
  }

  lemma CompletionIsMark(settings: Settings, s: System, cycle: Op, i: nat, g: nat, m: Mark)
    requires WellFormed(s) && i < |s.tasks| && g < |s.accounts| && Selects(s, cycle, i) && AimsAt(settings, s, i, g, m)
    requires Apply(settings, s, cycle).tasks[i].status == Completed
    ensures m in OpMarks(settings, s, cycle, g)
  {
    var batch, claimed := EligibleIds(s.tasks, cycle.now), ClaimBatch(s, cycle.now);
    var p: nat :| p < |batch| && batch[p] == i;
    CycleOnBatch(settings, s, cycle.now, cycle.weather, cycle.commits, p);
    AimBeforeAttempt(settings, claimed, batch, cycle.weather, p, g, m);
    SuccessIsMark(settings, AfterAttempts(settings, claimed, batch, cycle.weather, p), i, cycle.weather(p).faults,
                  g, m);
    PartInJoined(Parts(settings, claimed, batch, cycle.weather, g), CommitCount(batch, cycle.commits), p, m);
  }

  /** At some point of the run a cycle completes task i by the delivery. */
  predicate CompletedBy(settings: Settings, s: System, ops: seq<Op>, i: nat, g: nat, m: Mark)
    requires WellFormed(s)
    decreases |ops|
  {
    ops != [] &&
    ((i < |s.tasks| && Selects(s, ops[0], i) && AimsAt(settings, s, i, g, m) &&
      Apply(settings, s, ops[0]).tasks[i].status == Completed) ||
     CompletedBy(settings, Apply(settings, s, ops[0]), ops[1..], i, g, m))
  }

  lemma {:induction false} CompletedIsMarked(settings: Settings, s: System, ops: seq<Op>, i: nat, g: nat, m: Mark)
    requires WellFormed(s) && g < |s.accounts| && CompletedBy(settings, s, ops, i, g, m)
    ensures m in RunMarks(settings, s, ops, g)
    decreases |ops|
  {
    var r := Apply(settings, s, ops[0]);
    if CompletedBy(settings, r, ops[1..], i, g, m) {
      OpIsMarks(settings, s, ops[0], g);
      CompletedIsMarked(settings, r, ops[1..], i, g, m);
    } else {
      CompletionIsMark(settings, s, ops[0], i, g, m);
    }
  }

  // ---------------------------------------------------------------- nothing else is delivered

  predicate IsStored(optOuts: seq<OptOut>, identifier: string) {
    exists o :: 0 <= o < |optOuts| && optOuts[o].identifier == identifier
  }

  lemma AttemptMarksStored(settings: Settings, s: System, id: nat, faults: nat -> Outcome, g: nat, m: Mark)
    requires WellFormed(s) && id < |s.tasks| && m in AttemptMarks(settings, s, id, faults, g)
    ensures IsStored(s.optOuts, m.identifier)
  {
  }

  lemma MarksAtStored(settings: Settings, s: System, batch: seq<nat>, weather: nat -> Weather, g: nat, k: nat, m: Mark)
    requires WellFormed(s) && Within(batch, |s.tasks|) && m in MarksAt(settings, s, batch, weather, g, k)
    ensures IsStored(s.optOuts, m.identifier)
  {
    AttemptMarksStored(settings, AfterAttempts(settings, s, batch, weather, k), batch[k], weather(k).faults, g, m);
  }

  lemma CycleMarksStored(settings: Settings, s: System, now: int, weather: nat -> Weather, commits: nat,
                         g: nat, m: Mark)
    requires WellFormed(s) && m in CycleMarks(settings, s, now, weather, commits, g)
    ensures IsStored(s.optOuts, m.identifier)
  {
    var batch, claimed := EligibleIds(s.tasks, now), ClaimBatch(s, now);
    var n := CommitCount(batch, commits);
    var k := n;
    if m in BatchMarks(settings, claimed, batch, weather, n, g) {
      k := JoinedHasPart(Parts(settings, claimed, batch, weather, g), n, m);
    }
    MarksAtStored(settings, claimed, batch, weather, g, k, m);
  }

  lemma ApplyKeepsStored(settings: Settings, s: System, op: Op, identifier: string)
    requires WellFormed(s) && IsStored(s.optOuts, identifier)
    ensures IsStored(Apply(settings, s, op).optOuts, identifier)
  {
    var o :| 0 <= o < |s.optOuts| && s.optOuts[o].identifier == identifier;
    assert Apply(settings, s, op).optOuts[o].identifier == identifier;
  }

  lemma {:induction false} RunKeepsStored(settings: Settings, s: System, ops: seq<Op>, identifier: string)
    requires WellFormed(s) && IsStored(s.optOuts, identifier)
    ensures IsStored(Run(settings, s, ops).optOuts, identifier)
    decreases |ops|
  {
    if ops != [] {
      ApplyKeepsStored(settings, s, ops[0], identifier);
      RunKeepsStored(settings, Apply(settings, s, ops[0]), ops[1..], identifier);
    }
  }

  /** Every delivery of a run is that of a stored identifier. */
  lemma {:induction false} MarksAreStored(settings: Settings, s: System, ops: seq<Op>, g: nat, m: Mark)
    requires WellFormed(s) && m in RunMarks(settings, s, ops, g)
    ensures IsStored(Run(settings, s, ops).optOuts, m.identifier)
    decreases |ops|
  {
    if m in OpMarks(settings, s, ops[0], g) {
      CycleMarksStored(settings, s, ops[0].now, ops[0].weather, ops[0].commits, g, m);
      RunKeepsStored(settings, s, ops, m.identifier);
    } else {
      MarksAreStored(settings, Apply(settings, s, ops[0]), ops[1..], g, m);
    }
  }
}
