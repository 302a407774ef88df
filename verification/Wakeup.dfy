/**
 The worker loop and its wake-up event. The loop is interleaved, at every point where it
 awaits, with triggers, commits of ingested tasks, poll timeouts and the stop request.
 */
module Wakeup {

  /** Where the loop is: testing the running flag, about to select, busy with the selected batch,
      waiting for the event, woken but not yet cleared, timed out, or gone. */
  datatype Place = Top | Selecting | Busy | Waiting | Woken | TimedOut | Gone

  datatype Loop = Loop(
    place: Place,
    event: bool,
    running: bool,
    committed: set<nat>,   // tasks whose transaction is committed
    picked: set<nat>,      // tasks some cycle has selected
    started: nat,          // cycles begun
    finished: nat          // cycles ended
  )

  datatype Move = Step | Trigger | Commit(task: nat) | Timeout | Stop

  predicate Blocked(s: Loop) {
    s.place == Gone || (s.place == Waiting && !s.event)
  }

  predicate Possible(s: Loop, m: Move) {
    match m
    case Step => !Blocked(s)
    case Timeout => s.place == Waiting
    case _ => true
  }

  /** The loop's own next step. */
  function Advance(s: Loop): Loop {
    match s.place
    case Top => if s.running then s.(place := Selecting, started := s.started + 1) else s.(place := Gone)
    case Selecting => s.(place := Busy, picked := s.picked + s.committed)
    case Busy => s.(place := Waiting, finished := s.finished + 1)
    case Waiting => if s.event then s.(place := Woken) else s
    case Woken => s.(place := Top, event := false)
    case TimedOut => s.(place := Top)
    case Gone => s
  }

  function Apply(s: Loop, m: Move): Loop {
    match m
    case Step => Advance(s)
    case Trigger => s.(event := true)
    case Commit(t) => s.(committed := s.committed + {t})
    case Timeout => s.(place := TimedOut)
    case Stop => s.(running := false)
  }

  predicate Valid(s: Loop, ms: seq<Move>)
    decreases |ms|
  {
    ms == [] || (Possible(s, ms[0]) && Valid(Apply(s, ms[0]), ms[1..]))
  }

  function After(s: Loop, ms: seq<Move>): Loop
    decreases |ms|
  {
    if ms == [] then s else After(Apply(s, ms[0]), ms[1..])
  }

  function Steps(ms: seq<Move>): nat {
    if ms == [] then 0 else (if ms[0].Step? then 1 else 0) + Steps(ms[1..])
  }

  predicate NoStop(ms: seq<Move>) {
    forall i :: 0 <= i < |ms| ==> !ms[i].Stop?
  }

  // ---------------------------------------------------------------- no lost wake-up

  predicate HeadingToTop(s: Loop) {
    s.place in {Top, Woken, TimedOut}
  }

  /** Cycles end before the next begins; the place says whether one is under way. */
  predicate Sound(s: Loop) {
    s.started == s.finished + if s.place in {Selecting, Busy} then 1 else 0
  }

  /** A trigger given when n cycles had begun is served, or the event is set, or control is on its
      way to the top of the loop. */
  predicate Remembered(s: Loop, n: nat) {
    s.started > n || (s.started == n && (s.event || HeadingToTop(s)))
  }

  /** The loop's own steps still needed until a cycle begun after the first n has ended. */
  function StepsToServe(s: Loop, n: nat): nat {
    if s.finished > n then 0
    else if s.started > n then (match s.place case Selecting => 2 case _ => 1)
    else
      match s.place
      case Top => 3
      case Woken => 4
      case TimedOut => 4
      case Waiting => 5
      case Busy => 6
      case _ => 7
  }

  lemma MoveServes(s: Loop, m: Move, n: nat)
    requires Sound(s) && s.running && s.place != Gone && Remembered(s, n) && Possible(s, m) && !m.Stop?
    ensures var r := Apply(s, m);
            Sound(r) && r.running && r.place != Gone && Remembered(r, n) &&
            StepsToServe(r, n) <= StepsToServe(s, n) &&
            (m.Step? && StepsToServe(s, n) > 0 ==> StepsToServe(r, n) < StepsToServe(s, n)) &&
            (StepsToServe(s, n) > 0 ==> !Blocked(s))
  {
  }

  lemma {:induction false} RunServes(s: Loop, ms: seq<Move>, n: nat)
    requires Sound(s) && s.running && s.place != Gone && Remembered(s, n) && Valid(s, ms) && NoStop(ms)
    ensures var r := After(s, ms);
            Sound(r) && r.running && r.place != Gone && Remembered(r, n) &&
            (StepsToServe(r, n) == 0 || StepsToServe(r, n) + Steps(ms) <= StepsToServe(s, n))
    decreases |ms|
  {
    if ms != [] {
      assert !ms[0].Stop?;
      assert NoStop(ms[1..]) by {
        forall i | 0 <= i < |ms[1..]| ensures !ms[1..][i].Stop? {
          assert ms[1..][i] == ms[i + 1];
        }
      }
      MoveServes(s, ms[0], n);
      RunServes(Apply(s, ms[0]), ms[1..], n);
    }
  }

  /** While the loop runs, a trigger at any point is followed by a whole new cycle: one that begins
      after the trigger has ended once the loop has taken seven steps, whatever happens in
      between, and until then the loop is never blocked. */
  lemma NoLostWakeup(s: Loop, ms: seq<Move>)
    requires Sound(s) && s.running && s.place != Gone
    requires Valid(Apply(s, Trigger), ms) && NoStop(ms)
    ensures var r := After(Apply(s, Trigger), ms);
            r.finished > s.started || (Steps(ms) < 7 && !Blocked(r))
  {
    var t := Apply(s, Trigger);
    RunServes(t, ms, s.started);
    var r := After(t, ms);
    if StepsToServe(r, s.started) > 0 {
      MoveServes(r, Trigger, s.started);
    }
  }

  // ---------------------------------------------------------------- is the task picked up promptly?

  /** The loop alone, k steps further, without any timeout or trigger. */
  function Drive(s: Loop, k: nat): Loop
    decreases k
  {
    if k == 0 || Blocked(s) then s else Drive(Advance(s), k - 1)
  }

  /** The next select comes without waiting for a timeout. */
  predicate Prompt(s: Loop) {
    s.event || s.place in {Top, Selecting, Woken, TimedOut}
  }

  lemma {:induction false} DriveKeepsUnpicked(s: Loop, k: nat, t: nat)
    requires !Prompt(s) && t !in s.picked
    ensures t !in Drive(s, k).picked && !Prompt(Drive(s, k))
    decreases k
  {
    if k > 0 && !Blocked(s) {
      DriveKeepsUnpicked(Advance(s), k - 1, t);
    }
  }

  function StepsToSelect(s: Loop): nat {
    match s.place
    case Selecting => 1
    case Top => 2
    case Woken => 3
    case TimedOut => 3
    case Waiting => 4
    case Busy => 5
    case Gone => 0
  }

  lemma {:induction false} DrivePicks(s: Loop, t: nat)
    requires s.running && s.place != Gone && Prompt(s) && t in s.committed
    ensures t in Drive(s, StepsToSelect(s)).picked
    decreases StepsToSelect(s)
  {
    if s.place != Selecting {
      DrivePicks(Advance(s), t);
    } else {
      assert Drive(s, 1) == Drive(Advance(s), 0);
    }
  }

  /** A committed task is picked up without waiting for a timeout exactly if, when it is committed,
      the event is set or the loop has its next select still ahead of any wait. */
  lemma PickedPromptlyExactly(s: Loop, t: nat)
    requires s.running && s.place != Gone && t !in s.picked
    ensures var c := Apply(s, Commit(t)); (exists k: nat :: t in Drive(c, k).picked) <==> Prompt(s)
  {
    var c := Apply(s, Commit(t));
    if Prompt(s) {
      DrivePicks(c, t);
    } else {
      forall k: nat ensures t !in Drive(c, k).picked {
        DriveKeepsUnpicked(c, k, t);
      }
    }
  }

  /** How many steps of the loop use up the wake-ups it has ahead of it. */
  function StepsToMiss(s: Loop): nat {
    match s.place
    case Waiting => if s.event then 4 else 0
    case Busy => if s.event then 5 else 0
    case Woken => 3
    case Selecting => if s.event then 6 else 1
    case Top => if s.event then 7 else 2
    case TimedOut => if s.event then 8 else 3
    case Gone => 0
  }

  lemma {:induction false} PromptExactly(s: Loop, k: nat)
    requires s.running && s.place != Gone
    ensures Prompt(Drive(s, k)) <==> k < StepsToMiss(s)
    ensures Drive(s, k).running && Drive(s, k).place != Gone
    decreases k
  {
    if k > 0 && !Blocked(s) {
      PromptExactly(Advance(s), k - 1);
    }
  }

  lemma {:induction false} DriveKeepsUncommitted(s: Loop, k: nat, t: nat)
    requires t !in s.committed && t !in s.picked
    ensures t !in Drive(s, k).picked
    decreases k
  {
    if k > 0 && !Blocked(s) {
      DriveKeepsUncommitted(Advance(s), k - 1, t);
    }
  }

  /** `create_optout` triggers first and is committed later. When the commit of its task comes k
      steps of the loop after the trigger, the task is picked up without waiting for a timeout
      exactly if the wake-up is not used up by then. */
  lemma TriggerServesOwnTaskExactly(s: Loop, k: nat, t: nat)
    requires s.running && s.place != Gone && t !in s.committed && t !in s.picked
    ensures var triggered := Apply(s, Trigger);
            var committed := Apply(Drive(triggered, k), Commit(t));
            (exists j: nat :: t in Drive(committed, j).picked) <==> k < StepsToMiss(triggered)
  {
    var triggered := Apply(s, Trigger);
    PromptExactly(triggered, k);
    DriveKeepsUncommitted(triggered, k, t);
    PickedPromptlyExactly(Drive(triggered, k), t);
  }

  /** A run in which the trigger is used up before the commit: the committed task is left waiting
      for the poll timeout. */
  lemma TriggerBeforeCommitCanMiss() returns (s: Loop, ms: seq<Move>)
    ensures Sound(s) && s.running && s.place == Waiting && ms != [] && ms[0] == Trigger && ms[|ms| - 1] == Commit(1)
    ensures Valid(s, ms)
    ensures var r := After(s, ms); Blocked(r) && 1 in r.committed && 1 !in r.picked
  {
    s := Loop(Waiting, false, true, {}, {}, 0, 0);
    var s1 := Apply(s, Trigger);
    var s3 := Advance(Advance(s1));
    var s5 := Advance(Advance(s3));
    var s6 := Advance(s5);
    var commit := [Commit(1)];
    var last := [Step] + commit;
    var rest := [Step, Step] + last;
    ms := [Trigger] + ([Step, Step] + rest);
    assert ms[1..] == [Step, Step] + rest;
    TwoSteps(s1, rest);
    TwoSteps(s3, last);
    assert last[1..] == commit && commit[1..] == [];
    assert After(s6, commit) == Apply(s6, Commit(1)) && Valid(s6, commit);
    assert After(s5, last) == Apply(s6, Commit(1));
  }

  lemma TwoSteps(s: Loop, ms: seq<Move>)
    requires !Blocked(s) && !Blocked(Advance(s))
    ensures After(s, [Step, Step] + ms) == After(Advance(Advance(s)), ms)
    ensures Valid(s, [Step, Step] + ms) <==> Valid(Advance(Advance(s)), ms)
  {
    assert ([Step, Step] + ms)[1..] == [Step] + ms;
    assert ([Step] + ms)[1..] == ms;
  }

  // ---------------------------------------------------------------- the task is picked up in the end

  /** Picked already, or `left` steps of the loop away from being selected. */
  predicate OnTheWay(s: Loop, t: nat, left: int) {
    t in s.picked || (s.place in {TimedOut, Top, Selecting} && StepsToSelect(s) <= left)
  }

  lemma {:induction false} RunSelects(s: Loop, ms: seq<Move>, t: nat, left: int)
    requires s.running && t in s.committed && OnTheWay(s, t, left) && Valid(s, ms) && NoStop(ms)
    ensures OnTheWay(After(s, ms), t, left - Steps(ms))
    decreases |ms|
  {
    if ms != [] {
      assert !ms[0].Stop?;
      assert NoStop(ms[1..]) by {
        assert forall i :: 0 <= i < |ms[1..]| ==> ms[1..][i] == ms[i + 1];
      }
      RunSelects(Apply(s, ms[0]), ms[1..], t, if ms[0].Step? then left - 1 else left);
    }
  }

  /** A poll timeout picks up every committed task: it is selected within three of the loop's own
      steps, whatever triggers and commits come in between. */
  lemma TimeoutPicksUp(s: Loop, ms: seq<Move>, t: nat)
    requires s.running && s.place == Waiting && t in s.committed
    requires Valid(Apply(s, Timeout), ms) && NoStop(ms) && Steps(ms) >= 3
    ensures Possible(s, Timeout) && t in After(Apply(s, Timeout), ms).picked
  {
    RunSelects(Apply(s, Timeout), ms, t, 3);
  }

  /** Picked, or no cycle has begun since n had, or the next one has begun but not yet selected. */
  predicate PickedUnlessNone(s: Loop, t: nat, n: nat) {
    t in s.committed && s.started >= n &&
    (t in s.picked || s.started == n || (s.started == n + 1 && s.place == Selecting))
  }

  lemma {:induction false} RunPicks(s: Loop, ms: seq<Move>, t: nat, n: nat)
    requires PickedUnlessNone(s, t, n) && Valid(s, ms)
    ensures PickedUnlessNone(After(s, ms), t, n)
    decreases |ms|
  {
    if ms != [] {
      RunPicks(Apply(s, ms[0]), ms[1..], t, n);
    }
  }

  /** In every run, with any triggers, commits, timeouts and stops in between: the first cycle that
      begins after a task's commit has selected it once it is past its select. */
  lemma FirstCyclePicks(s: Loop, ms: seq<Move>, t: nat)
    requires Valid(Apply(s, Commit(t)), ms)
    ensures var r := After(Apply(s, Commit(t)), ms);
            r.started >= s.started &&
            (r.started > s.started && (r.place != Selecting || r.started > s.started + 1) ==> t in r.picked)
  {
    RunPicks(Apply(s, Commit(t)), ms, t, s.started);
  }

  // ---------------------------------------------------------------- stopping

  /** The loop's own steps to its end, once the running flag is cleared. */
  function StepsToGone(p: Place): nat {
    match p
    case Gone => 0
    case Top => 1
    case Woken => 2
    case TimedOut => 2
    case Waiting => 3
    case Busy => 4
    case Selecting => 5
  }

  lemma MoveStops(s: Loop, m: Move)
    requires Sound(s) && !s.running && Possible(s, m)
    ensures var r := Apply(s, m);
            Sound(r) && !r.running && r.started == s.started &&
            StepsToGone(r.place) + (if m.Step? then 1 else 0) <= StepsToGone(s.place)
  {
  }

  lemma {:induction false} RunStops(s: Loop, ms: seq<Move>)
    requires Sound(s) && !s.running && Valid(s, ms)
    ensures var r := After(s, ms);
            Sound(r) && !r.running && r.started == s.started &&
            StepsToGone(r.place) + Steps(ms) <= StepsToGone(s.place)
    decreases |ms|
  {
    if ms != [] {
      MoveStops(s, ms[0]);
      RunStops(Apply(s, ms[0]), ms[1..]);
    }
  }

  /** After a stop no cycle begins any more, whatever triggers and commits come, but one under way is still
      finished: the loop takes at most five more steps, and can halt only at its end or in a wait
      without the event. */
  lemma StopEndsLoop(s: Loop, ms: seq<Move>)
    requires Sound(s) && Valid(Apply(s, Stop), ms)
    ensures var r := After(Apply(s, Stop), ms);
            r.started == s.started && Steps(ms) <= 5 && (Steps(ms) == 5 ==> r.place == Gone) &&
            (Blocked(r) ==> r.finished == s.started)
  {
    RunStops(Apply(s, Stop), ms);
  }
}
