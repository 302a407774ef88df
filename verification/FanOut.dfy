/** Conservation of tasks: one per integration active when its opt-out was ingested. */
module FanOut {
  import opened Basics
  import opened Records
  import opened Normalizer
  import opened Registry
  import opened Machine

  /** The number of tasks of an opt-out for an integration. */
  function CountTasks(tasks: seq<Task>, optOut: nat, g: nat): nat {
    if tasks == [] then 0
    else
      var t := tasks[|tasks| - 1];
      CountTasks(tasks[..|tasks| - 1], optOut, g) + if t.optOut == optOut && t.integration == g then 1 else 0
  }

  lemma {:induction false} CountByKeys(a: seq<Task>, b: seq<Task>, optOut: nat, g: nat)
    requires |a| == |b|
    requires forall i :: 0 <= i < |a| ==> a[i].optOut == b[i].optOut && a[i].integration == b[i].integration
    ensures CountTasks(a, optOut, g) == CountTasks(b, optOut, g)
  {
    if a != [] {
      CountByKeys(a[..|a| - 1], b[..|b| - 1], optOut, g);
    }
  }

  lemma {:induction false} CountNone(tasks: seq<Task>, optOut: nat, g: nat)
    requires forall i :: 0 <= i < |tasks| ==> tasks[i].optOut != optOut
    ensures CountTasks(tasks, optOut, g) == 0
  {
    if tasks != [] {
      CountNone(tasks[..|tasks| - 1], optOut, g);
    }
  }

  lemma {:induction false} CountConcat(a: seq<Task>, b: seq<Task>, optOut: nat, g: nat)
    ensures CountTasks(a + b, optOut, g) == CountTasks(a, optOut, g) + CountTasks(b, optOut, g)
  {
    if b == [] {
      assert a + b == a;
    } else {
      assert (a + b)[..|a + b| - 1] == a + b[..|b| - 1];
      CountConcat(a, b[..|b| - 1], optOut, g);
    }
  }

  lemma {:induction false} CountStaged(optOut: nat, ids: seq<nat>, now: int, g: nat)
    requires Distinct(ids)
    ensures CountTasks(Staged(optOut, ids, now), optOut, g) == if g in ids then 1 else 0
  {
    if ids != [] {
      var n := |ids| - 1;
      assert Staged(optOut, ids, now)[..n] == Staged(optOut, ids[..n], now);
      assert ids == ids[..n] + [ids[n]];
      CountStaged(optOut, ids[..n], now, g);
    }
  }

  /** The tasks of opt-out o are those of its fan-out. */
  predicate Covered(w: World, o: nat, g: nat) {
    o in w.hist.fanOut && o < |w.sys.optOuts| &&
    CountTasks(w.sys.tasks, o, g) == if g in w.hist.fanOut[o] then 1 else 0
  }

  /** Steps other than ingestion change no key of any task. */
  lemma NextKeepsTaskKeys(settings: Settings, w: World, e: Event)
    requires Shape(w) && Enabled(w, e) && !e.Ingesting?
    ensures var a, b := w.sys.tasks, Next(settings, w, e).sys.tasks;
            |a| == |b| &&
            forall i :: 0 <= i < |a| ==> a[i].optOut == b[i].optOut && a[i].integration == b[i].integration
  {
  }

  /** A later ingestion leaves the tasks of earlier opt-outs alone. */
  lemma IngestKeepsCovered(settings: Settings, w: World, raw: string, channel: string, o: nat, g: nat)
    requires Shape(w) && Enabled(w, Ingesting(raw, channel)) && Covered(w, o, g)
    ensures Covered(IngestStep(w, raw, channel), o, g)
  {
    var staged := Staged(|w.sys.optOuts|, ActiveIds(w.sys.integrations, w.sys.nextIntegration), w.now);
    IngestAppends(w, raw, channel);
    OtherOptOut(w.sys.tasks, staged, o, g);
  }

  lemma OtherOptOut(tasks: seq<Task>, staged: seq<Task>, o: nat, g: nat)
    requires forall i :: 0 <= i < |staged| ==> staged[i].optOut != o
    ensures CountTasks(tasks + staged, o, g) == CountTasks(tasks, o, g)
  {
    CountConcat(tasks, staged, o, g);
    CountNone(staged, o, g);
  }

  lemma IngestAppends(w: World, raw: string, channel: string)
    requires Shape(w) && Canonicalize(raw).Some?
    ensures var r, ids := IngestStep(w, raw, channel), ActiveIds(w.sys.integrations, w.sys.nextIntegration);
            r.sys.tasks == w.sys.tasks + Staged(|w.sys.optOuts|, ids, w.now) &&
            |r.sys.optOuts| == |w.sys.optOuts| + 1 && r.hist.fanOut == w.hist.fanOut[|w.sys.optOuts| := ids]
  {
  }

  lemma NextKeepsCovered(settings: Settings, w: World, e: Event, o: nat, g: nat)
    requires Shape(w) && Enabled(w, e) && Covered(w, o, g)
    ensures Covered(Next(settings, w, e), o, g)
  {
    if e.Ingesting? {
      IngestKeepsCovered(settings, w, e.raw, e.channel, o, g);
    } else {
      NextKeepsTaskKeys(settings, w, e);
      CountByKeys(w.sys.tasks, Next(settings, w, e).sys.tasks, o, g);
    }
  }

  /** Ingesting an opt-out gives it one task per integration active then, and no others. */
  lemma IngestCovers(settings: Settings, w: World, raw: string, channel: string, g: nat)
    requires Shape(w) && Enabled(w, Ingesting(raw, channel))
    ensures var o, r := |w.sys.optOuts|, IngestStep(w, raw, channel);
            Covered(r, o, g) &&
            (CountTasks(r.sys.tasks, o, g) == 1 <==>
               g in w.sys.integrations && w.sys.integrations[g].isActive)
  {
    var o := |w.sys.optOuts|;
    var ids := ActiveIds(w.sys.integrations, w.sys.nextIntegration);
    CountConcat(w.sys.tasks, Staged(o, ids, w.now), o, g);
    CountNone(w.sys.tasks, o, g);
    CountStaged(o, ids, w.now, g);
  }

  lemma {:induction false} RunKeepsCovered(settings: Settings, w: World, es: seq<Event>, o: nat, g: nat)
    requires Shape(w) && Valid(settings, w, es) && Covered(w, o, g)
    ensures Covered(After(settings, w, es), o, g)
    ensures After(settings, w, es).hist.fanOut[o] == w.hist.fanOut[o]
    decreases |es|
  {
    if es != [] {
      NextKeepsShape(settings, w, es[0]);
      NextKeepsCovered(settings, w, es[0], o, g);
      RunKeepsCovered(settings, Next(settings, w, es[0]), es[1..], o, g);
    }
  }

  /** Over any run, an opt-out keeps exactly one task per integration that was active when it was
      ingested and none for any other: no step duplicates or drops a task. */
  lemma FanOutConserved(settings: Settings, w: World, raw: string, channel: string, later: seq<Event>, g: nat)
    requires Shape(w) && Enabled(w, Ingesting(raw, channel))
    requires Shape(IngestStep(w, raw, channel)) && Valid(settings, IngestStep(w, raw, channel), later)
    ensures CountTasks(After(settings, IngestStep(w, raw, channel), later).sys.tasks, |w.sys.optOuts|, g) ==
            if g in w.sys.integrations && w.sys.integrations[g].isActive then 1 else 0
  {
    IngestCovers(settings, w, raw, channel, g);
    RunKeepsCovered(settings, IngestStep(w, raw, channel), later, |w.sys.optOuts|, g);
  }

  function CountStatus(tasks: seq<Task>, status: Status): nat {
    if tasks == [] then 0
    else CountStatus(tasks[..|tasks| - 1], status) + if tasks[|tasks| - 1].status == status then 1 else 0
  }

  /** The five status counts of a table. */
  function StatusTotal(tasks: seq<Task>): nat {
    CountStatus(tasks, Pending) + CountStatus(tasks, Processing) + CountStatus(tasks, Completed) +
    CountStatus(tasks, Failed) + CountStatus(tasks, MaxRetriesExceeded)
  }

  lemma {:induction false} StatusCountsAddUp(tasks: seq<Task>)
    ensures StatusTotal(tasks) == |tasks|
  {
    if tasks != [] {
      StatusCountsAddUp(tasks[..|tasks| - 1]);
    }
  }

  /** The number of tasks a run stages: the integrations active at each ingestion. */
  function StagedBy(settings: Settings, w: World, es: seq<Event>): nat
    requires Shape(w) && Valid(settings, w, es)
    decreases |es|
  {
    if es == [] then 0
    else
      NextKeepsShape(settings, w, es[0]);
      (if es[0].Ingesting? then |ActiveIds(w.sys.integrations, w.sys.nextIntegration)| else 0) +
      StagedBy(settings, Next(settings, w, es[0]), es[1..])
  }

  lemma {:induction false} TasksConserved(settings: Settings, w: World, es: seq<Event>)
    requires Shape(w) && Valid(settings, w, es)
    ensures |After(settings, w, es).sys.tasks| == |w.sys.tasks| + StagedBy(settings, w, es)
    decreases |es|
  {
    if es != [] {
      NextKeepsShape(settings, w, es[0]);
      if !es[0].Ingesting? {
        NextKeepsTaskKeys(settings, w, es[0]);
      }
      TasksConserved(settings, Next(settings, w, es[0]), es[1..]);
    }
  }

  /** Over any run the five status counts always sum to the tasks staged. */
  lemma StatusCountsConserved(settings: Settings, w: World, es: seq<Event>)
    requires Shape(w) && Valid(settings, w, es)
    ensures StatusTotal(After(settings, w, es).sys.tasks) == StatusTotal(w.sys.tasks) + StagedBy(settings, w, es)
  {
    StatusCountsAddUp(w.sys.tasks);
    StatusCountsAddUp(After(settings, w, es).sys.tasks);
    TasksConserved(settings, w, es);
  }
}
