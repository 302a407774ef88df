/** Rows no worker will ever touch again: finished tasks, and tasks stranded by a crash. */
module Dormancy {
  import opened Records
  import opened Machine
  import opened Exclusion

  predicate Unheld(w: World, i: nat) {
    forall q :: 0 <= q < |w.workers| ==> i !in Batch(w.workers[q])
  }

  /** A row that is neither eligible by status nor in a live batch. */
  predicate Dormant(w: World, i: nat) {
    i < |w.sys.tasks| && w.sys.tasks[i].status in {Processing, Completed, MaxRetriesExceeded} && Unheld(w, i)
  }

  lemma NextKeepsDormantRow(settings: Settings, w: World, e: Event, i: nat)
    requires Shape(w) && Enabled(w, e) && Dormant(w, i)
    ensures i < |Next(settings, w, e).sys.tasks| && Next(settings, w, e).sys.tasks[i] == w.sys.tasks[i]
  {
    if e.CommitClaim? || e.CommitAttempt? {
      CommitsOwnRows(settings, w, e.p, i);
    } else {
      OthersChangeNoRow(settings, w, e, i);
    }
  }

  /** No worker takes up a row that is not eligible by status. */
  lemma NextKeepsUnheld(settings: Settings, w: World, e: Event, i: nat, q: nat)
    requires Shape(w) && Enabled(w, e) && Dormant(w, i) && q < |Next(settings, w, e).workers|
    ensures i !in Batch(Next(settings, w, e).workers[q])
  {
    if Moves(e, q) {
      assert i !in Batch(w.workers[q]);
    }
  }

  lemma NextKeepsDormant(settings: Settings, w: World, e: Event, i: nat)
    requires Shape(w) && Enabled(w, e) && Dormant(w, i)
    ensures Dormant(Next(settings, w, e), i)
    ensures Next(settings, w, e).sys.tasks[i] == w.sys.tasks[i]
  {
    NextKeepsDormantRow(settings, w, e, i);
    forall q | 0 <= q < |Next(settings, w, e).workers| ensures i !in Batch(Next(settings, w, e).workers[q]) {
      NextKeepsUnheld(settings, w, e, i, q);
    }
  }

  /** A dormant row keeps its value in every run, under any interleaving. */
  lemma {:induction false} DormantForever(settings: Settings, w: World, es: seq<Event>, i: nat)
    requires Shape(w) && Valid(settings, w, es) && Dormant(w, i)
    ensures Dormant(After(settings, w, es), i)
    ensures After(settings, w, es).sys.tasks[i] == w.sys.tasks[i]
    decreases |es|
  {
    if es != [] {
      NextKeepsShape(settings, w, es[0]);
      NextKeepsDormant(settings, w, es[0], i);
      DormantForever(settings, Next(settings, w, es[0]), es[1..], i);
    }
  }

  /** The row at position a of the batch a crash interrupts. */
  lemma CrashStrands(settings: Settings, w: World, p: nat, a: nat, later: seq<Event>)
    requires Shape(w) && Exclusive(w) && Enabled(w, Abandon(p)) && !w.workers[p].Selected?
    requires a < |Batch(w.workers[p])|
    requires Shape(Next(settings, w, Abandon(p))) && Valid(settings, Next(settings, w, Abandon(p)), later)
    ensures var id := Batch(w.workers[p])[a];
            var r := After(settings, Next(settings, w, Abandon(p)), later);
            id < |r.sys.tasks| && r.sys.tasks[id] == w.sys.tasks[id] && r.sys.tasks[id].status == Processing
  {
    var id := Batch(w.workers[p])[a];
    var crashed := Next(settings, w, Abandon(p));
    assert HoldsBatch(w, p);
    HeldRow(w, p, a);
    forall q | 0 <= q < |crashed.workers| ensures id !in Batch(crashed.workers[q]) {
      if q != p {
        assert HoldsBatch(w, q);
        HeldByOne(w, p, q, id);
      }
    }
    DormantForever(settings, crashed, later, id);
  }

  /** A terminal row is in no live batch ... */
  lemma TerminalIsDormant(w: World, i: nat)
    requires Shape(w) && Exclusive(w) && i < |w.sys.tasks| && Terminal(w.sys.tasks[i])
    ensures Dormant(w, i)
  {
    forall q | 0 <= q < |w.workers| ensures i !in Batch(w.workers[q]) {
      assert HoldsBatch(w, q);
    }
  }

  /** ... so once claims have never interleaved, a COMPLETED or given-up task stays as it is. */
  lemma TerminalForever(settings: Settings, w: World, es: seq<Event>, i: nat)
    requires Shape(w) && Exclusive(w) && Valid(settings, w, es)
    requires i < |w.sys.tasks| && Terminal(w.sys.tasks[i])
    ensures i < |After(settings, w, es).sys.tasks| && After(settings, w, es).sys.tasks[i] == w.sys.tasks[i]
  {
    TerminalIsDormant(w, i);
    DormantForever(settings, w, es, i);
  }

  // ---------------------------------------------------------------- deleted integrations

  function CountRequests(requests: seq<nat>, i: nat): nat {
    if requests == [] then 0
    else CountRequests(requests[..|requests| - 1], i) + if requests[|requests| - 1] == i then 1 else 0
  }

  predicate NotSendingFor(wk: Worker, i: nat) {
    wk.Attempting? && wk.batch != [] && wk.batch[0] == i ==> wk.flight.call.Done?
  }

  /** No attempt at task i still has a request to send. */
  predicate NoneInFlight(w: World, i: nat) {
    forall q :: 0 <= q < |w.workers| ==> NotSendingFor(w.workers[q], i)
  }

  /** The integration of task i was deleted, and no attempt loaded before that is under way. */
  predicate Severed(w: World, i: nat) {
    i < |w.sys.tasks| &&
    w.sys.tasks[i].integration < w.sys.nextIntegration && w.sys.tasks[i].integration !in w.sys.integrations &&
    NoneInFlight(w, i)
  }

  lemma NextKeepsSevered(settings: Settings, w: World, e: Event, i: nat)
    requires Shape(w) && Enabled(w, e) && Severed(w, i)
    ensures Severed(Next(settings, w, e), i)
    ensures CountRequests(Next(settings, w, e).hist.requests, i) == CountRequests(w.hist.requests, i)
  {
    if e.Request? {
      assert (w.hist.requests + [w.workers[e.p].batch[0]])[..|w.hist.requests|] == w.hist.requests;
    }
  }

  /** From then on, in every run, no request is sent for the task. */
  lemma {:induction false} NoRequestAfterDeletion(settings: Settings, w: World, es: seq<Event>, i: nat)
    requires Shape(w) && Valid(settings, w, es) && Severed(w, i)
    ensures CountRequests(After(settings, w, es).hist.requests, i) == CountRequests(w.hist.requests, i)
    decreases |es|
  {
    if es != [] {
      NextKeepsShape(settings, w, es[0]);
      NextKeepsSevered(settings, w, es[0], i);
      NoRequestAfterDeletion(settings, Next(settings, w, es[0]), es[1..], i);
    }
  }
}
