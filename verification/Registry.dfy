/** Ingesting an opt-out, and registering, pausing and deleting integrations. */
module Registry {
  import opened Basics
  import opened Records
  import opened Normalizer
  import opened Queue

  /** The active integrations among the first n ids, in table order. */
  function ActiveIds(integrations: map<nat, Integration>, n: nat): (ids: seq<nat>)
    ensures forall g :: g in ids <==> g < n && g in integrations && integrations[g].isActive
    ensures Distinct(ids)
  {
    if n == 0 then []
    else ActiveIds(integrations, n - 1) +
         if n - 1 in integrations && integrations[n - 1].isActive then [n - 1] else []
  }

  function NewTask(optOut: nat, integration: nat, now: int): Task {
    Task(optOut, integration, Pending, 0, DEFAULT_MAX_RETRIES, None, now)
  }

  /** The staged rows: one per listed integration. */
  function Staged(optOut: nat, ids: seq<nat>, now: int): (r: seq<Task>)
    ensures |r| == |ids|
    ensures forall p :: 0 <= p < |ids| ==> r[p] == NewTask(optOut, ids[p], now)
  {
    seq(|ids|, p requires 0 <= p < |ids| => NewTask(optOut, ids[p], now))
  }

  /** The rows of one accepted opt-out. */
  function AddOptOut(s: System, o: OptOut, now: int): (r: System)
    requires WellFormed(s)
    ensures WellFormed(r)
  {
    s.(optOuts := s.optOuts + [o],
       tasks := s.tasks + Staged(|s.optOuts|, ActiveIds(s.integrations, s.nextIntegration), now))
  }

  /** `create_optout`, committed as one transaction. Without a canonical identifier the
      database refuses the row and the transaction is rolled back. */
  function Ingest(s: System, raw: string, channel: string, now: int): (r: System)
    requires WellFormed(s)
    ensures WellFormed(r)
  {
    match Canonicalize(raw)
    case None => s
    case Some(identifier) => AddOptOut(s, OptOut(identifier, channel), now)
  }

  /** `create_integration`; ids are never reused. */
  function Register(s: System, g: Integration): (r: System)
    requires WellFormed(s) && g.account < |s.accounts|
    ensures WellFormed(r)
  {
    s.(integrations := s.integrations[s.nextIntegration := g], nextIntegration := s.nextIntegration + 1)
  }

  /** `update_integration` with only the active flag; an unknown id is answered 404. */
  function Toggle(s: System, id: nat, active: bool): (r: System)
    requires WellFormed(s)
    ensures WellFormed(r)
  {
    if id in s.integrations then s.(integrations := s.integrations[id := s.integrations[id].(isActive := active)])
    else s
  }

  /** `delete_integration`; staged tasks remain. */
  function Delete(s: System, id: nat): (r: System)
    requires WellFormed(s)
    ensures WellFormed(r)
  {
    s.(integrations := s.integrations - {id})
  }

  /** A task as it is staged: pending, with none of five retries used, due at once. */
  predicate Fresh(t: Task, optOut: nat, now: int) {
    t.optOut == optOut && t.status == Pending && t.retryCount == 0 && t.maxRetries == 5 && t.lastError == None &&
    t.nextRetryAt == now
  }

  /** An opt-out with a canonical identifier adds its row and fresh tasks of its own, and nothing else
      changes; one without changes nothing. */
  lemma IngestedExactly(s: System, raw: string, channel: string, now: int)
    requires WellFormed(s)
    ensures var r := Ingest(s, raw, channel, now);
            if Canonicalize(raw).None? then r == s
            else
              r == s.(optOuts := s.optOuts + [OptOut(Canonicalize(raw).value, channel)], tasks := r.tasks) &&
              s.tasks <= r.tasks && forall k :: |s.tasks| <= k < |r.tasks| ==> Fresh(r.tasks[k], |s.optOuts|, now)
  {
    var r := Ingest(s, raw, channel, now);
    if Canonicalize(raw).Some? {
      assert r.tasks == s.tasks + Staged(|s.optOuts|, ActiveIds(s.integrations, s.nextIntegration), now);
    }
  }
}
