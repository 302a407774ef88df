/** Recording an opt-out and staging its sync tasks. */
module OptOutService {
  import opened Basics
  import opened Records
  import opened Text
  import opened Normalizer
  import opened Queue
  import opened Registry
  import opened Database

  method ActiveIntegrations(db: Store) returns (ids: seq<nat>)
    ensures ids == ActiveIds(db.integrations, db.nextIntegration)
  {
    ids := [];
    for g := 0 to db.nextIntegration
      invariant ids == ActiveIds(db.integrations, g)
    {
      if g in db.integrations && db.integrations[g].isActive {
        ids := ids + [g];
      }
    }
  }

  /** Stages one PENDING task per listed integration. */
  method StageTasks(db: Store, optOut: nat, integrations: seq<nat>, now: int)
    modifies db`tasks
    ensures db.tasks == old(db.tasks) + Staged(optOut, integrations, now)
    ensures |db.tasks| == |old(db.tasks)| + |integrations|
    ensures forall p :: 0 <= p < |integrations| ==>
              var t := db.tasks[|old(db.tasks)| + p];
              t.integration == integrations[p] && Fresh(t, optOut, now)
  {
    for p := 0 to |integrations|
      invariant db.tasks == old(db.tasks) + Staged(optOut, integrations[..p], now)
    {
      db.tasks := db.tasks + [Task(optOut, integrations[p], Pending, 0, DEFAULT_MAX_RETRIES, None, now)];
    }
    assert integrations[..|integrations|] == integrations;
  }

  /** Stores the canonical identifier and stages one PENDING task per active integration. */
  method CreateOptOut(db: Store, raw: string, channel: string, now: int) returns (stored: Option<string>)
    requires WellFormed(db.State())
    modifies db
    ensures stored == Canonicalize(raw)
    ensures db.State() == Ingest(old(db.State()), raw, channel, now)
  {
    var identifier := Strip(raw);
    if '@' in identifier {
      stored := NormalizeEmail(identifier);
    } else {
      stored := NormalizePhone(identifier);
    }
    if stored.None? {
      return;
    }
    var optOut := |db.optOuts|;
    db.optOuts := db.optOuts + [OptOut(stored.value, channel)];
    var active := ActiveIntegrations(db);
    StageTasks(db, optOut, active, now);
  }
}
