/** What every run keeps about the identifiers in the opt-out table. */
module StoredIdentifiers {
  import opened Basics
  import opened Records
  import opened Normalizer
  import opened Queue
  import opened Registry
  import opened Runs

  /** A fixed point of the service's normalisation. */
  predicate IsCanonical(identifier: string) {
    Canonicalize(identifier) == Some(identifier)
  }

  predicate StoredCanonical(optOuts: seq<OptOut>) {
    forall o :: 0 <= o < |optOuts| ==> IsCanonical(optOuts[o].identifier)
  }

  lemma CanonicalizeIsCanonical(raw: string)
    requires Canonicalize(raw).Some?
    ensures IsCanonical(Canonicalize(raw).value)
  {
    CanonicalIsFixed(raw);
  }

  lemma StoredCanonicalAppend(optOuts: seq<OptOut>, o: OptOut)
    requires StoredCanonical(optOuts) && IsCanonical(o.identifier)
    ensures StoredCanonical(optOuts + [o])
  {
  }

  lemma IngestAppends(s: System, raw: string, channel: string, at: int)
    requires WellFormed(s)
    ensures var r := Ingest(s, raw, channel, at).optOuts;
            r == match Canonicalize(raw)
                 case None => s.optOuts
                 case Some(identifier) => s.optOuts + [OptOut(identifier, channel)]
  {
  }

  lemma ApplyKeepsCanonical(settings: Settings, s: System, op: Op)
    requires WellFormed(s) && StoredCanonical(s.optOuts)
    ensures StoredCanonical(Apply(settings, s, op).optOuts)
  {
    if op.IngestOp? {
      IngestAppends(s, op.raw, op.channel, op.at);
      if Canonicalize(op.raw).Some? {
        CanonicalizeIsCanonical(op.raw);
        StoredCanonicalAppend(s.optOuts, OptOut(Canonicalize(op.raw).value, op.channel));
      }
    } else {
      assert Apply(settings, s, op).optOuts == s.optOuts;
    }
  }

  /** Whatever raw identifiers a run ingests, all stored identifiers stay canonical. */
  lemma {:induction false} StoredIdentifiersStayCanonical(settings: Settings, s: System, ops: seq<Op>)
    requires WellFormed(s) && StoredCanonical(s.optOuts)
    ensures StoredCanonical(Run(settings, s, ops).optOuts)
    decreases |ops|
  {
    if ops != [] {
      ApplyKeepsCanonical(settings, s, ops[0]);
      StoredIdentifiersStayCanonical(settings, Apply(settings, s, ops[0]), ops[1..]);
    }
  }
}
