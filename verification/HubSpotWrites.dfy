/**
 HubSpot dispatches set both flags of a contact, so the last write decides them.
 */
module HubSpotWrites {
  import opened Basics
  import opened Records
  import opened Crm
  import opened Machine

  /** The kind of the last write that took effect on a contact: true for an email. */
  function LastWrite(log: seq<HubSpotWrite>, account: nat, contact: nat): Option<bool> {
    if log == [] then None
    else
      var last := log[|log| - 1];
      if last.account == account && last.contact == contact then Some(last.email)
      else LastWrite(log[..|log| - 1], account, contact)
  }

  /** The flags of a contact: decided by the last write, or those it had before the run. */
  predicate FlagsDecided(before: seq<Record>, now: seq<Record>, last: Option<bool>, c: nat) {
    c < |now| &&
    match last
    case Some(email) => now[c].noEmail == email && now[c].noCall == !email
    case None => c < |before| && now[c].noEmail == before[c].noEmail && now[c].noCall == before[c].noCall
  }

  predicate AccountDecided(before: Account, now: Account, log: seq<HubSpotWrite>, g: nat) {
    forall c :: 0 <= c < |now.hubspot| ==> FlagsDecided(before.hubspot, now.hubspot, LastWrite(log, g, c), c)
  }

  predicate Decided(before: seq<Account>, w: World) {
    |before| == |w.sys.accounts| &&
    forall g :: 0 <= g < |before| ==> AccountDecided(before[g], w.sys.accounts[g], w.hist.hubSpotWrites, g)
  }

  lemma LastWriteAppend(log: seq<HubSpotWrite>, more: seq<HubSpotWrite>, g: nat, c: nat)
    requires |more| <= 1
    ensures LastWrite(log + more, g, c) ==
            if more != [] && more[0].account == g && more[0].contact == c then Some(more[0].email)
            else LastWrite(log, g, c)
  {
    if more == [] {
      assert log + more == log;
    } else {
      assert (log + more)[..|log + more| - 1] == log;
    }
  }

  lemma CallDecides(before: Account, a: Account, log: seq<HubSpotWrite>, g: nat,
                    call: Call, identifier: string, outcome: Outcome)
    requires AccountDecided(before, a, log, g)
    ensures AccountDecided(before, Step(a, call, identifier, outcome).0,
                           log + LogWrite(g, a, call, identifier, outcome), g)
  {
    var b := Step(a, call, identifier, outcome).0;
    var more := LogWrite(g, a, call, identifier, outcome);
    forall c | 0 <= c < |b.hubspot|
      ensures FlagsDecided(before.hubspot, b.hubspot, LastWrite(log + more, g, c), c)
    {
      LastWriteAppend(log, more, g, c);
      if c < |a.hubspot| {
        assert FlagsDecided(before.hubspot, a.hubspot, LastWrite(log, g, c), c);
      }
    }
  }

  lemma OtherAccountDecided(before: Account, a: Account, log: seq<HubSpotWrite>, more: seq<HubSpotWrite>, g: nat)
    requires AccountDecided(before, a, log, g) && |more| <= 1 && (more != [] ==> more[0].account != g)
    ensures AccountDecided(before, a, log + more, g)
  {
    forall c | 0 <= c < |a.hubspot| ensures FlagsDecided(before.hubspot, a.hubspot, LastWrite(log + more, g, c), c) {
      LastWriteAppend(log, more, g, c);
      assert FlagsDecided(before.hubspot, a.hubspot, LastWrite(log, g, c), c);
    }
  }

  lemma RequestDecides(before: seq<Account>, w: World, p: nat, outcome: Outcome)
    requires Shape(w) && Enabled(w, Request(p, outcome)) && Decided(before, w)
    ensures Decided(before, RequestStep(w, p, outcome))
  {
    var f := w.workers[p].flight;
    var h, identifier := f.target.value.account, w.sys.optOuts[f.row.optOut].identifier;
    var r := RequestStep(w, p, outcome);
    var log, more := w.hist.hubSpotWrites, LogWrite(h, w.sys.accounts[h], f.call, identifier, outcome);
    forall g | 0 <= g < |before| ensures AccountDecided(before[g], r.sys.accounts[g], r.hist.hubSpotWrites, g) {
      assert AccountDecided(before[g], w.sys.accounts[g], log, g);
      if g == h {
        CallDecides(before[g], w.sys.accounts[g], log, g, f.call, identifier, outcome);
      } else {
        OtherAccountDecided(before[g], w.sys.accounts[g], log, more, g);
      }
    }
  }

  lemma NextDecides(settings: Settings, before: seq<Account>, w: World, e: Event)
    requires Shape(w) && Enabled(w, e) && Decided(before, w)
    ensures Decided(before, Next(settings, w, e))
  {
    if e.Request? {
      RequestDecides(before, w, e.p, e.outcome);
    }
  }

  lemma {:induction false} RunDecides(settings: Settings, before: seq<Account>, w: World, es: seq<Event>)
    requires Shape(w) && Valid(settings, w, es) && Decided(before, w)
    ensures Decided(before, After(settings, w, es))
    decreases |es|
  {
    if es != [] {
      NextKeepsShape(settings, w, es[0]);
      NextDecides(settings, before, w, es[0]);
      RunDecides(settings, before, Next(settings, w, es[0]), es[1..]);
    }
  }

  /** Over any run, with faults, crashes and any interleaving: a contact the run has written has
      exactly one flag, the one of the last identifier whose write took effect on it; every other
      contact keeps the flags it had. */
  lemma LastWriterDecides(settings: Settings, w: World, es: seq<Event>, g: nat, c: nat)
    requires Shape(w) && Valid(settings, w, es) && w.hist.hubSpotWrites == []
    requires var r := After(settings, w, es); g < |r.sys.accounts| && c < |r.sys.accounts[g].hubspot|
    ensures var r := After(settings, w, es);
            g < |w.sys.accounts| &&
            FlagsDecided(w.sys.accounts[g].hubspot, r.sys.accounts[g].hubspot,
                         LastWrite(r.hist.hubSpotWrites, g, c), c)
  {
    assert Decided(w.sys.accounts, w) by {
      forall h | 0 <= h < |w.sys.accounts| ensures AccountDecided(w.sys.accounts[h], w.sys.accounts[h], [], h) {
      }
    }
    RunDecides(settings, w.sys.accounts, w, es);
    var r := After(settings, w, es);
    assert AccountDecided(w.sys.accounts[g], r.sys.accounts[g], r.hist.hubSpotWrites, g);
  }

  /** A completed HubSpot dispatch for y keeps the opt-out of x on a contact unless it writes that
      very contact for an identifier of the other kind. */
  lemma HubSpotKeepsFlagExactly(a: Account, x: string, y: string, c: nat)
    requires c < |a.hubspot| && Flagged(a.hubspot[c], x)
    ensures c < |MarkedHubSpot(a, y).hubspot|
    ensures Flagged(MarkedHubSpot(a, y).hubspot[c], x) <==>
            !(FirstMatch(a.hubspot, y) == Some(c) && IsEmail(y) != IsEmail(x))
  {
  }

  /** So an email opt-out does not outlive a phone opt-out of the same contact. */
  lemma HubSpotOptOutCanBeLost() returns (a: Account)
    ensures HubSpotOptedOut(MarkedHubSpot(a, "a@b.c"), "a@b.c")
    ensures !HubSpotOptedOut(MarkedHubSpot(MarkedHubSpot(a, "a@b.c"), "+15550000000"), "a@b.c")
  {
    a := Account([Record(Some("a@b.c"), Some("+15550000000"), false, false)], [], []);
    assert "a@b.c"[1] == '@';
    var b := MarkedHubSpot(a, "a@b.c");
    assert b.hubspot == [Record(Some("a@b.c"), Some("+15550000000"), true, false)];
    assert Flagged(b.hubspot[0], "a@b.c");
    assert MarkedHubSpot(b, "+15550000000").hubspot == [Record(Some("a@b.c"), Some("+15550000000"), false, true)];
  }
}
