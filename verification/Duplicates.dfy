/**
 A run in which two workers give one number two HubSpot contacts, although claim phases never
 interleave and no task is in two batches: each worker searches before the other creates.
 */
module Duplicates {
  import opened Basics
  import opened Records
  import opened Text
  import opened Normalizer
  import opened Crm
  import opened Queue
  import opened Registry
  import opened Machine
  import opened Exclusion
  import opened Accounting
  import opened SingleRecord

  // ---------------------------------------------------------------- runs with claims apart

  lemma ApartPrepend(settings: Settings, w: World, e: Event, es: seq<Event>)
    requires Shape(w) && Enabled(w, e) && Shape(Next(settings, w, e)) && Valid(settings, Next(settings, w, e), es)
    ensures Valid(settings, w, [e] + es)
    ensures Apart(w, e) && ClaimsApart(settings, Next(settings, w, e), es) ==> ClaimsApart(settings, w, [e] + es)
  {
    Prepend(settings, w, e, es);
    assert ([e] + es)[1..] == es;
  }

  predicate ExtendsApart(settings: Settings, w: World, es: seq<Event>, e: Event)
    requires Shape(w)
  {
    Valid(settings, w, es + [e]) && ClaimsApart(settings, w, es + [e])
  }

  lemma ApartExtendEarlier(settings: Settings, w: World, es: seq<Event>, e: Event)
    requires Shape(w) && es != [] && Enabled(w, es[0]) && Apart(w, es[0]) && Shape(Next(settings, w, es[0]))
    requires ExtendsApart(settings, Next(settings, w, es[0]), es[1..], e)
    ensures ExtendsApart(settings, w, es, e)
  {
    ApartPrepend(settings, w, es[0], es[1..] + [e]);
    assert es + [e] == [es[0]] + (es[1..] + [e]);
  }

  /** A run with claims apart continues with any step that does not interleave claims. */
  lemma {:induction false} ApartExtend(settings: Settings, w: World, es: seq<Event>, e: Event)
    requires Shape(w) && Valid(settings, w, es) && ClaimsApart(settings, w, es)
    requires Enabled(After(settings, w, es), e) && Apart(After(settings, w, es), e)
    ensures ExtendsApart(settings, w, es, e)
    decreases |es|
  {
    if es == [] {
      NextKeepsShape(settings, w, e);
      ApartPrepend(settings, w, e, []);
      assert es + [e] == [e] + [];
    } else {
      NextKeepsShape(settings, w, es[0]);
      ApartExtend(settings, Next(settings, w, es[0]), es[1..], e);
      ApartExtendEarlier(settings, w, es, e);
    }
  }

  /** The world r is reached from w by a run whose claim phases do not interleave. */
  ghost predicate ReachedApart(settings: Settings, w: World, r: World) {
    Shape(w) && Shape(r) &&
    exists es :: Valid(settings, w, es) && ClaimsApart(settings, w, es) && After(settings, w, es) == r
  }

  lemma ReachedApartSelf(settings: Settings, w: World)
    requires Shape(w)
    ensures ReachedApart(settings, w, w)
  {
    assert Valid(settings, w, []) && ClaimsApart(settings, w, []) && After(settings, w, []) == w;
  }

  lemma TakeApartStep(settings: Settings, w: World, r: World, e: Event) returns (r': World)
    requires ReachedApart(settings, w, r) && Enabled(r, e) && Apart(r, e)
    ensures r' == Next(settings, r, e) && ReachedApart(settings, w, r')
  {
    var es :| Valid(settings, w, es) && ClaimsApart(settings, w, es) && After(settings, w, es) == r;
    NextKeepsShape(settings, r, e);
    Extend(settings, w, es, e);
    ApartExtend(settings, w, es, e);
    r' := Next(settings, r, e);
  }

  // ---------------------------------------------------------------- the run

  const DIGITS := "5550000000"
  const PHONE := "+1" + DIGITS
  const HUBSPOT := Integration(HubSpot, true, None, None, 0)
  /** The task of the first opt-out of the number, and that of a second one. */
  const FIRST := Task(0, 0, Pending, 0, DEFAULT_MAX_RETRIES, None, 0)
  const SECOND := Task(1, 0, Pending, 0, DEFAULT_MAX_RETRIES, None, 0)

  /** One opt-out with its PENDING task, one HubSpot integration with an empty account, two idle workers. */
  function OneOptOut(): World {
    World(0,
          System([OptOut(PHONE, "sms")], map[0 := HUBSPOT], 1, [FIRST], [], [Account([], [], [])]),
          [Idle, Idle],
          History(map[], [0], map[], map[], map[], [], []))
  }

  lemma StartIsInitial()
    ensures Initial(OneOptOut())
  {
  }

  predicate OnlyEligible(w: World, p: nat) {
    p < |w.sys.tasks| && Eligible(w.sys.tasks[p], w.now) &&
    forall i :: 0 <= i < |w.sys.tasks| && i != p ==> !Eligible(w.sys.tasks[i], w.now)
  }

  lemma {:induction false} EligibleOne(w: World, p: nat, n: nat)
    requires OnlyEligible(w, p) && n <= |w.sys.tasks|
    ensures EligibleAmong(w.sys.tasks, w.now, n) == if n <= p then [] else [p]
  {
    if n > 0 {
      EligibleOne(w, p, n - 1);
    }
  }

  lemma OneSelects(settings: Settings, start: World, w: World, p: nat) returns (r: World)
    requires ReachedApart(settings, start, w) && p < |w.workers| && w.workers[p].Idle?
    requires forall q :: 0 <= q < |w.workers| ==> !w.workers[q].Selected?
    requires OnlyEligible(w, p)
    ensures ReachedApart(settings, start, r) && r.now == w.now
    ensures r.sys == w.sys && r.workers == w.workers[p := Selected([p])]
  {
    EligibleOne(w, p, |w.sys.tasks|);
    r := TakeApartStep(settings, start, w, Select(p));
  }

  lemma ClaimOne(tasks: seq<Task>, p: nat)
    requires p < |tasks|
    ensures Claim(tasks, [p]) == tasks[p := Claimed(tasks[p])]
  {
  }

  lemma OneCommits(settings: Settings, start: World, w: World, p: nat) returns (r: World)
    requires ReachedApart(settings, start, w) && p < |w.workers| && w.workers[p] == Selected([p]) && p < |w.sys.tasks|
    ensures ReachedApart(settings, start, r) && r.now == w.now
    ensures r.sys == w.sys.(tasks := w.sys.tasks[p := Claimed(w.sys.tasks[p])])
    ensures r.workers == w.workers[p := Running([p])]
  {
    ClaimOne(w.sys.tasks, p);
    r := TakeApartStep(settings, start, w, CommitClaim(p));
  }

  /** A worker selects and claims the only eligible task while no other worker claims. */
  lemma OneClaims(settings: Settings, start: World, w: World, p: nat) returns (r: World)
    requires ReachedApart(settings, start, w) && p < |w.workers| && w.workers[p].Idle?
    requires forall q :: 0 <= q < |w.workers| ==> !w.workers[q].Selected?
    requires OnlyEligible(w, p)
    ensures ReachedApart(settings, start, r) && r.now == w.now
    ensures r.sys == w.sys.(tasks := w.sys.tasks[p := Claimed(w.sys.tasks[p])])
    ensures r.workers == w.workers[p := Running([p])]
  {
    r := OneSelects(settings, start, w, p);
    r := OneCommits(settings, start, r, p);
  }

  /** Worker 0 claims the first task. */
  lemma FirstClaimed(settings: Settings) returns (r: World)
    ensures ReachedApart(settings, OneOptOut(), r) && r.now == 0
    ensures r.sys == OneOptOut().sys.(tasks := [Claimed(FIRST)]) && r.workers == [Running([0]), Idle]
  {
    r := OneOptOut();
    StartIsInitial();
    ReachedApartSelf(settings, r);
    r := OneClaims(settings, OneOptOut(), r, 0);
  }

  lemma TenDigitsAreCanonical(d: string)
    requires |d| == 10 && forall i :: 0 <= i < |d| ==> IsDigit(d[i])
    ensures Canonicalize("+1" + d) == Some("+1" + d)
  {
    assert forall c :: c in d ==> IsPhoneChar(c) && c != '@';
    PhoneCharsFixed(d);
    PunctuationIsIgnored(d, d);
    CanonicalIsFixed(d);
  }

  lemma PhoneIsCanonical()
    ensures Canonicalize(PHONE) == Some(PHONE)
  {
    TenDigitsAreCanonical(DIGITS);
  }

  lemma OneActive()
    ensures ActiveIds(map[0 := HUBSPOT], 1) == [0]
  {
    assert ActiveIds(map[0 := HUBSPOT], 0) == [];
  }

  /** The system with the second opt-out and its task. */
  lemma AddedSecond(s: System)
    requires WellFormed(s) && |s.optOuts| == 1 && s.integrations == map[0 := HUBSPOT] && s.nextIntegration == 1
    ensures AddOptOut(s, OptOut(PHONE, "api"), 0) ==
            s.(optOuts := s.optOuts + [OptOut(PHONE, "api")], tasks := s.tasks + [SECOND])
  {
    OneActive();
    assert Staged(1, [0], 0) == [SECOND];
  }

  lemma OneIngests(settings: Settings, start: World, w: World) returns (r: World)
    requires ReachedApart(settings, start, w) && w.now == 0
    requires |w.sys.optOuts| == 1 && w.sys.integrations == map[0 := HUBSPOT] && w.sys.nextIntegration == 1
    ensures ReachedApart(settings, start, r) && r.now == 0 && r.workers == w.workers
    ensures r.sys == w.sys.(optOuts := w.sys.optOuts + [OptOut(PHONE, "api")], tasks := w.sys.tasks + [SECOND])
  {
    PhoneIsCanonical();
    AddedSecond(w.sys);
    r := TakeApartStep(settings, start, w, Ingesting(PHONE, "api"));
  }

  /** The system in which both tasks are claimed. */
  function BothProcessing(): System {
    OneOptOut().sys.(optOuts := [OptOut(PHONE, "sms"), OptOut(PHONE, "api")],
                     tasks := [Claimed(FIRST), Claimed(SECOND)])
  }

  lemma SecondIngested(settings: Settings) returns (r: World)
    ensures ReachedApart(settings, OneOptOut(), r) && r.now == 0 && r.workers == [Running([0]), Idle]
    ensures r.sys == BothProcessing().(tasks := [Claimed(FIRST), SECOND])
  {
    r := FirstClaimed(settings);
    r := OneIngests(settings, OneOptOut(), r);
  }

  /** The number opts out again, and worker 1 claims the new task. */
  lemma BothClaimed(settings: Settings) returns (r: World)
    ensures ReachedApart(settings, OneOptOut(), r)
    ensures r.sys == BothProcessing() && r.workers == [Running([0]), Running([1])]
  {
    r := SecondIngested(settings);
    r := SecondClaims(settings, OneOptOut(), r);
  }

  lemma SecondClaims(settings: Settings, start: World, w: World) returns (r: World)
    requires ReachedApart(settings, start, w) && w.workers == [Running([0]), Idle] && w.now == 0
    requires w.sys.tasks == [Claimed(FIRST), SECOND]
    ensures ReachedApart(settings, start, r) && r.workers == [Running([0]), Running([1])]
    ensures r.sys == w.sys.(tasks := [Claimed(FIRST), Claimed(SECOND)])
  {
    r := OneClaims(settings, start, w, 1);
  }

  function Flying(p: nat, call: Call): Worker {
    Attempting([p], Flight(Claimed(if p == 0 then FIRST else SECOND), Some(HUBSPOT), call))
  }

  /** Both load their rows and search; neither finds a contact. */
  lemma BothSearched(settings: Settings) returns (r: World)
    ensures ReachedApart(settings, OneOptOut(), r)
    ensures r.sys == BothProcessing() && r.workers == [Flying(0, HsCreate), Flying(1, HsCreate)]
  {
    r := BothClaimed(settings);
    r := OneSearches(settings, OneOptOut(), r, 0);
    r := OneSearches(settings, OneOptOut(), r, 1);
  }

  lemma OneLoads(settings: Settings, start: World, w: World, p: nat) returns (r: World)
    requires p < 2 && ReachedApart(settings, start, w) && |w.workers| == 2 && w.workers[p] == Running([p])
    requires w.sys == BothProcessing()
    ensures ReachedApart(settings, start, r)
    ensures r.sys == w.sys && r.workers == w.workers[p := Flying(p, HsSearch)]
  {
    r := TakeApartStep(settings, start, w, Load(p));
  }

  lemma OneSearches(settings: Settings, start: World, w: World, p: nat) returns (r: World)
    requires p < 2 && ReachedApart(settings, start, w) && |w.workers| == 2 && w.workers[p] == Running([p])
    requires w.sys == BothProcessing()
    ensures ReachedApart(settings, start, r)
    ensures r.sys == w.sys && r.workers == w.workers[p := Flying(p, HsCreate)]
  {
    r := OneLoads(settings, start, w, p);
    r := TakeApartStep(settings, start, r, Request(p, Delivered));
    assert r.sys.accounts == w.sys.accounts;
  }

  lemma OneCreates(settings: Settings, start: World, w: World, p: nat) returns (r: World)
    requires p < 2 && ReachedApart(settings, start, w) && |w.workers| == 2
    requires w.workers[p] == Flying(p, HsCreate)
    requires w.sys.optOuts == BothProcessing().optOuts && |w.sys.accounts| == 1
    ensures ReachedApart(settings, start, r)
    ensures r.sys.optOuts == w.sys.optOuts && r.workers == w.workers[p := Flying(p, Done(Success))]
    ensures |r.sys.accounts| == 1 && r.sys.accounts[0].hubspot == w.sys.accounts[0].hubspot + [NewRecord(PHONE)]
  {
    r := TakeApartStep(settings, start, w, Request(p, Delivered));
  }

  lemma TwoNewRecords()
    ensures MatchCount([] + [NewRecord(PHONE)] + [NewRecord(PHONE)], PHONE) == 2
  {
    CountNew([], PHONE, PHONE);
    CountNew([] + [NewRecord(PHONE)], PHONE, PHONE);
  }

  /** From an initial world, with claims apart, a run ends with two contacts of one number in an
      account that had none. */
  lemma TwoWorkersDuplicate(settings: Settings) returns (r: World)
    ensures Initial(OneOptOut()) && ReachedApart(settings, OneOptOut(), r)
    ensures MatchCount(OneOptOut().sys.accounts[0].hubspot, PHONE) == 0
    ensures |r.sys.accounts| == 1 && MatchCount(r.sys.accounts[0].hubspot, PHONE) == 2
  {
    StartIsInitial();
    r := BothSearched(settings);
    r := OneCreates(settings, OneOptOut(), r, 0);
    r := OneCreates(settings, OneOptOut(), r, 1);
    TwoNewRecords();
  }
}
