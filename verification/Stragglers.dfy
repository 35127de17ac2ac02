/** Runs in which calls admitted before an outage report during the half-open episode after it. */
module Stragglers {
  import opened Shared
  import opened CircuitBreaker
  import opened CircuitBreakerRuns
  import opened ProbeSlots

  // ----- building runs -----

  /** A run up to time `now` whose calls are numbered up to `calls`. */
  ghost predicate Tame(cfg: Config, tr: seq<Event>, now: int, calls: nat) {
    Ordered(tr) && Accountable(cfg, tr) && forall j :: 0 <= j < |tr| ==> tr[j].now <= now && tr[j].call <= calls
  }

  lemma TameAppend(cfg: Config, tr: seq<Event>, e: Event, now: int, calls: nat)
    requires Tame(cfg, tr, now, calls) && now <= e.now
    requires e.op == Acquire ==> e.call > calls
    requires IsReport(e.op) ==> e.call in Outstanding(cfg, tr)
    ensures Tame(cfg, tr + [e], e.now, if e.call > calls then e.call else calls)
    ensures After(cfg, tr + [e]) == Apply(cfg, After(cfg, tr), e)
    ensures Outstanding(cfg, tr + [e]) ==
      if e.op == Acquire then Outstanding(cfg, tr) + (if Admits(cfg, After(cfg, tr), e.now) then {e.call} else {})
      else if IsReport(e.op) then Outstanding(cfg, tr) - {e.call}
      else Outstanding(cfg, tr)
  {
    AccountableAppend(cfg, tr, e);
    OutstandingAppend(cfg, tr, e);
    AfterAppend(cfg, tr, e);
    hide Outstanding, After, Accountable;
  }

  /** The calls `from` to `to` have been admitted and have not reported. */
  ghost predicate Waiting(cfg: Config, tr: seq<Event>, from: nat, to: nat) {
    forall c: nat :: from <= c <= to ==> c in Outstanding(cfg, tr)
  }

  // ----- an outage -----

  /** Requests 1 to `early` acquire. */
  function Arrivals(early: nat): seq<Event> {
    if early == 0 then [] else Arrivals(early - 1) + [Event(Acquire, 0, early)]
  }

  /** Then `n` more acquire and fail. */
  function Outage(early: nat, n: nat): seq<Event> {
    if n == 0 then Arrivals(early)
    else Outage(early, n - 1) + [Event(Acquire, 0, early + n)] + [Event(Failure, 0, early + n)]
  }

  /** After the outage and the timeout, `i` probes. */
  function Probing(cfg: Config, early: nat, i: nat): seq<Event>
    requires cfg.Valid()
  {
    if i == 0 then Outage(early, cfg.failureThreshold)
    else Probing(cfg, early, i - 1) + [Event(Acquire, cfg.timeoutMs, early + cfg.failureThreshold + i)]
  }

  lemma {:induction false} EarlyRequests(cfg: Config, early: nat)
    requires cfg.Valid()
    ensures Tame(cfg, Arrivals(early), 0, early) && Waiting(cfg, Arrivals(early), 1, early)
    ensures After(cfg, Arrivals(early)) == NO_KEYS
  {
    hide Tame, After, Outstanding, Admits, Apply, Waiting;
    if early == 0 {
      NothingYet(cfg);
    } else {
      EarlyRequests(cfg, early - 1);
      ClosedAdmits(cfg, Event(Acquire, 0, early));
      TameAppend(cfg, Arrivals(early - 1), Event(Acquire, 0, early), 0, early - 1);
      OneMoreWaiting(cfg, Arrivals(early - 1), Arrivals(early), early);
    }
  }

  lemma OneMoreWaiting(cfg: Config, before: seq<Event>, tr: seq<Event>, early: nat)
    requires early > 0 && Waiting(cfg, before, 1, early - 1)
    requires Outstanding(cfg, tr) == Outstanding(cfg, before) + {early}
    ensures Waiting(cfg, tr, 1, early)
  {
    hide Outstanding;
  }

  lemma NothingYet(cfg: Config)
    ensures Tame(cfg, [], 0, 0) && Waiting(cfg, [], 1, 0) && After(cfg, []) == NO_KEYS
  {
  }

  lemma ClosedAdmits(cfg: Config, e: Event)
    requires e.op == Acquire
    ensures Admits(cfg, NO_KEYS, e.now) && Apply(cfg, NO_KEYS, e) == NO_KEYS
  {
  }

  /** The keys after `n` failures in a row, all at time 0. */
  function OutageKeys(cfg: Config, n: int): Keys {
    if n <= 0 then NO_KEYS
    else if n < cfg.failureThreshold then NO_KEYS.(failures := Count(n, cfg.windowMs))
    else Keys(Some(Open), Count(n, cfg.windowMs), Some(0), Absent, None)
  }

  lemma OutageStep(cfg: Config, n: nat, call: nat)
    requires cfg.Valid() && 0 < n <= cfg.failureThreshold
    ensures Admits(cfg, OutageKeys(cfg, n - 1), 0)
    ensures Apply(cfg, Apply(cfg, OutageKeys(cfg, n - 1), Event(Acquire, 0, call)), Event(Failure, 0, call)) ==
      OutageKeys(cfg, n)
  {
    assert OutageKeys(cfg, n - 1).At(0) == OutageKeys(cfg, n - 1);
  }

  lemma {:induction false} OutageOpens(cfg: Config, early: nat, n: nat)
    requires cfg.Valid() && n <= cfg.failureThreshold
    ensures Tame(cfg, Outage(early, n), 0, early + n) && Waiting(cfg, Outage(early, n), 1, early)
    ensures After(cfg, Outage(early, n)) == OutageKeys(cfg, n)
  {
    hide After, Tame, Outstanding, Apply, Admits, Arrivals;
    if n == 0 {
      EarlyRequests(cfg, early);
    } else {
      hide OutageKeys;
      var before, call := Outage(early, n - 1), early + n;
      OutageOpens(cfg, early, n - 1);
      OutageStep(cfg, n, call);
      TameAppend(cfg, before, Event(Acquire, 0, call), 0, call - 1);
      TameAppend(cfg, before + [Event(Acquire, 0, call)], Event(Failure, 0, call), 0, call);
    }
  }

  lemma OutageIsOpen(cfg: Config)
    requires cfg.Valid()
    ensures OutageKeys(cfg, cfg.failureThreshold).State() == Open
  {
  }

  // ----- the probes after it -----

  /** A full outage, or `i` probes admitted after it at time `timeoutMs`. */
  ghost predicate ProbesAdmitted(cfg: Config, k: Keys, i: nat) {
    if i == 0 then k == OutageKeys(cfg, cfg.failureThreshold)
    else k.State() == HalfOpen && k.halfProbes == Count(i, 2 * cfg.timeoutMs) && k.halfSuccesses == Some(0)
  }

  lemma ProbeStep(cfg: Config, k: Keys, i: nat, call: nat)
    requires cfg.Valid() && i < cfg.maxProbes && ProbesAdmitted(cfg, k, i)
    ensures Admits(cfg, k, cfg.timeoutMs)
    ensures ProbesAdmitted(cfg, Apply(cfg, k, Event(Acquire, cfg.timeoutMs, call)), i + 1)
  {
  }

  /** The episode has admitted `i` probes; all are in flight, and none is one of the early requests. */
  ghost predicate InFlight(cfg: Config, tr: seq<Event>, i: nat, early: nat, calls: nat) {
    && StateAfter(cfg, tr) == HalfOpen
    && |Slots(cfg, tr).inFlight| == Slots(cfg, tr).admitted == i
    && forall c :: c in Slots(cfg, tr).inFlight ==> early < c <= calls
  }

  lemma OneMoreInFlight(cfg: Config, tr: seq<Event>, e: Event, i: nat, early: nat, calls: nat)
    requires e.op == Acquire && e.call > calls >= early
    requires Admits(cfg, After(cfg, tr), e.now) && StateAfter(cfg, tr + [e]) == HalfOpen
    requires if StateAfter(cfg, tr) == HalfOpen then InFlight(cfg, tr, i, early, calls) else i == 0
    ensures InFlight(cfg, tr + [e], i + 1, early, e.call)
  {
    hide Admits, Apply;
    assert Init(tr + [e]) == tr && Last(tr + [e]) == e;
    if StateAfter(cfg, tr) == HalfOpen {
      SlotsAppend(cfg, tr, e);
      assert |Slots(cfg, tr).inFlight + {e.call}| == i + 1;
    }
  }

  lemma {:induction false} ProbesFillTheSlots(cfg: Config, early: nat, i: nat)
    requires cfg.Valid() && i <= cfg.maxProbes
    ensures var tr, calls := Probing(cfg, early, i), early + cfg.failureThreshold + i;
      && Tame(cfg, tr, if i == 0 then 0 else cfg.timeoutMs, calls) && Waiting(cfg, tr, 1, early)
      && ProbesAdmitted(cfg, After(cfg, tr), i) && (i > 0 ==> InFlight(cfg, tr, i, early, calls))
  {
    hide After, Outstanding, Tame, Apply, Admits, Outage, OutageKeys, InFlight;
    if i == 0 {
      OutageOpens(cfg, early, cfg.failureThreshold);
    } else {
      var before, call := Probing(cfg, early, i - 1), early + cfg.failureThreshold + i;
      var e := Event(Acquire, cfg.timeoutMs, call);
      ProbesFillTheSlots(cfg, early, i - 1);
      ProbeStep(cfg, After(cfg, before), i - 1, call);
      TameAppend(cfg, before, e, if i == 1 then 0 else cfg.timeoutMs, call - 1);
      OutageIsOpen(cfg);
      OneMoreInFlight(cfg, before, e, i - 1, early, call - 1);
    }
  }

  /** A report of an early request leaves the probes in flight as they are. */
  lemma StragglerReports(cfg: Config, tr: seq<Event>, e: Event, i: nat, early: nat, calls: nat)
    requires InFlight(cfg, tr, i, early, calls) && IsReport(e.op) && e.call <= early
    requires StateAfter(cfg, tr + [e]) == HalfOpen
    ensures InFlight(cfg, tr + [e], i, early, calls)
  {
    hide After;
    SlotsAppend(cfg, tr, e);
    assert Slots(cfg, tr).inFlight - {e.call} == Slots(cfg, tr).inFlight;
  }

  // ----- what stragglers can do -----

  /**
   * More than maxProbes probes at once, under every configuration, in a run in which every request
   * acquires once and only admitted requests report, once: a call admitted while CLOSED that is
   * released during HALF_OPEN frees a probe's slot.
   */
  lemma {:induction false} StragglerOverAdmits(cfg: Config) returns (tr: seq<Event>)
    requires cfg.Valid()
    ensures Ordered(tr) && Accountable(cfg, tr) && StateAfter(cfg, tr) == HalfOpen
    ensures |Slots(cfg, tr).inFlight| > cfg.maxProbes
  {
    hide After, Outstanding, Accountable, Apply, Admits, Slots;
    var full, calls := Probing(cfg, 1, cfg.maxProbes), 1 + cfg.failureThreshold + cfg.maxProbes;
    var release, acquire := Event(Release, cfg.timeoutMs, 1), Event(Acquire, cfg.timeoutMs, calls + 1);
    ProbesFillTheSlots(cfg, 1, cfg.maxProbes);
    StragglerFreesASlot(cfg, After(cfg, full), release, acquire);
    TameAppend(cfg, full, release, cfg.timeoutMs, calls);
    TameAppend(cfg, full + [release], acquire, cfg.timeoutMs, calls);
    StragglerReports(cfg, full, release, cfg.maxProbes, 1, calls);
    OneMoreInFlight(cfg, full + [release], acquire, cfg.maxProbes, 1, calls);
    tr := full + [release] + [acquire];
  }

  lemma StragglerFreesASlot(cfg: Config, k: Keys, release: Event, acquire: Event)
    requires cfg.Valid() && ProbesAdmitted(cfg, k, cfg.maxProbes)
    requires release.op == Release && acquire.op == Acquire && release.now == acquire.now == cfg.timeoutMs
    ensures var k' := Apply(cfg, k, release);
      k'.State() == HalfOpen && Admits(cfg, k', cfg.timeoutMs) && Apply(cfg, k', acquire).State() == HalfOpen
  {
  }

  /** The early requests 1 to `j` succeed while one probe is in flight. */
  function Returning(cfg: Config, j: nat): seq<Event>
    requires cfg.Valid()
  {
    if j == 0 then Probing(cfg, cfg.successThreshold, 1)
    else Returning(cfg, j - 1) + [Event(Success, cfg.timeoutMs, j)]
  }

  lemma StragglerSucceeds(cfg: Config, k: Keys, e: Event, j: nat)
    requires cfg.Valid() && k.State() == HalfOpen && k.halfSuccesses == Some(j) && e.op == Success
    ensures var k' := Apply(cfg, k, e);
      if j + 1 >= cfg.successThreshold then k'.State() == Closed
      else k'.State() == HalfOpen && k'.halfSuccesses == Some(j + 1)
  {
  }

  lemma {:induction false} StragglersReturn(cfg: Config, j: nat)
    requires cfg.Valid() && j < cfg.successThreshold
    ensures var tr, calls := Returning(cfg, j), cfg.successThreshold + cfg.failureThreshold + 1;
      && Tame(cfg, tr, cfg.timeoutMs, calls) && Waiting(cfg, tr, j + 1, cfg.successThreshold)
      && InFlight(cfg, tr, 1, cfg.successThreshold, calls) && After(cfg, tr).halfSuccesses == Some(j)
  {
    hide After, Outstanding, Tame, Apply, InFlight, Probing;
    if j == 0 {
      ProbesFillTheSlots(cfg, cfg.successThreshold, 1);
    } else {
      var before, e := Returning(cfg, j - 1), Event(Success, cfg.timeoutMs, j);
      var calls := cfg.successThreshold + cfg.failureThreshold + 1;
      StragglersReturn(cfg, j - 1);
      InFlightIsHalfOpen(cfg, before, 1, cfg.successThreshold, calls);
      StragglerSucceeds(cfg, After(cfg, before), e, j - 1);
      TameAppend(cfg, before, e, cfg.timeoutMs, calls);
      StragglerReports(cfg, before, e, 1, cfg.successThreshold, calls);
    }
  }

  lemma InFlightIsHalfOpen(cfg: Config, tr: seq<Event>, i: nat, early: nat, calls: nat)
    requires InFlight(cfg, tr, i, early, calls)
    ensures StateAfter(cfg, tr) == HalfOpen
  {
  }

  /**
   * HALF_OPEN can close without any probe having reported, under every configuration and in such a
   * run: the successes of calls admitted while CLOSED count as well.
   */
  lemma {:induction false} StragglersClose(cfg: Config) returns (tr: seq<Event>, last: Event)
    requires cfg.Valid()
    ensures Ordered(tr + [last]) && Accountable(cfg, tr + [last])
    ensures StateAfter(cfg, tr) == HalfOpen && StateAfter(cfg, tr + [last]) == Closed
    ensures var l := Slots(cfg, tr); |l.inFlight| == l.admitted && last.op == Success && last.call !in l.inFlight
  {
    hide After, Outstanding, Accountable, Apply, Slots;
    var s := cfg.successThreshold;
    tr, last := Returning(cfg, s - 1), Event(Success, cfg.timeoutMs, s);
    StragglersReturn(cfg, s - 1);
    StragglerSucceeds(cfg, After(cfg, tr), last, s - 1);
    TameAppend(cfg, tr, last, cfg.timeoutMs, s + cfg.failureThreshold + 1);
  }
}
