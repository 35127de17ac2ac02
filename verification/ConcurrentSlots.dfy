/** Any number of failover loops, on any number of replicas, over the shared in-flight counters. */
module ConcurrentSlots {
  import opened Shared
  import LC = LeastConnections
  import F = Failover

  type Id = string
  type Request = nat

  /** The requests in progress or done, the shared counters, and the clock. */
  datatype System = System(loops: map<Request, F.Loop>, counters: LC.Counters, now: int)

  datatype Event =
    | Arrive(r: Request, candidates: seq<Id>)
    | Act(r: Request, action: F.Action)
    | Tick(time: int)
    /** An operator clears the breaker of `p`. */
    | ClearBreaker(p: Id)

  const QUIET := System(map[], map[], 0)

  /** What one action of a loop does to the counters. */
  function CountersAfter(s: System, a: F.Action): LC.Counters {
    match a
    case Select(p) => LC.Taken(s.counters, p, s.now)
    case ReleaseSlot(p) =>
      if LC.Gauge(s.counters, p, s.now) > 0 then LC.Returned(s.counters, p, s.now) else s.counters
    case _ => s.counters
  }

  /** A selection is the balancer's choice; everything else follows the loop's own steps. */
  ghost predicate Possible(s: System, e: Event) {
    match e
    case Arrive(r, _) => r !in s.loops
    case Tick(time) => s.now <= time
    case ClearBreaker(_) => true
    case Act(r, a) =>
      && r in s.loops
      && F.Step(s.loops[r], a).Some?
      && (a.Select? ==> a.p == LC.Chosen(s.counters, s.loops[r].remaining, s.now))
  }

  function Next(s: System, e: Event): System
    requires Possible(s, e)
  {
    match e
    case Arrive(r, candidates) => s.(loops := s.loops[r := F.Start(candidates)])
    case Tick(time) => s.(now := time)
    case ClearBreaker(_) => s
    case Act(r, a) => s.(loops := s.loops[r := F.Step(s.loops[r], a).value], counters := CountersAfter(s, a))
  }

  /** The system after a run, if the run can happen. */
  ghost function After(run: seq<Event>): Option<System> {
    if run == [] then Some(QUIET)
    else
      match After(run[..|run| - 1])
      case None => None
      case Some(s) => if Possible(s, run[|run| - 1]) then Some(Next(s, run[|run| - 1])) else None
  }

  /** The requests that hold a slot of `p`. */
  function Holders(s: System, p: Id): set<Request> {
    set r | r in s.loops && s.loops[r].Holding() == Some(p)
  }

  function Gauge(s: System, p: Id): int {
    LC.Gauge(s.counters, p, s.now)
  }

  // ----- one step of one loop -----

  /** A selection takes a slot of its provider, a slot release gives it back, nothing else moves slots. */
  lemma StepMovesSlots(l: F.Loop, a: F.Action)
    requires F.Step(l, a).Some? && F.Tidied(l)
    ensures F.Tidied(F.Step(l, a).value)
    ensures match a
      case Select(p) => l.Holding() == None && F.Step(l, a).value.Holding() == Some(p)
      case ReleaseSlot(p) => l.Holding() == Some(p) && F.Step(l, a).value.Holding() == None
      case _ => F.Step(l, a).value.Holding() == l.Holding()
  {
  }

  lemma HoldersUpdate(s: System, s': System, r: Request, p: Id)
    requires r in s'.loops && s'.loops == s.loops[r := s'.loops[r]]
    ensures Holders(s', p) == Holders(s, p) - {r} + if s'.loops[r].Holding() == Some(p) then {r} else {}
  {
  }

  // ----- conservation -----

  ghost predicate AllTidy(s: System) {
    forall r :: r in s.loops ==> F.Tidied(s.loops[r])
  }

  /** The gauge never exceeds the number of requests holding the provider. */
  ghost predicate NeverOver(s: System) {
    forall p :: 0 <= Gauge(s, p) <= |Holders(s, p)|
  }

  /** The gauge is exactly the number of requests holding the provider. */
  ghost predicate Exact(s: System) {
    forall p :: Gauge(s, p) == |Holders(s, p)|
  }

  /** How one event changes one provider's gauge and holders. */
  lemma {:induction false} StepChange(s: System, e: Event, p: Id)
    requires Possible(s, e) && AllTidy(s) && Gauge(s, p) >= 0
    ensures AllTidy(Next(s, e))
    ensures var g, g', h, h' := Gauge(s, p), Gauge(Next(s, e), p), |Holders(s, p)|, |Holders(Next(s, e), p)|;
      if e.Tick? then h' == h && (g' == g || g' == 0)
      else if e.Act? && e.action == F.Select(p) then g' == g + 1 && h' == h + 1
      else if e.Act? && e.action == F.ReleaseSlot(p) then h' == h - 1 && g' == if g > 0 then g - 1 else 0
      else g' == g && h' == h
  {
    if e.Act? {
      ActChange(s, e.r, e.action, p);
    } else {
      QuietStep(s, e, p);
    }
  }

  /** An arrival, a tick or a cleared breaker moves no slot; a tick may lapse a counter. */
  lemma QuietStep(s: System, e: Event, p: Id)
    requires Possible(s, e) && AllTidy(s) && Gauge(s, p) >= 0 && !e.Act?
    ensures AllTidy(Next(s, e)) && Holders(Next(s, e), p) == Holders(s, p)
    ensures Gauge(Next(s, e), p) == Gauge(s, p) || (e.Tick? && Gauge(Next(s, e), p) == 0)
  {
  }

  lemma {:induction false} ActChange(s: System, r: Request, a: F.Action, p: Id)
    requires Possible(s, Act(r, a)) && AllTidy(s) && Gauge(s, p) >= 0
    ensures AllTidy(Next(s, Act(r, a)))
    ensures var s' := Next(s, Act(r, a));
      var g, g', h, h' := Gauge(s, p), Gauge(s', p), |Holders(s, p)|, |Holders(s', p)|;
      if a == F.Select(p) then g' == g + 1 && h' == h + 1
      else if a == F.ReleaseSlot(p) then h' == h - 1 && g' == if g > 0 then g - 1 else 0
      else g' == g && h' == h
  {
    hide Holders, F.Step, F.Tidied, LC.Gauge, CountersAfter;
    StepMovesSlots(s.loops[r], a);
    HoldersDelta(s, Next(s, Act(r, a)), r, p);
    GaugeDelta(s, a, p);
  }

  lemma {:induction false} HoldersDelta(s: System, s': System, r: Request, p: Id)
    requires r in s.loops && r in s'.loops && s'.loops == s.loops[r := s'.loops[r]]
    ensures var before, after := s.loops[r].Holding() == Some(p), s'.loops[r].Holding() == Some(p);
      |Holders(s', p)| == |Holders(s, p)| + (if after then 1 else 0) - if before then 1 else 0
  {
    HoldersUpdate(s, s', r, p);
    var rest := Holders(s, p) - {r};
    assert r in Holders(s, p) <==> s.loops[r].Holding() == Some(p);
    assert s.loops[r].Holding() != Some(p) ==> rest == Holders(s, p);
    assert s.loops[r].Holding() == Some(p) ==> Holders(s, p) == rest + {r};
    assert s'.loops[r].Holding() != Some(p) ==> Holders(s', p) == rest;
  }

  lemma GaugeDelta(s: System, a: F.Action, p: Id)
    requires Gauge(s, p) >= 0
    ensures LC.Gauge(CountersAfter(s, a), p, s.now) ==
      if a == F.Select(p) then Gauge(s, p) + 1
      else if a == F.ReleaseSlot(p) && Gauge(s, p) > 0 then Gauge(s, p) - 1
      else Gauge(s, p)
  {
  }

  /** In every run, lapsed counters included, no gauge is negative or above the number of requests holding the provider. */
  lemma {:induction false} GaugeNeverOverCounts(run: seq<Event>)
    requires After(run).Some?
    ensures AllTidy(After(run).value) && NeverOver(After(run).value)
  {
    if run == [] {
      assert forall p :: Holders(QUIET, p) == {};
    } else {
      var before, e := run[..|run| - 1], run[|run| - 1];
      var s := After(before).value;
      GaugeNeverOverCounts(before);
      forall p
        ensures AllTidy(Next(s, e)) && 0 <= Gauge(Next(s, e), p) <= |Holders(Next(s, e), p)|
      {
        assert 0 <= Gauge(s, p) <= |Holders(s, p)|;
        StepChange(s, e, p);
      }
    }
  }

  /** In the run, no counter lapses while it is positive. */
  ghost predicate NoLapse(run: seq<Event>)
    requires After(run).Some?
  {
    run == [] || (
      var before, e := run[..|run| - 1], run[|run| - 1];
      && NoLapse(before)
      && (e.Tick? ==> forall p :: Gauge(After(run).value, p) == Gauge(After(before).value, p)))
  }

  /**
   * Conservation over every interleaving: each counter is exactly the number of requests now
   * holding that provider, so success, open-circuit skip, failover and client error all return
   * their slot.
   */
  lemma {:induction false} SlotsAreConserved(run: seq<Event>)
    requires After(run).Some? && NoLapse(run)
    ensures Exact(After(run).value)
  {
    if run == [] {
      assert forall p :: Holders(QUIET, p) == {};
    } else {
      var before, e := run[..|run| - 1], run[|run| - 1];
      var s := After(before).value;
      SlotsAreConserved(before);
      GaugeNeverOverCounts(before);
      forall p
        ensures Gauge(Next(s, e), p) == |Holders(Next(s, e), p)|
      {
        assert Gauge(s, p) == |Holders(s, p)|;
        StepChange(s, e, p);
      }
    }
  }

  ghost predicate AlwaysExact(run: seq<Event>)
    requires After(run).Some?
  {
    Exact(After(run).value) && (run == [] || AlwaysExact(run[..|run| - 1]))
  }

  /** Conservation at every point of a run holds exactly in the runs where no positive counter lapses. */
  lemma {:induction false} ConservedExactlyWithoutLapse(run: seq<Event>)
    requires After(run).Some?
    ensures AlwaysExact(run) <==> NoLapse(run)
  {
    if NoLapse(run) {
      SlotsAreConserved(run);
    }
    if run != [] {
      var before, e := run[..|run| - 1], run[|run| - 1];
      ConservedExactlyWithoutLapse(before);
      if e.Tick? {
        assert forall p :: Holders(After(run).value, p) == Holders(After(before).value, p);
      }
    }
  }

  // ----- lapses in times -----

  /** When `p` was last selected. */
  ghost function LastSelect(run: seq<Event>, p: Id): int
    requires After(run).Some?
  {
    if run == [] then 0
    else
      var before, e := run[..|run| - 1], run[|run| - 1];
      if e.Act? && e.action == F.Select(p) then After(before).value.now else LastSelect(before, p)
  }

  /** No provider is held for as long as its counter lives after the last selection. */
  ghost predicate InTime(run: seq<Event>)
    requires After(run).Some?
  {
    run == [] || (
      var before, e := run[..|run| - 1], run[|run| - 1];
      && InTime(before)
      && (e.Tick? ==> forall p ::
        Holders(After(before).value, p) != {} ==> e.time < LastSelect(before, p) + 600_000))
  }

  lemma {:induction false} CountersLiveFromLastSelect(run: seq<Event>, p: Id)
    requires After(run).Some?
    ensures var cs := After(run).value.counters;
      p in cs && cs[p].Count? ==> cs[p].expiry == LastSelect(run, p) + LC.CONNECTION_TTL_MS
  {
    if run != [] {
      hide F.Step, LC.Chosen, Possible;
      CountersLiveFromLastSelect(run[..|run| - 1], p);
    }
  }

  lemma TickLapses(s: System, time: int, p: Id, last: int)
    requires s.now <= time && 0 <= Gauge(s, p)
    requires p in s.counters && s.counters[p].Count? ==> s.counters[p].expiry == last + LC.CONNECTION_TTL_MS
    ensures Gauge(s.(now := time), p) == Gauge(s, p) <==> Gauge(s, p) == 0 || time < last + LC.CONNECTION_TTL_MS
  {
  }

  /** A run without lapses is one in which no clock tick reaches the end of the lease of a provider that is held. */
  lemma {:induction false} LapsesAreLate(run: seq<Event>)
    requires After(run).Some?
    ensures NoLapse(run) <==> InTime(run)
  {
    if run != [] {
      hide Possible, Gauge, Holders;
      var before, e := run[..|run| - 1], run[|run| - 1];
      LapsesAreLate(before);
      if NoLapse(before) && e.Tick? {
        var s := After(before).value;
        SlotsAreConserved(before);
        forall p
          ensures Gauge(s.(now := e.time), p) == Gauge(s, p) <==>
            (Holders(s, p) != {} ==> e.time < LastSelect(before, p) + LC.CONNECTION_TTL_MS)
        {
          assert Gauge(s, p) == |Holders(s, p)|;
          CountersLiveFromLastSelect(before, p);
          TickMonotone(s, e);
          TickLapses(s, e.time, p, LastSelect(before, p));
        }
      }
    }
  }

  lemma TickMonotone(s: System, e: Event)
    requires Possible(s, e) && e.Tick?
    ensures s.now <= e.time && Next(s, e) == s.(now := e.time)
  {
  }

  /** Conservation at every point of a run holds exactly if no provider stays held until its counter's lease ends. */
  lemma {:induction false} ConservedExactlyInTime(run: seq<Event>)
    requires After(run).Some?
    ensures AlwaysExact(run) <==> InTime(run)
  {
    ConservedExactlyWithoutLapse(run);
    LapsesAreLate(run);
  }

  /** So the zero floor of the release script never fires. */
  lemma {:induction false} FloorNeverFires(run: seq<Event>, r: Request, p: Id)
    requires After(run).Some? && NoLapse(run) && Possible(After(run).value, Act(r, F.ReleaseSlot(p)))
    ensures Gauge(After(run).value, p) > 0
  {
    var s := After(run).value;
    SlotsAreConserved(run);
    GaugeNeverOverCounts(run);
    StepMovesSlots(s.loops[r], F.ReleaseSlot(p));
    assert r in Holders(s, p);
    assert |Holders(s, p)| > 0;
  }

  /** When every request is done (or about to choose), every counter is back to zero. */
  lemma {:induction false} NothingLeaks(run: seq<Event>, p: Id)
    requires After(run).Some? && NoLapse(run)
    requires forall r :: r in After(run).value.loops ==> After(run).value.loops[r].Holding() == None
    ensures Gauge(After(run).value, p) == 0
  {
    SlotsAreConserved(run);
    assert Holders(After(run).value, p) == {};
  }

  /** The balancer gives a request a provider that the fewest other requests now hold. */
  lemma {:induction false} SelectsLeastLoaded(run: seq<Event>, r: Request, p: Id, q: Id)
    requires After(run).Some? && NoLapse(run) && Possible(After(run).value, Act(r, F.Select(p)))
    requires q in After(run).value.loops[r].remaining
    ensures |Holders(After(run).value, p)| <= |Holders(After(run).value, q)|
  {
    var s := After(run).value;
    var ids := s.loops[r].remaining;
    SlotsAreConserved(run);
    LC.ChosenIsFirstLeast(s.counters, ids, s.now);
    var j :| 0 <= j < |ids| && ids[j] == q;
    assert Gauge(s, p) <= Gauge(s, q);
    assert Gauge(s, p) == |Holders(s, p)| && Gauge(s, q) == |Holders(s, q)|;
  }

  // ----- each request runs its own loop -----

  /** What one request did in a run. */
  function Trace(run: seq<Event>, r: Request): seq<F.Action> {
    if run == [] then []
    else
      var e := run[|run| - 1];
      Trace(run[..|run| - 1], r) + if e.Act? && e.r == r then [e.action] else []
  }

  /** The candidates a request arrived with. */
  function Candidates(run: seq<Event>, r: Request): seq<Id> {
    if run == [] then []
    else
      var e := run[|run| - 1];
      if e.Arrive? && e.r == r then e.candidates else Candidates(run[..|run| - 1], r)
  }

  /** In every interleaving each request's own actions are an execution of its failover loop, so its contract holds there too. */
  lemma {:induction false} EveryRequestRunsItsLoop(run: seq<Event>, r: Request)
    requires After(run).Some?
    ensures r !in After(run).value.loops ==> Trace(run, r) == []
    ensures r in After(run).value.loops ==>
      F.Exec(F.Start(Candidates(run, r)), Trace(run, r)) == Some(After(run).value.loops[r])
  {
    if run != [] {
      var before, e := run[..|run| - 1], run[|run| - 1];
      EveryRequestRunsItsLoop(before, r);
      if e.Act? && e.r == r {
        F.ExecAppend(F.Start(Candidates(before, r)), Trace(before, r), [e.action]);
        F.ExecCons(After(before).value.loops[r], e.action, []);
        assert [e.action] + [] == [e.action];
        F.ExecNothing(After(run).value.loops[r]);
      } else if e.Arrive? && e.r == r {
        assert Trace(run, r) == [];
        F.ExecNothing(F.Start(e.candidates));
      } else {
        assert Trace(run, r) == Trace(before, r);
      }
    }
  }

  /** A finished request in any interleaving kept the failover contract. */
  lemma {:induction false} ContractHoldsConcurrently(run: seq<Event>, r: Request, q: Id) returns (vs: seq<F.Visit>)
    requires After(run).Some? && r in After(run).value.loops && After(run).value.loops[r].Done?
    ensures F.Explains(Candidates(run, r), Trace(run, r), After(run).value.loops[r].outcome, vs)
    ensures F.PairedUp(Trace(run, r), q, if F.Visited(vs, q) then 1 else 0)
    ensures F.Visited(vs, q) ==> q in Candidates(run, r)
    ensures var outcome := After(run).value.loops[r].outcome;
      && (outcome.Answered? ==>
        outcome.failoverCount == F.Failures(vs) && vs != [] && vs[|vs| - 1] == F.Visit(outcome.provider, F.Win))
      && (outcome.AllProvidersFailed? ==>
        && outcome.attempts == F.Failures(vs)
        && (forall c :: c in Candidates(run, r) ==> F.Visited(vs, c))
        && forall k :: 0 <= k < |vs| ==> vs[k].ending.Skip? || vs[k].ending.Fail?)
    ensures F.Proper(Trace(run, r)) && F.Outcomes(Candidates(run, r), Trace(run, r), After(run).value.loops[r].outcome)
  {
    EveryRequestRunsItsLoop(run, r);
    vs := F.FailoverContract(Candidates(run, r), Trace(run, r), After(run).value.loops[r].outcome, q);
    F.TraceTellsOutcome(Candidates(run, r), Trace(run, r), After(run).value.loops[r].outcome);
  }
}
