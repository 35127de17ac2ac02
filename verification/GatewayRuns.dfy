/** The traffic control as a whole: failover loops over the shared counters, every provider behind its breaker. */
module GatewayRuns {
  import B = CircuitBreaker
  import F = Failover
  import P = ProbeSlots
  import R = CircuitBreakerRuns
  import S = ConcurrentSlots

  type Id = string

  // ----- what the breakers see -----

  /** What an event at time `now` is to the breaker of `p`. */
  function Seen(e: S.Event, p: Id, now: int): seq<R.Event> {
    match e
    case Act(r, Acquire(q, _)) => if q == p then [R.Event(R.Acquire, now, r)] else []
    case Act(r, RecordSuccess(q)) => if q == p then [R.Event(R.Success, now, r)] else []
    case Act(r, RecordFailure(q)) => if q == p then [R.Event(R.Failure, now, r)] else []
    case Act(r, ReleaseProbe(q)) => if q == p then [R.Event(R.Release, now, r)] else []
    case ClearBreaker(q) => if q == p then [R.Event(R.Reset, now, 0)] else []
    case _ => []
  }

  /** The run of `p`'s breaker within a run of the system. */
  ghost function BreakerRun(run: seq<S.Event>, p: Id): seq<R.Event>
    requires S.After(run).Some?
  {
    if run == [] then []
    else
      var before, e := run[..|run| - 1], run[|run| - 1];
      BreakerRun(before, p) + Seen(e, p, S.After(before).value.now)
  }

  /** Every acquire of the run got the answer of its provider's breaker. */
  ghost predicate Governed(cfg: B.Config, run: seq<S.Event>)
    requires S.After(run).Some?
  {
    run == [] || (
      var before, e := run[..|run| - 1], run[|run| - 1];
      && Governed(cfg, before)
      && (e.Act? && e.action.Acquire? ==>
        e.action.allowed == R.Admits(cfg, R.After(cfg, BreakerRun(before, e.action.p)), S.After(before).value.now)))
  }

  // ----- one loop and one provider -----

  /** The loop may still come to `p`. */
  predicate MayTry(l: F.Loop, p: Id) {
    match l
    case Choosing(remaining, _, _) => p in remaining
    case Selected(q, remaining, _, _) => p == q || p in remaining
    case Calling(_, remaining, _) => p in remaining
    case Reporting(_, _, remaining, _) => p in remaining
    case Releasing(_, next) => MayTry(next, p)
    case Done(_) => false
  }

  /** The provider in hand is no longer a candidate. */
  predicate Apart(l: F.Loop) {
    l.Selected? ==> l.p !in l.remaining
  }

  /** The loop has been admitted to `p` and has not reported yet. */
  predicate InCall(l: F.Loop, p: Id) {
    (l.Calling? || l.Reporting?) && l.p == p
  }

  lemma StepTries(l: F.Loop, a: F.Action, p: Id)
    requires F.Step(l, a).Some? && Apart(l) && F.Tidied(l)
    ensures var l' := F.Step(l, a).value;
      && Apart(l') && F.Tidied(l')
      && (MayTry(l', p) ==> MayTry(l, p))
      && (a.Acquire? && a.p == p ==> MayTry(l, p) && !MayTry(l', p))
  {
    var l' := F.Step(l, a).value;
    if l'.Releasing? {
      assert MayTry(l', p) == MayTry(l'.next, p);
    }
  }

  /** An admission starts a call, a report ends it, and nothing else does either. */
  lemma StepCalls(l: F.Loop, a: F.Action, p: Id)
    requires F.Step(l, a).Some? && F.Tidied(l)
    ensures var l' := F.Step(l, a).value;
      if a == F.Acquire(p, true) then !InCall(l, p) && InCall(l', p)
      else if F.IsReport(p)(a) then InCall(l, p) && !InCall(l', p)
      else InCall(l', p) == InCall(l, p)
  {
  }

  // ----- what holds after every event -----

  ghost predicate LoopsInOrder(s: S.System) {
    forall r :: r in s.loops ==> Apart(s.loops[r]) && F.Tidied(s.loops[r])
  }

  /** A request that acquired at `p` will not come to `p` again. */
  ghost predicate TriedOnce(s: S.System, p: Id, tr: seq<R.Event>) {
    forall j :: 0 <= j < |tr| && tr[j].op == R.Acquire ==> tr[j].call in s.loops && !MayTry(s.loops[tr[j].call], p)
  }

  /** The requests admitted to `p` that have not reported yet. */
  function Callers(s: S.System, p: Id): set<nat> {
    set r | r in s.loops && InCall(s.loops[r], p)
  }

  ghost predicate InStep(cfg: B.Config, s: S.System, p: Id, tr: seq<R.Event>) {
    && LoopsInOrder(s) && TriedOnce(s, p, tr)
    && R.Ordered(tr) && (tr != [] ==> R.Last(tr).now <= s.now)
    && P.Accountable(cfg, tr) && P.Outstanding(cfg, tr) == Callers(s, p)
  }

  lemma LoopsStayInOrder(s: S.System, e: S.Event)
    requires LoopsInOrder(s) && S.Possible(s, e)
    ensures LoopsInOrder(S.Next(s, e))
  {
    if e.Act? {
      StepTries(s.loops[e.r], e.action, "");
    }
  }

  lemma TriesStayOnce(s: S.System, e: S.Event, p: Id, tr: seq<R.Event>)
    requires LoopsInOrder(s) && S.Possible(s, e) && TriedOnce(s, p, tr)
    ensures TriedOnce(S.Next(s, e), p, tr + Seen(e, p, s.now))
  {
    if e.Act? {
      StepTries(s.loops[e.r], e.action, p);
    }
  }

  lemma CallersChange(s: S.System, e: S.Event, p: Id)
    requires LoopsInOrder(s) && S.Possible(s, e)
    ensures Callers(S.Next(s, e), p) ==
      if e.Act? && e.action == F.Acquire(p, true) then Callers(s, p) + {e.r}
      else if e.Act? && F.IsReport(p)(e.action) then Callers(s, p) - {e.r}
      else Callers(s, p)
    ensures e.Act? && F.IsReport(p)(e.action) ==> e.r in Callers(s, p)
  {
    if e.Act? {
      StepCalls(s.loops[e.r], e.action, p);
    }
  }

  lemma OrderedAppend(tr: seq<R.Event>, e: R.Event)
    requires R.Ordered(tr) && (tr != [] ==> R.Last(tr).now <= e.now)
    ensures R.Ordered(tr + [e])
  {
  }

  /** One event of the system keeps the breaker of `p` and the loops in step. */
  lemma {:induction false} EventKeepsStep(cfg: B.Config, s: S.System, e: S.Event, p: Id, tr: seq<R.Event>)
    requires S.Possible(s, e) && InStep(cfg, s, p, tr)
    requires e.Act? && e.action.Acquire? && e.action.p == p ==> e.action.allowed == R.Admits(cfg, R.After(cfg, tr), s.now)
    ensures InStep(cfg, S.Next(s, e), p, tr + Seen(e, p, s.now))
  {
    hide S.Possible, LoopsInOrder, TriedOnce, Callers, R.Ordered, P.Accountable, P.Outstanding, R.Admits, R.After;
    LoopsStayInOrder(s, e);
    TriesStayOnce(s, e, p, tr);
    CallersChange(s, e, p);
    ClockMoves(s, e);
    if Seen(e, p, s.now) == [] {
      assert tr + [] == tr;
    } else {
      var seen := Seen(e, p, s.now)[0];
      assert Seen(e, p, s.now) == [seen];
      OrderedAppend(tr, seen);
      FreshHere(s, e, p, tr);
      P.AccountableAppend(cfg, tr, seen);
      P.OutstandingAppend(cfg, tr, seen);
    }
  }

  lemma ClockMoves(s: S.System, e: S.Event)
    requires S.Possible(s, e)
    ensures s.now <= S.Next(s, e).now && (!e.Tick? ==> S.Next(s, e).now == s.now)
  {
  }

  /** A request that acquires at `p` has not done so before. */
  lemma FreshHere(s: S.System, e: S.Event, p: Id, tr: seq<R.Event>)
    requires S.Possible(s, e) && LoopsInOrder(s) && TriedOnce(s, p, tr)
    ensures e.Act? && e.action.Acquire? && e.action.p == p ==>
      forall j :: 0 <= j < |tr| && tr[j].op == R.Acquire ==> tr[j].call != e.r
  {
    if e.Act? {
      StepTries(s.loops[e.r], e.action, p);
    }
  }

  // ----- the breakers of the running system -----

  /**
   * Whatever the interleaving, the loops keep what the breaker's theorems ask of its callers: its
   * run is in time order, a request acquires at a provider at most once, only an admitted request
   * reports, once; and the admitted requests that have not reported are those now in a call.
   */
  lemma {:induction false} LoopsAreAccountable(cfg: B.Config, run: seq<S.Event>, p: Id)
    requires S.After(run).Some? && Governed(cfg, run)
    ensures InStep(cfg, S.After(run).value, p, BreakerRun(run, p))
  {
    if run == [] {
      NothingYet(cfg, p);
    } else {
      hide InStep, S.Possible, S.Next, R.After, R.Admits;
      var before, e := run[..|run| - 1], run[|run| - 1];
      LoopsAreAccountable(cfg, before, p);
      EventKeepsStep(cfg, S.After(before).value, e, p, BreakerRun(before, p));
    }
  }

  lemma NothingYet(cfg: B.Config, p: Id)
    ensures InStep(cfg, S.QUIET, p, [])
  {
    assert Callers(S.QUIET, p) == {};
    assert P.Outstanding(cfg, []) == {};
  }

  /** When every request is done, every admission at every provider has had its one report. */
  lemma {:induction false} EveryAdmissionReported(cfg: B.Config, run: seq<S.Event>, p: Id)
    requires S.After(run).Some? && Governed(cfg, run)
    requires forall r :: r in S.After(run).value.loops ==> S.After(run).value.loops[r].Done?
    ensures P.Outstanding(cfg, BreakerRun(run, p)) == {}
  {
    hide P.Outstanding, P.Accountable;
    LoopsAreAccountable(cfg, run, p);
    assert Callers(S.After(run).value, p) == {};
  }

  /** The probes in flight of a half-open episode are among the calls outstanding. */
  lemma {:induction false} InFlightIsOutstanding(cfg: B.Config, tr: seq<R.Event>)
    requires R.StateAfter(cfg, tr) == B.HalfOpen && cfg.Valid() && R.Ordered(tr)
    ensures P.Slots(cfg, tr).inFlight <= P.Outstanding(cfg, tr)
  {
    var before, e := R.Init(tr), R.Last(tr);
    R.EveryReachableStateIsSound(cfg, before, e.now);
    if R.StateAfter(cfg, before) == B.HalfOpen {
      InFlightIsOutstanding(cfg, before);
    }
  }

  /**
   * The law of the probe slots in the running system: in every half-open episode of every provider
   * the probes in flight are requests now calling it, and they balance the counter.
   */
  lemma {:induction false} ProbesOfTheGateway(cfg: B.Config, run: seq<S.Event>, p: Id)
    requires cfg.Valid() && S.After(run).Some? && Governed(cfg, run)
    requires R.StateAfter(cfg, BreakerRun(run, p)) == B.HalfOpen
    ensures var tr := BreakerRun(run, p);
      var l, held := P.Slots(cfg, tr), R.After(cfg, tr).halfProbes.Value();
      && l.inFlight <= Callers(S.After(run).value, p)
      && |l.inFlight| + l.unpaid == held + l.forgiven + l.borrowed
      && (P.AlwaysExact(cfg, tr) <==> P.Undisturbed(cfg, tr))
  {
    hide P.Slots, P.Outstanding, P.AlwaysExact, P.Undisturbed, R.After, R.StateAfter;
    LoopsAreAccountable(cfg, run, p);
    InFlightIsOutstanding(cfg, BreakerRun(run, p));
    P.InFlightLaw(cfg, BreakerRun(run, p));
    P.ExactUnlessDisturbed(cfg, BreakerRun(run, p));
  }

  /** A request in a call holds its provider's slot, so the gauge covers every call whose breaker report is due. */
  lemma {:induction false} CallsAreCounted(cfg: B.Config, run: seq<S.Event>, p: Id)
    requires S.After(run).Some? && Governed(cfg, run) && S.InTime(run)
    ensures P.Outstanding(cfg, BreakerRun(run, p)) <= S.Holders(S.After(run).value, p)
    ensures |P.Outstanding(cfg, BreakerRun(run, p))| <= S.Gauge(S.After(run).value, p)
  {
    hide P.Outstanding, P.Accountable, S.InTime;
    LoopsAreAccountable(cfg, run, p);
    S.LapsesAreLate(run);
    S.SlotsAreConserved(run);
    var s := S.After(run).value;
    SubsetIsSmaller(Callers(s, p), S.Holders(s, p));
    assert S.Gauge(s, p) == |S.Holders(s, p)|;
  }

  lemma {:induction false} SubsetIsSmaller(a: set<nat>, b: set<nat>)
    requires a <= b
    ensures |a| <= |b|
  {
    if a != {} {
      var x :| x in a;
      SubsetIsSmaller(a - {x}, b - {x});
    }
  }

  // ----- when the breakers of the running system move -----

  /** The run of `p`'s breaker after one more event. */
  ghost function BreakerAfter(run: seq<S.Event>, e: S.Event, p: Id): seq<R.Event>
    requires S.After(run).Some?
  {
    BreakerRun(run, p) + Seen(e, p, S.After(run).value.now)
  }

  /**
   * In the running system a closed breaker opens exactly when a loop records the failure that
   * completes the row, a half-open one opens exactly when a loop records a failure and closes exactly
   * when a loop records the last success needed or an operator clears it, and an open one moves only
   * for an admitted acquire or an operator.
   */
  lemma {:induction false} BreakersMoveExactly(cfg: B.Config, run: seq<S.Event>, e: S.Event, p: Id)
    requires cfg.Valid() && S.After(run).Some? && Governed(cfg, run) && S.Possible(S.After(run).value, e)
    ensures var tr, tr', now := BreakerRun(run, p), BreakerAfter(run, e, p), S.After(run).value.now;
      var s, s' := R.StateAfter(cfg, tr), R.StateAfter(cfg, tr');
      && (s == B.Closed ==>
        && s' != B.HalfOpen
        && (s' == B.Open <==>
          && e.Act? && e.action == F.RecordFailure(p)
          && R.RowBefore(tr, now, cfg.windowMs) + 1 == cfg.failureThreshold))
      && (s == B.HalfOpen ==>
        && (s' == B.Open <==> e.Act? && e.action == F.RecordFailure(p))
        && (s' == B.Closed <==>
          || e == S.ClearBreaker(p)
          || (e.Act? && e.action == F.RecordSuccess(p) && R.EpisodeSuccesses(cfg, tr) + 1 == cfg.successThreshold)))
      && (s == B.Open ==>
        && (s' == B.Closed <==> e == S.ClearBreaker(p))
        && (s' == B.HalfOpen <==> e.Act? && e.action.Acquire? && e.action.p == p && R.Admits(cfg, R.After(cfg, tr), now)))
  {
    hide P.Accountable, P.Outstanding, LoopsInOrder, TriedOnce, S.Possible, R.After, R.Admits, R.RowBefore, R.EpisodeSuccesses;
    var tr, now := BreakerRun(run, p), S.After(run).value.now;
    LoopsAreAccountable(cfg, run, p);
    if Seen(e, p, now) == [] {
      assert tr + [] == tr;
    } else {
      var seen := Seen(e, p, now)[0];
      assert Seen(e, p, now) == [seen];
      OrderedAppend(tr, seen);
      BreakerMoves(cfg, tr, seen);
    }
  }

  lemma {:induction false} BreakerMoves(cfg: B.Config, tr: seq<R.Event>, seen: R.Event)
    requires cfg.Valid() && R.Ordered(tr + [seen])
    ensures var s, s' := R.StateAfter(cfg, tr), R.StateAfter(cfg, tr + [seen]);
      && (s == B.Closed ==>
        && s' != B.HalfOpen
        && (s' == B.Open <==>
          seen.op == R.Failure && R.RowBefore(tr, seen.now, cfg.windowMs) + 1 == cfg.failureThreshold))
      && (s == B.HalfOpen ==>
        && (s' == B.Open <==> seen.op == R.Failure)
        && (s' == B.Closed <==>
          seen.op == R.Reset || (seen.op == R.Success && R.EpisodeSuccesses(cfg, tr) + 1 == cfg.successThreshold)))
      && (s == B.Open ==>
        && (s' == B.Closed <==> seen.op == R.Reset)
        && (s' == B.HalfOpen <==> seen.op == R.Acquire && R.Admits(cfg, R.After(cfg, tr), seen.now)))
  {
    match R.StateAfter(cfg, tr)
    case Closed => R.OpensExactlyAtThreshold(cfg, tr, seen);
    case HalfOpen => R.HalfOpenLeavesExactly(cfg, tr, seen);
    case Open => R.AfterAppend(cfg, tr, seen);
  }
}
