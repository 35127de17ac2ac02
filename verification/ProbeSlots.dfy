/** The probe slots of a half-open episode: where each one is, and when the counter tells the truth. */
module ProbeSlots {
  import opened Shared
  import opened CircuitBreaker
  import opened CircuitBreakerRuns

  /**
   * The slots of one half-open episode: admissions, slots handed back, slots lost to an expired
   * lease; of the reports, those of strangers that freed a slot and those of this episode's own
   * probes that found none to free; and the probes admitted that have not reported yet.
   */
  datatype Ledger = Ledger(
    admitted: nat, returned: nat, forgiven: nat, borrowed: nat, unpaid: nat, inFlight: set<nat>)

  ghost function Slots(cfg: Config, tr: seq<Event>): Ledger
    requires StateAfter(cfg, tr) == HalfOpen
  {
    if StateAfter(cfg, Init(tr)) != HalfOpen then Ledger(1, 0, 0, 0, 0, {Last(tr).call})
    else Entered(cfg, After(cfg, Init(tr)), Slots(cfg, Init(tr)), Last(tr))
  }

  /** The ledger after one more event of the episode. */
  function Entered(cfg: Config, k: Keys, l: Ledger, e: Event): Ledger {
    var held := k.At(e.now).halfProbes.Value();
    var lost := k.halfProbes.Value() - held;
    var l := l.(forgiven := if lost > 0 then l.forgiven + lost else l.forgiven);
    match e.op
    case Acquire =>
      if Admits(cfg, k, e.now) then l.(admitted := l.admitted + 1, inFlight := l.inFlight + {e.call}) else l
    case Reset => l
    case _ =>
      var own := e.call in l.inFlight;
      l.(returned := l.returned + if held > 0 then 1 else 0,
         borrowed := l.borrowed + if held > 0 && !own then 1 else 0,
         unpaid := l.unpaid + if held <= 0 && own then 1 else 0,
         inFlight := l.inFlight - {e.call})
  }

  /** Requests are distinct: a request acquires at most once. */
  ghost predicate FreshAcquires(tr: seq<Event>) {
    forall j, k :: 0 <= j < k < |tr| && tr[j].op == Acquire && tr[k].op == Acquire ==> tr[j].call != tr[k].call
  }

  lemma {:induction false} NotInFlight(cfg: Config, tr: seq<Event>, call: nat)
    requires StateAfter(cfg, tr) == HalfOpen
    requires forall j :: 0 <= j < |tr| && tr[j].op == Acquire ==> tr[j].call != call
    ensures call !in Slots(cfg, tr).inFlight
  {
    EpisodeStartMeaning(cfg, tr);
    if StateAfter(cfg, Init(tr)) == HalfOpen {
      NotInFlight(cfg, Init(tr), call);
    }
  }

  ghost predicate Conserved(cfg: Config, k: Keys, l: Ledger) {
    l.admitted == k.halfProbes.Value() + l.returned + l.forgiven && 0 <= k.halfProbes.Value() <= cfg.maxProbes
  }

  lemma EntryConserves(cfg: Config, k: Keys, l: Ledger, e: Event)
    requires cfg.Valid() && Sound(cfg, k, e.now) && k.State() == HalfOpen && Apply(cfg, k, e).State() == HalfOpen
    requires Conserved(cfg, k, l)
    ensures Conserved(cfg, Apply(cfg, k, e), Entered(cfg, k, l, e))
  {
  }

  /**
   * Conservation in every half-open episode: admissions = probe counter + slots returned + slots
   * forgiven by lease expiry, with 0 <= counter <= maxProbes.
   */
  lemma {:induction false} SlotsAreConserved(cfg: Config, tr: seq<Event>)
    requires cfg.Valid() && Ordered(tr) && StateAfter(cfg, tr) == HalfOpen
    ensures var l, held := Slots(cfg, tr), After(cfg, tr).halfProbes.Value();
      l.admitted == held + l.returned + l.forgiven && 0 <= held <= cfg.maxProbes
  {
    var before := Init(tr);
    EveryReachableStateIsSound(cfg, before, Last(tr).now);
    if StateAfter(cfg, before) == HalfOpen {
      SlotsAreConserved(cfg, before);
      EntryConserves(cfg, After(cfg, before), Slots(cfg, before), Last(tr));
    }
  }

  ghost predicate LawHolds(k: Keys, l: Ledger) {
    |l.inFlight| + l.unpaid == k.halfProbes.Value() + l.forgiven + l.borrowed
  }

  lemma EntryKeepsLaw(cfg: Config, k: Keys, l: Ledger, e: Event)
    requires cfg.Valid() && Sound(cfg, k, e.now) && k.State() == HalfOpen && Apply(cfg, k, e).State() == HalfOpen
    requires LawHolds(k, l)
    requires e.op == Acquire ==> e.call !in l.inFlight
    ensures LawHolds(Apply(cfg, k, e), Entered(cfg, k, l, e))
  {
    if e.op == Acquire {
      assert |l.inFlight + {e.call}| == |l.inFlight| + 1;
    } else if e.call in l.inFlight {
      assert |l.inFlight - {e.call}| == |l.inFlight| - 1;
    } else {
      assert l.inFlight - {e.call} == l.inFlight;
    }
  }

  /** The exact law between the probe counter and the probes really in flight. */
  lemma {:induction false} InFlightLaw(cfg: Config, tr: seq<Event>)
    requires cfg.Valid() && Ordered(tr) && FreshAcquires(tr) && StateAfter(cfg, tr) == HalfOpen
    ensures var l := Slots(cfg, tr);
      |l.inFlight| + l.unpaid == After(cfg, tr).halfProbes.Value() + l.forgiven + l.borrowed
  {
    var before, e := Init(tr), Last(tr);
    EveryReachableStateIsSound(cfg, before, e.now);
    if StateAfter(cfg, before) == HalfOpen {
      InFlightLaw(cfg, before);
      if e.op == Acquire {
        assert forall j :: 0 <= j < |before| ==> before[j] == tr[j];
        NotInFlight(cfg, before, e.call);
      }
      EntryKeepsLaw(cfg, After(cfg, before), Slots(cfg, before), e);
    }
  }

  // ----- when the counter is the number of probes in flight -----

  predicate IsReport(op: Op) {
    op == Success || op == Failure || op == Release
  }

  /** The episode admitted the call and the call has not reported since. */
  ghost predicate Unreported(cfg: Config, tr: seq<Event>, call: nat)
    requires StateAfter(cfg, tr) == HalfOpen
  {
    exists i :: EpisodeStart(cfg, tr) <= i < |tr| && AdmittedAt(cfg, tr, i, call) && SilentSince(tr, i, call)
  }

  ghost predicate AdmittedAt(cfg: Config, tr: seq<Event>, i: nat, call: nat)
    requires i < |tr|
  {
    tr[i].op == Acquire && tr[i].call == call && Admits(cfg, After(cfg, tr[..i]), tr[i].now)
  }

  ghost predicate SilentSince(tr: seq<Event>, i: nat, call: nat) {
    forall j :: i < j < |tr| && IsReport(tr[j].op) ==> tr[j].call != call
  }

  /** A call is still unreported, or newly admitted. */
  lemma {:induction false} UnreportedStep(cfg: Config, tr: seq<Event>, call: nat)
    requires StateAfter(cfg, tr) == HalfOpen && StateAfter(cfg, Init(tr)) == HalfOpen
    ensures var before, e := Init(tr), Last(tr);
      Unreported(cfg, tr, call) <==>
        if e.op == Acquire && e.call == call && Admits(cfg, After(cfg, before), e.now) then true
        else Unreported(cfg, before, call) && !(IsReport(e.op) && e.call == call)
  {
    hide Admits;
    var before, e, n := Init(tr), Last(tr), |tr| - 1;
    assert tr[..n] == before;
    assert forall i :: 0 <= i < n ==> before[i] == tr[i] && before[..i] == tr[..i];
    if AdmittedAt(cfg, tr, n, call) {
      assert SilentSince(tr, n, call);
    }
    forall i: nat | EpisodeStart(cfg, before) <= i < n
      ensures AdmittedAt(cfg, before, i, call) == AdmittedAt(cfg, tr, i, call)
      ensures SilentSince(tr, i, call) <==> SilentSince(before, i, call) && !(IsReport(e.op) && e.call == call)
    {
      assert tr[n] == e;
    }
  }

  /** The ledger's calls in flight are the ones the events say. */
  lemma {:induction false} InFlightMeaning(cfg: Config, tr: seq<Event>, call: nat)
    requires cfg.Valid() && Ordered(tr) && StateAfter(cfg, tr) == HalfOpen
    ensures call in Slots(cfg, tr).inFlight <==> Unreported(cfg, tr, call)
  {
    hide AdmittedAt, SilentSince;
    var before, e, n := Init(tr), Last(tr), |tr| - 1;
    EveryReachableStateIsSound(cfg, before, e.now);
    if StateAfter(cfg, before) == HalfOpen {
      hide Unreported, Admits;
      InFlightMeaning(cfg, before, call);
      UnreportedStep(cfg, tr, call);
    } else {
      FirstUnreported(cfg, tr, call);
    }
  }

  lemma FirstUnreported(cfg: Config, tr: seq<Event>, call: nat)
    requires cfg.Valid() && StateAfter(cfg, tr) == HalfOpen && StateAfter(cfg, Init(tr)) != HalfOpen
    requires Sound(cfg, After(cfg, Init(tr)), Last(tr).now)
    ensures Unreported(cfg, tr, call) <==> call == Last(tr).call
  {
    var n := |tr| - 1;
    assert tr[..n] == Init(tr) && tr[n] == Last(tr);
    assert AdmittedAt(cfg, tr, n, Last(tr).call) && SilentSince(tr, n, Last(tr).call);
  }

  /**
   * An event that tells the counter apart from the probes in flight, while the counter is positive:
   * a report of a call that is not an unreported probe of the episode, or any event that comes
   * `timeoutMs` or more after the last admission. One late event does no harm: the report of the
   * only probe, which gives back the one slot the lease has just forgiven.
   */
  ghost predicate Disturbs(cfg: Config, tr: seq<Event>, e: Event)
    requires StateAfter(cfg, tr) == HalfOpen
  {
    var held, late := After(cfg, tr).halfProbes.Value(), e.now >= LastAdmission(cfg, tr) + cfg.timeoutMs;
    held > 0 && if IsReport(e.op) then !Unreported(cfg, tr, e.call) || (late && held > 1) else late
  }

  ghost predicate Undisturbed(cfg: Config, tr: seq<Event>)
    requires StateAfter(cfg, tr) == HalfOpen
  {
    StateAfter(cfg, Init(tr)) == HalfOpen ==> Undisturbed(cfg, Init(tr)) && !Disturbs(cfg, Init(tr), Last(tr))
  }

  /** At every point of the episode so far the counter is the number of probes in flight. */
  ghost predicate AlwaysExact(cfg: Config, tr: seq<Event>)
    requires StateAfter(cfg, tr) == HalfOpen
  {
    && |Slots(cfg, tr).inFlight| == After(cfg, tr).halfProbes.Value()
    && (StateAfter(cfg, Init(tr)) == HalfOpen ==> AlwaysExact(cfg, Init(tr)))
  }

  lemma AcquireKeepsExact(cfg: Config, k: Keys, l: Ledger, e: Event, last: int)
    requires cfg.Valid() && k.State() == HalfOpen && e.op == Acquire && e.call !in l.inFlight
    requires |l.inFlight| == k.halfProbes.Value() <= cfg.maxProbes
    requires k.halfProbes.Count? ==> k.halfProbes.expiry == last + cfg.timeoutMs
    ensures |Entered(cfg, k, l, e).inFlight| == Apply(cfg, k, e).halfProbes.Value() <==>
      !(k.halfProbes.Value() > 0 && e.now >= last + cfg.timeoutMs)
  {
    assert |l.inFlight + {e.call}| == |l.inFlight| + 1;
    assert Admits(cfg, k, e.now) <==> k.At(e.now).halfProbes.Value() < cfg.maxProbes;
  }

  lemma ReportKeepsExact(cfg: Config, k: Keys, l: Ledger, e: Event, last: int)
    requires cfg.Valid() && k.State() == HalfOpen && Apply(cfg, k, e).State() == HalfOpen && IsReport(e.op)
    requires |l.inFlight| == k.halfProbes.Value()
    requires k.halfProbes.Count? ==> k.halfProbes.expiry == last + cfg.timeoutMs
    ensures var held, late := k.halfProbes.Value(), e.now >= last + cfg.timeoutMs;
      |Entered(cfg, k, l, e).inFlight| == Apply(cfg, k, e).halfProbes.Value() <==>
        !(held > 0 && (e.call !in l.inFlight || (late && held > 1)))
  {
    assert Apply(cfg, k, e).halfProbes == k.At(e.now).halfProbes.Decremented();
    if e.call in l.inFlight {
      assert |l.inFlight - {e.call}| == |l.inFlight| - 1;
    } else {
      assert l.inFlight - {e.call} == l.inFlight;
    }
  }

  /** The counter is the number of probes in flight at every point of an episode exactly if no event disturbs it. */
  lemma {:induction false} ExactUnlessDisturbed(cfg: Config, tr: seq<Event>)
    requires cfg.Valid() && Ordered(tr) && FreshAcquires(tr) && StateAfter(cfg, tr) == HalfOpen
    ensures AlwaysExact(cfg, tr) <==> Undisturbed(cfg, tr)
  {
    hide Entered, Unreported;
    var before, e := Init(tr), Last(tr);
    EveryReachableStateIsSound(cfg, before, e.now);
    if StateAfter(cfg, before) == HalfOpen {
      ExactUnlessDisturbed(cfg, before);
      if AlwaysExact(cfg, before) {
        if e.op == Acquire {
          assert forall j :: 0 <= j < |before| ==> before[j] == tr[j];
          NotInFlight(cfg, before, e.call);
        }
        InFlightMeaning(cfg, before, e.call);
        LeaseRunsFromLastAdmission(cfg, before);
        var k, l, last := After(cfg, before), Slots(cfg, before), LastAdmission(cfg, before);
        if e.op == Acquire {
          AcquireKeepsExact(cfg, k, l, e, last);
        } else {
          ReportKeepsExact(cfg, k, l, e, last);
        }
      }
    } else {
      FirstProbe(cfg, After(cfg, before), e);
    }
  }

  lemma FirstProbe(cfg: Config, k: Keys, e: Event)
    requires cfg.Valid() && Sound(cfg, k, e.now) && k.State() != HalfOpen && Apply(cfg, k, e).State() == HalfOpen
    ensures Apply(cfg, k, e).halfProbes.Value() == 1
  {
  }

  /** Every report of the episode is of a probe of the episode that has not reported yet, and nothing comes late. */
  ghost predicate OwnReportsInTime(cfg: Config, tr: seq<Event>)
    requires StateAfter(cfg, tr) == HalfOpen
  {
    StateAfter(cfg, Init(tr)) == HalfOpen ==>
      && OwnReportsInTime(cfg, Init(tr))
      && (IsReport(Last(tr).op) ==> Unreported(cfg, Init(tr), Last(tr).call))
      && (After(cfg, Init(tr)).halfProbes.Value() > 0 ==> Last(tr).now < LastAdmission(cfg, Init(tr)) + cfg.timeoutMs)
  }

  /**
   * If only the episode's own probes report and no lease runs out, the counter is at every point the
   * number of probes in flight, so at most maxProbes run at once.
   */
  lemma {:induction false} CounterIsExact(cfg: Config, tr: seq<Event>)
    requires cfg.Valid() && Ordered(tr) && FreshAcquires(tr) && StateAfter(cfg, tr) == HalfOpen
    requires OwnReportsInTime(cfg, tr)
    ensures AlwaysExact(cfg, tr)
    ensures |Slots(cfg, tr).inFlight| == After(cfg, tr).halfProbes.Value() <= cfg.maxProbes
  {
    OwnInTimeIsUndisturbed(cfg, tr);
    ExactUnlessDisturbed(cfg, tr);
    SlotsAreConserved(cfg, tr);
  }

  lemma {:induction false} OwnInTimeIsUndisturbed(cfg: Config, tr: seq<Event>)
    requires StateAfter(cfg, tr) == HalfOpen && OwnReportsInTime(cfg, tr)
    ensures Undisturbed(cfg, tr)
  {
    hide LastAdmission, Unreported;
    if StateAfter(cfg, Init(tr)) == HalfOpen {
      OwnInTimeIsUndisturbed(cfg, Init(tr));
    }
  }

  /**
   * In the ledger's terms: with nothing forgiven and nothing freed by strangers every own report
   * frees its slot and the counter is exact; in any case the probes in flight exceed maxProbes by
   * no more than what was forgiven or freed by strangers.
   */
  lemma {:induction false} LedgerExactness(cfg: Config, tr: seq<Event>)
    requires cfg.Valid() && Ordered(tr) && FreshAcquires(tr) && StateAfter(cfg, tr) == HalfOpen
    ensures var l, held := Slots(cfg, tr), After(cfg, tr).halfProbes.Value();
      && (l.forgiven == 0 && l.borrowed == 0 ==> l.unpaid == 0 && |l.inFlight| == held <= cfg.maxProbes)
      && |l.inFlight| <= cfg.maxProbes + l.forgiven + l.borrowed
  {
    InFlightLaw(cfg, tr);
    SlotsAreConserved(cfg, tr);
    if StateAfter(cfg, Init(tr)) == HalfOpen {
      LedgerExactness(cfg, Init(tr));
    }
  }

  // ----- what callers do -----

  /** The calls admitted, in whatever state, that have not reported yet. */
  ghost function Outstanding(cfg: Config, tr: seq<Event>): set<nat> {
    if tr == [] then {}
    else
      var open, e := Outstanding(cfg, Init(tr)), Last(tr);
      if e.op == Acquire then (if Admits(cfg, After(cfg, Init(tr)), e.now) then open + {e.call} else open)
      else if IsReport(e.op) then open - {e.call}
      else open
  }

  /** What callers do: each request acquires at most once, and only an admitted request reports, once. */
  ghost predicate Accountable(cfg: Config, tr: seq<Event>) {
    FreshAcquires(tr) && forall j :: 0 <= j < |tr| && IsReport(tr[j].op) ==> tr[j].call in Outstanding(cfg, tr[..j])
  }

  lemma AccountableAppend(cfg: Config, tr: seq<Event>, e: Event)
    requires Accountable(cfg, tr)
    requires e.op == Acquire ==> forall j :: 0 <= j < |tr| && tr[j].op == Acquire ==> tr[j].call != e.call
    requires IsReport(e.op) ==> e.call in Outstanding(cfg, tr)
    ensures Accountable(cfg, tr + [e])
  {
    hide Outstanding;
    var all := tr + [e];
    assert forall j :: 0 <= j < |tr| ==> all[j] == tr[j] && all[..j] == tr[..j];
    assert all[..|tr|] == tr;
  }

  /** What one more event does to the calls outstanding. */
  lemma OutstandingAppend(cfg: Config, tr: seq<Event>, e: Event)
    ensures Outstanding(cfg, tr + [e]) ==
      if e.op == Acquire then Outstanding(cfg, tr) + (if Admits(cfg, After(cfg, tr), e.now) then {e.call} else {})
      else if IsReport(e.op) then Outstanding(cfg, tr) - {e.call}
      else Outstanding(cfg, tr)
  {
    assert Init(tr + [e]) == tr;
  }

  // ----- exactly when the bound is safe -----

  lemma SlotsAppend(cfg: Config, tr: seq<Event>, e: Event)
    requires StateAfter(cfg, tr) == HalfOpen && StateAfter(cfg, tr + [e]) == HalfOpen
    ensures Slots(cfg, tr + [e]) == Entered(cfg, After(cfg, tr), Slots(cfg, tr), e)
  {
    assert Init(tr + [e]) == tr;
  }

  lemma EntryStaysBelow(cfg: Config, k: Keys, l: Ledger, e: Event)
    requires k.State() == HalfOpen && Apply(cfg, k, e).State() == HalfOpen
    requires 0 <= k.halfProbes.Value() <= |l.inFlight| && (e.op == Acquire ==> e.call !in l.inFlight)
    ensures Apply(cfg, k, e).halfProbes.Value() <= |Entered(cfg, k, l, e).inFlight|
  {
    if e.op == Acquire {
      assert |l.inFlight + {e.call}| == |l.inFlight| + 1;
    } else if e.call in l.inFlight {
      assert |l.inFlight - {e.call}| == |l.inFlight| - 1;
    } else {
      assert l.inFlight - {e.call} == l.inFlight;
    }
  }

  /** In every half-open run the counter is at most the number of probes in flight. */
  lemma {:induction false} CounterNeverOver(cfg: Config, tr: seq<Event>)
    requires cfg.Valid() && Ordered(tr) && FreshAcquires(tr) && StateAfter(cfg, tr) == HalfOpen
    ensures After(cfg, tr).halfProbes.Value() <= |Slots(cfg, tr).inFlight|
  {
    hide Entered, Apply, Admits;
    var before, e := Init(tr), Last(tr);
    EveryReachableStateIsSound(cfg, before, e.now);
    if StateAfter(cfg, before) == HalfOpen {
      CounterNeverOver(cfg, before);
      SlotsAreConserved(cfg, before);
      if e.op == Acquire {
        assert forall j :: 0 <= j < |before| ==> before[j] == tr[j];
        NotInFlight(cfg, before, e.call);
      }
      EntryStaysBelow(cfg, After(cfg, before), Slots(cfg, before), e);
    } else {
      FirstProbe(cfg, After(cfg, before), e);
    }
  }

  /** The counter as a script started at `now` reads it. */
  function Held(cfg: Config, tr: seq<Event>, now: int): int {
    After(cfg, tr).At(now).halfProbes.Value()
  }

  predicate AcquiresAt(more: seq<Event>, now: int) {
    forall j :: 0 <= j < |more| ==> more[j].op == Acquire && more[j].now == now
  }

  lemma AcquireNow(cfg: Config, k: Keys, l: Ledger, e: Event)
    requires cfg.Valid() && k.State() == HalfOpen && e.op == Acquire && e.call !in l.inFlight
    ensures var k', held, held' :=
        Apply(cfg, k, e), k.At(e.now).halfProbes.Value(), Apply(cfg, k, e).At(e.now).halfProbes.Value();
      && k'.State() == HalfOpen
      && held' == (if held < cfg.maxProbes then held + 1 else held)
      && |Entered(cfg, k, l, e).inFlight| == |l.inFlight| + held' - held
  {
    assert |l.inFlight + {e.call}| == |l.inFlight| + 1;
    assert k.halfProbes.At(e.now).At(e.now) == k.halfProbes.At(e.now);
  }

  /** Acquires at one time raise the counter and the probes in flight together, until the counter is at its limit. */
  lemma {:induction false} AcquiresRaiseBoth(cfg: Config, tr: seq<Event>, more: seq<Event>, now: int)
    requires cfg.Valid() && Ordered(tr) && StateAfter(cfg, tr) == HalfOpen && (tr != [] ==> Last(tr).now <= now)
    requires AcquiresAt(more, now) && FreshAcquires(tr + more)
    ensures StateAfter(cfg, tr + more) == HalfOpen
    ensures var held, held' := Held(cfg, tr, now), Held(cfg, tr + more, now);
      && held' == (
        if held + |more| <= cfg.maxProbes then held + |more| else if held <= cfg.maxProbes then cfg.maxProbes else held)
      && |Slots(cfg, tr + more).inFlight| == |Slots(cfg, tr).inFlight| + held' - held
    decreases |more|
  {
    if more == [] {
      assert tr + more == tr;
    } else {
      hide Entered, Apply, Admits, After, Slots;
      var n := |more| - 1;
      var before, e := tr + more[..n], more[n];
      assert before + [e] == tr + more;
      FreshPrefix(before, e);
      AcquiresRaiseBoth(cfg, tr, more[..n], now);
      NotInFlight(cfg, before, e.call);
      AcquireNow(cfg, After(cfg, before), Slots(cfg, before), e);
      AfterAppend(cfg, before, e);
      SlotsAppend(cfg, before, e);
    }
  }

  lemma FreshPrefix(tr: seq<Event>, e: Event)
    requires FreshAcquires(tr + [e])
    ensures FreshAcquires(tr)
    ensures e.op == Acquire ==> forall j :: 0 <= j < |tr| && tr[j].op == Acquire ==> tr[j].call != e.call
  {
    var all := tr + [e];
    assert all[|tr|] == e && forall j :: 0 <= j < |tr| ==> all[j] == tr[j];
  }

  /** No call of the run has a higher number. */
  function MaxCall(tr: seq<Event>): (c: nat)
    ensures forall j :: 0 <= j < |tr| ==> tr[j].call <= c
  {
    if tr == [] then 0
    else
      var c := MaxCall(Init(tr));
      if Last(tr).call > c then Last(tr).call else c
  }

  /** `n` acquires at `now` by requests not seen before. */
  function NewProbes(tr: seq<Event>, n: nat, now: int): (more: seq<Event>)
    ensures |more| == n
    ensures forall j :: 0 <= j < n ==> more[j] == Event(Acquire, now, MaxCall(tr) + 1 + j)
  {
    seq(n, j requires 0 <= j < n => Event(Acquire, now, MaxCall(tr) + 1 + j))
  }

  lemma NewProbesAreFresh(tr: seq<Event>, n: nat, now: int)
    requires FreshAcquires(tr)
    ensures AcquiresAt(NewProbes(tr, n, now), now) && FreshAcquires(tr + NewProbes(tr, n, now))
  {
  }

  /** These acquires at `now` bring more than maxProbes probes into flight. */
  ghost predicate OverAdmits(cfg: Config, tr: seq<Event>, more: seq<Event>, now: int) {
    && AcquiresAt(more, now) && FreshAcquires(tr + more)
    && StateAfter(cfg, tr + more) == HalfOpen && |Slots(cfg, tr + more).inFlight| > cfg.maxProbes
  }

  /**
   * New requests acquiring at some moment of an episode can bring more than maxProbes probes into
   * flight exactly if the counter read then is not the number of probes in flight.
   */
  lemma {:induction false} OverAdmitsExactly(cfg: Config, tr: seq<Event>, now: int)
    requires cfg.Valid() && Ordered(tr) && FreshAcquires(tr) && StateAfter(cfg, tr) == HalfOpen && Last(tr).now <= now
    ensures (exists more :: OverAdmits(cfg, tr, more, now)) <==> |Slots(cfg, tr).inFlight| != Held(cfg, tr, now)
  {
    hide After, Slots;
    HeldInRange(cfg, tr, now);
    if |Slots(cfg, tr).inFlight| == Held(cfg, tr, now) {
      forall more | AcquiresAt(more, now) && FreshAcquires(tr + more)
        ensures !OverAdmits(cfg, tr, more, now)
      {
        AcquiresRaiseBoth(cfg, tr, more, now);
      }
    } else {
      var more := NewProbes(tr, cfg.maxProbes - Held(cfg, tr, now), now);
      NewProbesAreFresh(tr, cfg.maxProbes - Held(cfg, tr, now), now);
      AcquiresRaiseBoth(cfg, tr, more, now);
      assert OverAdmits(cfg, tr, more, now);
    }
  }

  lemma HeldInRange(cfg: Config, tr: seq<Event>, now: int)
    requires cfg.Valid() && Ordered(tr) && FreshAcquires(tr) && StateAfter(cfg, tr) == HalfOpen
    ensures 0 <= Held(cfg, tr, now) <= cfg.maxProbes && Held(cfg, tr, now) <= |Slots(cfg, tr).inFlight|
  {
    SlotsAreConserved(cfg, tr);
    CounterNeverOver(cfg, tr);
    hide Slots;
  }
}
