/** What holds of the circuit breaker over every run of its operations by any number of replicas. */
module CircuitBreakerRuns {
  import opened Shared
  import opened CircuitBreaker

  datatype Op = Acquire | Success | Failure | Release | Reset

  /** One script run: what it was, when, and on behalf of which request. */
  datatype Event = Event(op: Op, now: int, call: nat)

  function Apply(cfg: Config, k: Keys, e: Event): Keys {
    match e.op
    case Acquire => Acquired(cfg, k.At(e.now), e.now).0
    case Success => Succeeded(cfg, k.At(e.now))
    case Failure => Failed(cfg, k.At(e.now), e.now)
    case Release => Released(k.At(e.now))
    case Reset => NO_KEYS
  }

  function Admits(cfg: Config, k: Keys, now: int): bool {
    Acquired(cfg, k.At(now), now).1.allowed
  }

  function Last(tr: seq<Event>): Event
    requires tr != []
  {
    tr[|tr| - 1]
  }

  function Init(tr: seq<Event>): seq<Event>
    requires tr != []
  {
    tr[..|tr| - 1]
  }

  /** The keys after a run that starts with none. */
  function After(cfg: Config, tr: seq<Event>): Keys {
    if tr == [] then NO_KEYS else Apply(cfg, After(cfg, Init(tr)), Last(tr))
  }

  function StateAfter(cfg: Config, tr: seq<Event>): CircuitState {
    After(cfg, tr).State()
  }

  /** The clock never goes back. */
  ghost predicate Ordered(tr: seq<Event>) {
    forall j, k :: 0 <= j < k < |tr| ==> tr[j].now <= tr[k].now
  }

  lemma AfterAppend(cfg: Config, tr: seq<Event>, e: Event)
    ensures After(cfg, tr + [e]) == Apply(cfg, After(cfg, tr), e)
  {
    assert Init(tr + [e]) == tr;
  }

  // ----- the invariant of every reachable state -----

  ghost predicate Sound(cfg: Config, k: Keys, now: int) {
    match k.State()
    case Closed =>
      && k.openedAt.None? && k.halfProbes.Absent? && k.halfSuccesses.None?
      && (k.failures.Count? ==> 1 <= k.failures.n < cfg.failureThreshold)
    case Open =>
      && k.openedAt.Some? && k.openedAt.value <= now && k.halfProbes.Absent? && k.halfSuccesses.None?
    case HalfOpen =>
      && k.openedAt.Some? && k.openedAt.value <= now
      && k.halfSuccesses.Some? && 0 <= k.halfSuccesses.value < cfg.successThreshold
      && (k.halfProbes.Count? ==> 0 <= k.halfProbes.n <= cfg.maxProbes && k.halfProbes.expiry <= now + cfg.timeoutMs)
  }

  lemma StepKeepsSound(cfg: Config, k: Keys, e: Event, now: int)
    requires cfg.Valid() && Sound(cfg, k, now) && now <= e.now
    ensures Sound(cfg, Apply(cfg, k, e), e.now)
  {
  }

  lemma {:induction false} EveryReachableStateIsSound(cfg: Config, tr: seq<Event>, now: int)
    requires cfg.Valid() && Ordered(tr) && (tr != [] ==> Last(tr).now <= now)
    ensures Sound(cfg, After(cfg, tr), now)
  {
    if tr != [] {
      var before := Init(tr);
      EveryReachableStateIsSound(cfg, before, Last(tr).now);
      StepKeepsSound(cfg, After(cfg, before), Last(tr), Last(tr).now);
    }
  }

  // ----- when it opens -----

  /**
   * How many failures in a row lead up to a failure at time `t`: counting back, each less than
   * `window` before the next one, with no success and no reset in between.
   */
  function RowBefore(tr: seq<Event>, t: int, window: int): nat {
    if tr == [] then 0
    else
      match Last(tr).op
      case Success => 0
      case Reset => 0
      case Failure => if t < Last(tr).now + window then 1 + RowBefore(Init(tr), Last(tr).now, window) else 0
      case _ => RowBefore(Init(tr), t, window)
  }

  /** What one event does to the count of a breaker that is closed afterwards. */
  lemma ClosedStep(cfg: Config, k: Keys, e: Event, t: int)
    requires cfg.Valid() && Sound(cfg, k, e.now) && Apply(cfg, k, e).State() == Closed && e.now <= t
    ensures Apply(cfg, k, e).failures.At(t).Value() == match e.op
      case Success => 0
      case Reset => 0
      case Failure => if t < e.now + cfg.windowMs then 1 + k.failures.At(e.now).Value() else 0
      case _ => k.failures.At(t).Value()
    ensures k.State() == Closed || e.op == Success || e.op == Reset
  {
  }

  lemma {:induction false} ClosedCountsTheRow(cfg: Config, tr: seq<Event>, t: int)
    requires cfg.Valid() && Ordered(tr) && StateAfter(cfg, tr) == Closed
    requires tr != [] ==> Last(tr).now <= t
    ensures After(cfg, tr).failures.At(t).Value() == RowBefore(tr, t, cfg.windowMs)
  {
    if tr != [] {
      hide Apply, Sound;
      var before, e := Init(tr), Last(tr);
      EveryReachableStateIsSound(cfg, before, e.now);
      ClosedStep(cfg, After(cfg, before), e, t);
      if StateAfter(cfg, before) == Closed {
        ClosedCountsTheRow(cfg, before, e.now);
        ClosedCountsTheRow(cfg, before, t);
      }
    }
  }

  /**
   * A closed breaker opens on a step iff that step is the failureThreshold-th failure in a row;
   * while it stays closed the live count is below the threshold.
   */
  lemma {:induction false} OpensExactlyAtThreshold(cfg: Config, tr: seq<Event>, e: Event)
    requires cfg.Valid() && Ordered(tr + [e]) && StateAfter(cfg, tr) == Closed
    ensures StateAfter(cfg, tr + [e]) == Open <==>
      e.op == Failure && RowBefore(tr, e.now, cfg.windowMs) + 1 == cfg.failureThreshold
    ensures RowBefore(tr, e.now, cfg.windowMs) < cfg.failureThreshold
    ensures StateAfter(cfg, tr + [e]) == Open ==>
      var k := After(cfg, tr + [e]);
      k.openedAt == Some(e.now) && k.failures == Count(cfg.failureThreshold, e.now + cfg.windowMs)
    ensures StateAfter(cfg, tr + [e]) != HalfOpen
  {
    OrderedPrefix(tr, e);
    EveryReachableStateIsSound(cfg, tr, e.now);
    ClosedCountsTheRow(cfg, tr, e.now);
    AfterAppend(cfg, tr, e);
  }

  lemma OrderedPrefix(tr: seq<Event>, e: Event)
    requires Ordered(tr + [e])
    ensures Ordered(tr) && (tr != [] ==> Last(tr).now <= e.now)
  {
    var all := tr + [e];
    assert forall k :: 0 <= k < |tr| ==> all[k] == tr[k];
    assert all[|tr|] == e;
  }

  // ----- how long an opening row can be -----

  /** When the row leading up to a failure at time `t` began; `t` itself if that failure is the first. */
  function RowStart(tr: seq<Event>, t: int, window: int): int {
    if tr == [] then t
    else
      match Last(tr).op
      case Success => t
      case Reset => t
      case Failure => if t < Last(tr).now + window then RowStart(Init(tr), Last(tr).now, window) else t
      case _ => RowStart(Init(tr), t, window)
  }

  /** The step `e` after the run `tr` opens a closed breaker. */
  ghost predicate OpensAt(cfg: Config, tr: seq<Event>, e: Event) {
    Ordered(tr + [e]) && StateAfter(cfg, tr) == Closed && StateAfter(cfg, tr + [e]) == Open
  }

  /** The row that `e` completes lies within one window. */
  ghost predicate WithinWindow(cfg: Config, tr: seq<Event>, e: Event) {
    e.now < RowStart(tr, e.now, cfg.windowMs) + cfg.windowMs
  }

  lemma {:induction false} ShortRowSpan(tr: seq<Event>, t: int, window: int)
    requires Ordered(tr) && (tr != [] ==> Last(tr).now <= t) && window >= 1
    ensures RowBefore(tr, t, window) == 0 ==> RowStart(tr, t, window) == t
    ensures RowBefore(tr, t, window) <= 1 ==> t < RowStart(tr, t, window) + window
    ensures window == 1 ==> RowStart(tr, t, window) == t
  {
    if tr != [] {
      ShortRowSpan(Init(tr), Last(tr).now, window);
      ShortRowSpan(Init(tr), t, window);
    }
  }

  /** Failures at times 0, `gap`, and then 2 * `gap` for ever. */
  function SpacedFailures(n: nat, gap: int): seq<Event> {
    if n == 0 then [] else SpacedFailures(n - 1, gap) + [Event(Failure, SpacedTime(n, gap), n)]
  }

  /** The time of the `n`-th of them. */
  function SpacedTime(n: nat, gap: int): int {
    if n <= 1 then 0 else if n == 2 then gap else 2 * gap
  }

  lemma {:induction false} SpacedOrder(n: nat, gap: int)
    requires gap >= 0
    ensures Ordered(SpacedFailures(n, gap))
    ensures forall j :: 0 <= j < n == |SpacedFailures(n, gap)| ==> SpacedFailures(n, gap)[j].now <= SpacedTime(n, gap)
    ensures |SpacedFailures(n, gap)| == n
  {
    if n > 0 {
      SpacedOrder(n - 1, gap);
    }
  }

  lemma {:induction false} SpacedFailuresCount(cfg: Config, n: nat)
    requires cfg.Valid() && n < cfg.failureThreshold
    ensures After(cfg, SpacedFailures(n, cfg.windowMs - 1)) ==
      if n == 0 then NO_KEYS else NO_KEYS.(failures := Count(n, SpacedTime(n, cfg.windowMs - 1) + cfg.windowMs))
  {
    if n > 0 {
      SpacedFailuresCount(cfg, n - 1);
      AfterAppend(cfg, SpacedFailures(n - 1, cfg.windowMs - 1), Event(Failure, SpacedTime(n, cfg.windowMs - 1), n));
    }
  }

  lemma {:induction false} SpacedRowStart(n: nat, window: int)
    requires window >= 1
    ensures RowStart(SpacedFailures(n, window - 1), SpacedTime(n + 1, window - 1), window) == 0
  {
    if n > 0 {
      SpacedRowStart(n - 1, window);
      assert Init(SpacedFailures(n, window - 1)) == SpacedFailures(n - 1, window - 1);
    }
  }

  /**
   * The window does not limit the span of a row: three or more failures, each less than a window
   * after the one before, open the breaker although the first and the third are a window apart.
   */
  lemma {:induction false} LongRowOpens(cfg: Config) returns (tr: seq<Event>, e: Event)
    requires cfg.Valid() && cfg.failureThreshold >= 3 && cfg.windowMs >= 2
    ensures OpensAt(cfg, tr, e) && !WithinWindow(cfg, tr, e)
  {
    hide After, Apply, RowStart, SpacedTime;
    var n, gap := cfg.failureThreshold, cfg.windowMs - 1;
    tr, e := SpacedFailures(n - 1, gap), Event(Failure, SpacedTime(n, gap), n);
    assert tr + [e] == SpacedFailures(n, gap);
    SpacedOrder(n, gap);
    SpacedFailuresCount(cfg, n - 1);
    SpacedRowStart(n - 1, cfg.windowMs);
    AfterAppend(cfg, tr, e);
    LastFailureOpens(cfg, e);
  }

  lemma LastFailureOpens(cfg: Config, e: Event)
    requires cfg.Valid() && cfg.failureThreshold >= 3 && cfg.windowMs >= 2
    requires e.op == Failure && e.now == SpacedTime(cfg.failureThreshold, cfg.windowMs - 1)
    ensures var n := cfg.failureThreshold - 1;
      var k := NO_KEYS.(failures := Count(n, SpacedTime(n, cfg.windowMs - 1) + cfg.windowMs));
      k.State() == Closed && Apply(cfg, k, e).State() == Open && e.now >= cfg.windowMs
  {
  }

  /** Every opening row of every run lies within one window exactly if the row or the window is too short to do otherwise. */
  lemma {:induction false} WindowBoundsSpanExactly(cfg: Config)
    requires cfg.Valid()
    ensures (forall tr, e :: OpensAt(cfg, tr, e) ==> WithinWindow(cfg, tr, e)) <==>
      cfg.failureThreshold <= 2 || cfg.windowMs == 1
  {
    if cfg.failureThreshold <= 2 || cfg.windowMs == 1 {
      forall tr, e | OpensAt(cfg, tr, e)
        ensures WithinWindow(cfg, tr, e)
      {
        OpensExactlyAtThreshold(cfg, tr, e);
        OrderedPrefix(tr, e);
        ShortRowSpan(tr, e.now, cfg.windowMs);
      }
    } else {
      var tr, e := LongRowOpens(cfg);
    }
  }

  // ----- the lockout -----

  /** Step `i` of the run is one that opened the breaker. */
  ghost predicate OpenedBy(cfg: Config, tr: seq<Event>, i: nat)
    requires i < |tr|
  {
    StateAfter(cfg, tr[..i]) != Open && StateAfter(cfg, tr[..i + 1]) == Open
  }

  /** After step `i`: no reset, and every acquire comes before the timeout has run out. */
  ghost predicate NoResetNoTimeout(cfg: Config, tr: seq<Event>, i: nat)
    requires i < |tr|
  {
    forall j :: i < j < |tr| ==> tr[j].op != Reset && (tr[j].op == Acquire ==> tr[j].now < tr[i].now + cfg.timeoutMs)
  }

  /** Until the timeout, whatever late reports arrive, the breaker stays open and its timer does not move. */
  lemma {:induction false} StaysOpen(cfg: Config, tr: seq<Event>, i: nat)
    requires cfg.Valid() && Ordered(tr) && i < |tr| && OpenedBy(cfg, tr, i) && NoResetNoTimeout(cfg, tr, i)
    ensures StateAfter(cfg, tr) == Open && After(cfg, tr).openedAt == Some(tr[i].now)
    decreases |tr|
  {
    if i + 1 == |tr| {
      assert tr[..i + 1] == tr && tr[..i] == Init(tr);
    } else {
      var before := Init(tr);
      assert before[..i] == tr[..i] && before[..i + 1] == tr[..i + 1];
      StaysOpen(cfg, before, i);
    }
  }

  /** An open breaker refuses every acquire before opening time + timeout, and admits the first one at or after it. */
  lemma {:induction false} LockoutIsExact(cfg: Config, tr: seq<Event>, i: nat, now: int)
    requires cfg.Valid() && Ordered(tr) && i < |tr| && OpenedBy(cfg, tr, i) && NoResetNoTimeout(cfg, tr, i)
    ensures Admits(cfg, After(cfg, tr), now) <==> now >= tr[i].now + cfg.timeoutMs
    ensures Admits(cfg, After(cfg, tr), now) ==>
      forall call :: var k := Apply(cfg, After(cfg, tr), Event(Acquire, now, call));
        k.State() == HalfOpen && k.halfProbes == Count(1, now + cfg.timeoutMs) && k.halfSuccesses == Some(0)
  {
    StaysOpen(cfg, tr, i);
  }

  /** Between two openings lies a reset or an acquire after the timeout, so racing replicas open it once. */
  lemma {:induction false} OneOpeningPerOutage(cfg: Config, tr: seq<Event>, i: nat, j: nat)
    requires cfg.Valid() && Ordered(tr) && i < j < |tr| && OpenedBy(cfg, tr, i) && OpenedBy(cfg, tr, j)
    ensures !NoResetNoTimeout(cfg, tr[..j], i)
  {
    var before := tr[..j];
    assert before[..i] == tr[..i] && before[..i + 1] == tr[..i + 1];
    if NoResetNoTimeout(cfg, before, i) {
      StaysOpen(cfg, before, i);
      assert false;
    }
  }

  /** Every open state was opened by some step, so the two lemmas above cover all of them. */
  lemma {:induction false} OpeningStep(cfg: Config, tr: seq<Event>) returns (i: nat)
    requires StateAfter(cfg, tr) == Open
    ensures i < |tr| && OpenedBy(cfg, tr, i)
    ensures forall j :: i < j <= |tr| ==> StateAfter(cfg, tr[..j]) == Open
  {
    var before := Init(tr);
    if StateAfter(cfg, before) == Open {
      i := OpeningStep(cfg, before);
      assert before[..i] == tr[..i] && before[..i + 1] == tr[..i + 1];
      assert forall j :: 0 <= j <= |before| ==> before[..j] == tr[..j];
    } else {
      i := |tr| - 1;
    }
    assert tr[..|tr|] == tr;
  }

  // ----- half-open episodes -----

  /** The step that started the half-open episode the run is in. */
  ghost function EpisodeStart(cfg: Config, tr: seq<Event>): (i: nat)
    requires StateAfter(cfg, tr) == HalfOpen
    ensures i < |tr|
  {
    if StateAfter(cfg, Init(tr)) == HalfOpen then EpisodeStart(cfg, Init(tr)) else |tr| - 1
  }

  /** Successes reported since the episode started. */
  ghost function EpisodeSuccesses(cfg: Config, tr: seq<Event>): nat
    requires StateAfter(cfg, tr) == HalfOpen
  {
    Occurrences(tr[EpisodeStart(cfg, tr)..], Success)
  }

  function Occurrences(tr: seq<Event>, op: Op): nat {
    if tr == [] then 0 else Occurrences(Init(tr), op) + if Last(tr).op == op then 1 else 0
  }

  lemma {:induction false} EpisodeStartMeaning(cfg: Config, tr: seq<Event>)
    requires StateAfter(cfg, tr) == HalfOpen
    ensures var i := EpisodeStart(cfg, tr);
      && StateAfter(cfg, tr[..i]) != HalfOpen && tr[i].op == Acquire
      && forall j :: i < j <= |tr| ==> StateAfter(cfg, tr[..j]) == HalfOpen
  {
    var before := Init(tr);
    if StateAfter(cfg, before) == HalfOpen {
      EpisodeStartMeaning(cfg, before);
      assert forall j :: 0 <= j <= |before| ==> before[..j] == tr[..j];
    }
    assert tr[..|tr|] == tr;
  }

  lemma HalfOpenStep(cfg: Config, k: Keys, e: Event)
    requires cfg.Valid() && Sound(cfg, k, e.now) && Apply(cfg, k, e).State() == HalfOpen
    ensures k.State() == HalfOpen ==>
      && k.halfSuccesses.Some?
      && Apply(cfg, k, e).halfSuccesses == Some(k.halfSuccesses.value + if e.op == Success then 1 else 0)
    ensures k.State() != HalfOpen ==> e.op == Acquire && Apply(cfg, k, e).halfSuccesses == Some(0)
  {
  }

  lemma NoneYet(op: Op)
    ensures Occurrences([], op) == 0
  {
  }

  lemma OccurrencesAppend(es: seq<Event>, e: Event, op: Op)
    ensures Occurrences(es + [e], op) == Occurrences(es, op) + if e.op == op then 1 else 0
  {
    assert Init(es + [e]) == es;
  }

  lemma {:induction false} SuccessesAreCounted(cfg: Config, tr: seq<Event>)
    requires cfg.Valid() && Ordered(tr) && StateAfter(cfg, tr) == HalfOpen
    ensures After(cfg, tr).halfSuccesses == Some(EpisodeSuccesses(cfg, tr))
  {
    hide Apply, Sound, Occurrences;
    var before, i, e := Init(tr), EpisodeStart(cfg, tr), Last(tr);
    NoneYet(Success);
    EveryReachableStateIsSound(cfg, before, e.now);
    HalfOpenStep(cfg, After(cfg, before), e);
    assert tr[i..] == before[i..] + [e];
    OccurrencesAppend(before[i..], e, Success);
    if StateAfter(cfg, before) == HalfOpen {
      SuccessesAreCounted(cfg, before);
    }
  }

  /**
   * A half-open breaker closes exactly at the successThreshold-th success of its episode (or by
   * an admin reset), leaving no counter behind, and opens exactly at the first failure.
   */
  lemma {:induction false} HalfOpenLeavesExactly(cfg: Config, tr: seq<Event>, e: Event)
    requires cfg.Valid() && Ordered(tr + [e]) && StateAfter(cfg, tr) == HalfOpen
    ensures StateAfter(cfg, tr + [e]) == Closed <==>
      e.op == Reset || (e.op == Success && EpisodeSuccesses(cfg, tr) + 1 == cfg.successThreshold)
    ensures StateAfter(cfg, tr + [e]) == Closed ==> After(cfg, tr + [e]).(state := None) == NO_KEYS
    ensures StateAfter(cfg, tr + [e]) == Open <==> e.op == Failure
    ensures StateAfter(cfg, tr + [e]) == Open ==>
      After(cfg, tr + [e]).(state := None) == NO_KEYS.(openedAt := Some(e.now))
    ensures EpisodeSuccesses(cfg, tr) < cfg.successThreshold
  {
    OrderedPrefix(tr, e);
    EveryReachableStateIsSound(cfg, tr, e.now);
    SuccessesAreCounted(cfg, tr);
    AfterAppend(cfg, tr, e);
  }

  // ----- it never wedges -----

  /** In every reachable state an acquire made after `timeoutMs` of silence is allowed. */
  lemma {:induction false} NeverWedges(cfg: Config, tr: seq<Event>, now: int)
    requires cfg.Valid() && Ordered(tr) && (tr != [] ==> now >= Last(tr).now + cfg.timeoutMs)
    ensures Admits(cfg, After(cfg, tr), now)
  {
    if tr != [] {
      EveryReachableStateIsSound(cfg, tr, Last(tr).now);
    }
  }

  /** A request that is admitted and then succeeds. */
  datatype Round = Round(acquireAt: int, successAt: int, call: nat)

  function PlayRound(cfg: Config, k: Keys, r: Round): Keys {
    Apply(cfg, Apply(cfg, k, Event(Acquire, r.acquireAt, r.call)), Event(Success, r.successAt, r.call))
  }

  function Play(cfg: Config, k: Keys, rounds: seq<Round>): Keys
    decreases |rounds|
  {
    if rounds == [] then k else Play(cfg, PlayRound(cfg, k, rounds[0]), rounds[1..])
  }

  predicate AllAdmitted(cfg: Config, k: Keys, rounds: seq<Round>)
    decreases |rounds|
  {
    rounds != [] ==>
      Admits(cfg, k, rounds[0].acquireAt) && AllAdmitted(cfg, PlayRound(cfg, k, rounds[0]), rounds[1..])
  }

  ghost predicate RoundsOrdered(now: int, rounds: seq<Round>)
    decreases |rounds|
  {
    rounds != [] ==>
      now <= rounds[0].acquireAt <= rounds[0].successAt && RoundsOrdered(rounds[0].successAt, rounds[1..])
  }

  /** The decreasing measure: successful rounds still needed to close. */
  function RoundsToClose(cfg: Config, k: Keys): int {
    match k.State()
    case Closed => 0
    case Open => cfg.successThreshold
    case HalfOpen => cfg.successThreshold - if k.halfSuccesses.Some? then k.halfSuccesses.value else 0
  }

  /** An admitted round closes the breaker or leaves it needing one round fewer with a slot free at any later time. */
  lemma RoundMakesProgress(cfg: Config, k: Keys, r: Round, now: int)
    requires cfg.Valid() && Sound(cfg, k, now) && now <= r.acquireAt <= r.successAt && Admits(cfg, k, r.acquireAt)
    ensures var k' := PlayRound(cfg, k, r);
      && Sound(cfg, k', r.successAt)
      && RoundsToClose(cfg, k') == (if k.State() == Closed then 0 else RoundsToClose(cfg, k) - 1)
      && forall t :: r.successAt <= t ==> Admits(cfg, k', t)
  {
    var mid := Apply(cfg, k, Event(Acquire, r.acquireAt, r.call));
    StepKeepsSound(cfg, k, Event(Acquire, r.acquireAt, r.call), now);
    StepKeepsSound(cfg, mid, Event(Success, r.successAt, r.call), r.acquireAt);
  }

  lemma {:induction false} RoundsRecover(cfg: Config, k: Keys, rounds: seq<Round>, now: int)
    requires cfg.Valid() && Sound(cfg, k, now) && RoundsOrdered(now, rounds)
    requires rounds != [] ==> Admits(cfg, k, rounds[0].acquireAt)
    ensures AllAdmitted(cfg, k, rounds)
    ensures Play(cfg, k, rounds).State() == Closed <==> |rounds| >= RoundsToClose(cfg, k)
    decreases |rounds|
  {
    if rounds != [] {
      RoundMakesProgress(cfg, k, rounds[0], now);
      RoundsRecover(cfg, PlayRound(cfg, k, rounds[0]), rounds[1..], rounds[0].successAt);
    }
  }

  /**
   * From every reachable state, after `timeoutMs` of silence, rounds of acquire and success are
   * all admitted and reach CLOSED after exactly RoundsToClose (at most successThreshold) of them.
   */
  lemma {:induction false} AlwaysCanRecover(cfg: Config, tr: seq<Event>, rounds: seq<Round>)
    requires cfg.Valid() && Ordered(tr) && tr != []
    requires RoundsOrdered(Last(tr).now + cfg.timeoutMs, rounds)
    ensures AllAdmitted(cfg, After(cfg, tr), rounds)
    ensures Play(cfg, After(cfg, tr), rounds).State() == Closed <==> |rounds| >= RoundsToClose(cfg, After(cfg, tr))
    ensures RoundsToClose(cfg, After(cfg, tr)) <= cfg.successThreshold
  {
    var quiet := Last(tr).now + cfg.timeoutMs;
    EveryReachableStateIsSound(cfg, tr, quiet);
    if rounds != [] {
      NeverWedges(cfg, tr, rounds[0].acquireAt);
    }
    RoundsRecover(cfg, After(cfg, tr), rounds, quiet);
  }

  // ----- when a half-open breaker admits -----

  /** When the episode last admitted a probe. */
  ghost function LastAdmission(cfg: Config, tr: seq<Event>): int
    requires StateAfter(cfg, tr) == HalfOpen
  {
    var e := Last(tr);
    if StateAfter(cfg, Init(tr)) != HalfOpen then e.now
    else if e.op == Acquire && Admits(cfg, After(cfg, Init(tr)), e.now) then e.now
    else LastAdmission(cfg, Init(tr))
  }

  lemma LeaseStep(cfg: Config, k: Keys, e: Event, last: int)
    requires cfg.Valid() && Sound(cfg, k, e.now) && Apply(cfg, k, e).State() == HalfOpen
    requires k.State() == HalfOpen && k.halfProbes.Count? ==> k.halfProbes.expiry == last + cfg.timeoutMs
    ensures var since := if k.State() != HalfOpen || (e.op == Acquire && Admits(cfg, k, e.now)) then e.now else last;
      Apply(cfg, k, e).halfProbes.Count? ==> Apply(cfg, k, e).halfProbes.expiry == since + cfg.timeoutMs
  {
  }

  lemma {:induction false} LeaseRunsFromLastAdmission(cfg: Config, tr: seq<Event>)
    requires cfg.Valid() && Ordered(tr) && StateAfter(cfg, tr) == HalfOpen
    ensures After(cfg, tr).halfProbes.Count? ==>
      After(cfg, tr).halfProbes.expiry == LastAdmission(cfg, tr) + cfg.timeoutMs
  {
    var before, e := Init(tr), Last(tr);
    EveryReachableStateIsSound(cfg, before, e.now);
    if StateAfter(cfg, before) == HalfOpen {
      LeaseRunsFromLastAdmission(cfg, before);
      LeaseStep(cfg, After(cfg, before), e, LastAdmission(cfg, before));
    } else {
      LeaseStep(cfg, After(cfg, before), e, 0);
    }
  }

  /** What every acquire of every run is told, and that a closed breaker takes no notice of it. */
  lemma {:induction false} EveryAcquire(cfg: Config, tr: seq<Event>, now: int)
    requires cfg.Valid() && Ordered(tr) && (tr != [] ==> Last(tr).now <= now)
    ensures var k, (k', d) := After(cfg, tr), Acquired(cfg, After(cfg, tr).At(now), now);
      && d.state == k'.State()
      && (k.State() == Closed ==> d.allowed && k' == k.At(now))
      && (k.State() == Open ==>
        && k.openedAt.Some? && (d.allowed <==> now - k.openedAt.value >= cfg.timeoutMs) && (d.allowed <==> d.state == HalfOpen))
      && (k.State() == HalfOpen ==>
        && d.state == HalfOpen
        && (d.allowed <==> k.halfProbes.Value() < cfg.maxProbes || now >= LastAdmission(cfg, tr) + cfg.timeoutMs))
  {
    EveryReachableStateIsSound(cfg, tr, now);
    if StateAfter(cfg, tr) == HalfOpen {
      HalfOpenAdmitsExactly(cfg, tr, now);
    }
  }

  /** With a slot free an acquire is admitted at once; with none, exactly from `timeoutMs` after the last admission. */
  lemma {:induction false} HalfOpenAdmitsExactly(cfg: Config, tr: seq<Event>, now: int)
    requires cfg.Valid() && Ordered(tr) && StateAfter(cfg, tr) == HalfOpen
    ensures Admits(cfg, After(cfg, tr), now) <==>
      After(cfg, tr).halfProbes.Value() < cfg.maxProbes || now >= LastAdmission(cfg, tr) + cfg.timeoutMs
  {
    LeaseRunsFromLastAdmission(cfg, tr);
    EveryReachableStateIsSound(cfg, tr, Last(tr).now);
  }
}
