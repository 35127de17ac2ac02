/** The failover loop of one request: its steps, the loop itself, and its contract. */
module Failover {
  import opened Shared

  type Id = string
  type Error = string

  /** How an upstream call ends: a value, a retryable failure, or a client error or abort. */
  datatype CallResult = Value | Retryable(error: Error) | Final(error: Error)

  /** What the loop does to the balancer, the breaker and the provider. */
  datatype Action =
    | Select(p: Id)
    | Acquire(p: Id, allowed: bool)
    | Call(p: Id, result: CallResult)
    | RecordSuccess(p: Id)
    | RecordFailure(p: Id)
    | ReleaseProbe(p: Id)
    | ReleaseSlot(p: Id)

  datatype Cause = CircuitOpen(p: Id) | Upstream(error: Error)

  datatype Outcome =
    | Answered(provider: Id, failoverCount: nat)
    | Propagated(error: Error)
    | AllProvidersFailed(attempts: nat, cause: Option<Cause>)

  /** Where the loop stands between two of its actions. */
  datatype Loop =
    | Choosing(remaining: seq<Id>, attempts: nat, lastError: Option<Cause>)
    | Selected(p: Id, remaining: seq<Id>, attempts: nat, lastError: Option<Cause>)
    | Calling(p: Id, remaining: seq<Id>, attempts: nat)
    | Reporting(p: Id, result: CallResult, remaining: seq<Id>, attempts: nat)
    | Releasing(p: Id, next: Loop)
    | Done(outcome: Outcome)
  {
    /** The provider whose slot the loop has taken and not yet given back. */
    function Holding(): Option<Id> {
      if Choosing? || Done? then None else Some(p)
    }
  }

  function Without(ids: seq<Id>, p: Id): (r: seq<Id>)
    ensures |r| <= |ids| && (p in ids ==> |r| < |ids|)
    ensures forall q :: q in r <==> q in ids && q != p
  {
    if ids == [] then []
    else if ids[0] == p then Without(ids[1..], p) else [ids[0]] + Without(ids[1..], p)
  }

  /** The head of the loop. */
  function Again(remaining: seq<Id>, attempts: nat, lastError: Option<Cause>): Loop {
    if remaining == [] then Done(AllProvidersFailed(attempts, lastError)) else Choosing(remaining, attempts, lastError)
  }

  function Start(candidates: seq<Id>): Loop {
    Again(candidates, 0, None)
  }

  /** One action; `None` if the loop would not take it there. */
  function Step(s: Loop, a: Action): Option<Loop> {
    match s
    case Choosing(remaining, n, last) =>
      if a.Select? && a.p in remaining then Some(Selected(a.p, Without(remaining, a.p), n, last)) else None
    case Selected(p, remaining, n, last) =>
      if a == Acquire(p, true) then Some(Calling(p, remaining, n + 1))
      else if a == Acquire(p, false) then Some(Releasing(p, Again(remaining, n, Some(CircuitOpen(p)))))
      else None
    case Calling(p, remaining, n) =>
      if a.Call? && a.p == p then Some(Reporting(p, a.result, remaining, n)) else None
    case Reporting(p, Value, remaining, n) =>
      if a == RecordSuccess(p) then Some(Releasing(p, Done(Answered(p, if n > 0 then n - 1 else 0)))) else None
    case Reporting(p, Final(error), remaining, n) =>
      if a == ReleaseProbe(p) then Some(Releasing(p, Done(Propagated(error)))) else None
    case Reporting(p, Retryable(error), remaining, n) =>
      if a == RecordFailure(p) then Some(Releasing(p, Again(remaining, n, Some(Upstream(error))))) else None
    case Releasing(p, next) =>
      if a == ReleaseSlot(p) then Some(next) else None
    case Done(_) => None
  }

  function Exec(s: Loop, trace: seq<Action>): Option<Loop>
    decreases |trace|
  {
    if trace == [] then Some(s)
    else
      match Step(s, trace[0])
      case None => None
      case Some(s') => Exec(s', trace[1..])
  }

  lemma {:induction false} ExecAppend(s: Loop, t: seq<Action>, u: seq<Action>)
    ensures Exec(s, t + u) == match Exec(s, t) { case None => None case Some(s') => Exec(s', u) }
    decreases |t|
  {
    if t == [] {
      assert t + u == u;
    } else {
      assert (t + u)[1..] == t[1..] + u;
      if Step(s, t[0]).Some? {
        ExecAppend(Step(s, t[0]).value, t[1..], u);
      }
    }
  }

  // ----- the loop -----

  /** Everything the loop asks of its surroundings; each answer may depend on all that went before. */
  datatype Env = Env(
    pick: (seq<Action>, seq<Id>) -> Id,
    admit: (seq<Action>, Id) -> bool,
    answer: (seq<Action>, Id) -> CallResult)
  {
    /** The balancer picks one of the candidates it is given. */
    ghost predicate Valid() {
      forall t, ids :: ids != [] ==> pick(t, ids) in ids
    }
  }

  /** The candidates that have not been selected yet. */
  function Unselected(candidates: seq<Id>, trace: seq<Action>): seq<Id> {
    if trace == [] then candidates
    else
      var rest, a := Unselected(candidates, trace[..|trace| - 1]), trace[|trace| - 1];
      if a.Select? then Without(rest, a.p) else rest
  }

  /** The action is what its surroundings answered, given all that went before. */
  ghost predicate AnsweredBy(env: Env, candidates: seq<Id>, before: seq<Action>, a: Action) {
    match a
    case Select(p) => p == env.pick(before, Unselected(candidates, before))
    case Acquire(p, allowed) => allowed == env.admit(before, p)
    case Call(p, result) => result == env.answer(before, p)
    case _ => true
  }

  /** Every selection, admission and call result of the trace is the surroundings' answer at that point. */
  ghost predicate Follows(env: Env, candidates: seq<Id>, trace: seq<Action>) {
    forall k :: 0 <= k < |trace| ==> AnsweredBy(env, candidates, trace[..k], trace[k])
  }

  lemma FollowsAppend(env: Env, candidates: seq<Id>, trace: seq<Action>, a: Action)
    requires Follows(env, candidates, trace) && AnsweredBy(env, candidates, trace, a)
    ensures Follows(env, candidates, trace + [a])
    ensures Unselected(candidates, trace + [a]) ==
      if a.Select? then Without(Unselected(candidates, trace), a.p) else Unselected(candidates, trace)
  {
    hide AnsweredBy, Without;
    var all := trace + [a];
    assert all[..|trace|] == trace;
    assert forall k :: 0 <= k < |trace| ==> all[..k] == trace[..k];
  }

  lemma NothingAsked(env: Env, candidates: seq<Id>)
    ensures Follows(env, candidates, []) && Unselected(candidates, []) == candidates
  {
  }

  /**
   * `runFailover`: it always ends, what it does is an execution of the steps above, and at every
   * point it goes by what the balancer, the breaker and the provider answer.
   */
  method RunFailover(candidates: seq<Id>, env: Env) returns (outcome: Outcome, trace: seq<Action>)
    requires env.Valid()
    ensures Exec(Start(candidates), trace) == Some(Done(outcome))
    ensures Follows(env, candidates, trace)
  {
    hide Exec, Step, Without, Follows, Unselected;
    var remaining, attempts, lastError := candidates, 0, None;
    trace := [];
    ExecNothing(Start(candidates));
    NothingAsked(env, candidates);
    while remaining != []
      invariant Exec(Start(candidates), trace) == Some(Again(remaining, attempts, lastError))
      invariant Follows(env, candidates, trace) && remaining == Unselected(candidates, trace)
      decreases |remaining|
    {
      ghost var before, here := trace, Again(remaining, attempts, lastError);
      ghost var visit: Visit;
      var p := env.pick(trace, remaining);
      FollowsAppend(env, candidates, trace, Select(p));
      trace := trace + [Select(p)];
      remaining := Without(remaining, p);

      var allowed := env.admit(trace, p);
      FollowsAppend(env, candidates, trace, Acquire(p, allowed));
      trace := trace + [Acquire(p, allowed)];
      if !allowed {
        lastError := Some(CircuitOpen(p));
        FollowsAppend(env, candidates, trace, ReleaseSlot(p));
        trace := trace + [ReleaseSlot(p)];
        visit := Visit(p, Skip);
        assert trace == before + visit.Actions();
        VisitExec(here, visit);
        ExecAppend(Start(candidates), before, visit.Actions());
        continue;
      }

      attempts := attempts + 1;
      var result := env.answer(trace, p);
      FollowsAppend(env, candidates, trace, Call(p, result));
      trace := trace + [Call(p, result)];
      match result {
        case Value =>
          FollowsAppend(env, candidates, trace, RecordSuccess(p));
          FollowsAppend(env, candidates, trace + [RecordSuccess(p)], ReleaseSlot(p));
          trace := trace + [RecordSuccess(p)] + [ReleaseSlot(p)];
          visit := Visit(p, Win);
        case Final(error) =>
          FollowsAppend(env, candidates, trace, ReleaseProbe(p));
          FollowsAppend(env, candidates, trace + [ReleaseProbe(p)], ReleaseSlot(p));
          trace := trace + [ReleaseProbe(p)] + [ReleaseSlot(p)];
          visit := Visit(p, Refuse(error));
        case Retryable(error) =>
          FollowsAppend(env, candidates, trace, RecordFailure(p));
          FollowsAppend(env, candidates, trace + [RecordFailure(p)], ReleaseSlot(p));
          trace := trace + [RecordFailure(p)];
          lastError := Some(Upstream(error));
          trace := trace + [ReleaseSlot(p)];
          visit := Visit(p, Fail(error));
      }
      assert trace == before + visit.Actions();
      VisitExec(here, visit);
      ExecAppend(Start(candidates), before, visit.Actions());
      match result {
        case Value => return Answered(p, attempts - 1), trace;
        case Final(error) => return Propagated(error), trace;
        case Retryable(_) =>
      }
    }
    outcome := AllProvidersFailed(attempts, lastError);
  }

  // ----- the contract: a run is a series of visits -----

  datatype Ending = Skip | Fail(error: Error) | Win | Refuse(error: Error)

  /** One turn of the loop: the provider, and how the turn ended. */
  datatype Visit = Visit(p: Id, ending: Ending) {
    function Actions(): seq<Action> {
      match ending
      case Skip => [Select(p), Acquire(p, false), ReleaseSlot(p)]
      case Fail(e) => [Select(p), Acquire(p, true), Call(p, Retryable(e)), RecordFailure(p), ReleaseSlot(p)]
      case Win => [Select(p), Acquire(p, true), Call(p, Value), RecordSuccess(p), ReleaseSlot(p)]
      case Refuse(e) => [Select(p), Acquire(p, true), Call(p, Final(e)), ReleaseProbe(p), ReleaseSlot(p)]
    }

    predicate Ends() {
      ending.Win? || ending.Refuse?
    }
  }

  function Flatten(vs: seq<Visit>): seq<Action> {
    if vs == [] then [] else vs[0].Actions() + Flatten(vs[1..])
  }

  /** The visits use up the candidates, each at most once, and stop at a value or a client error. */
  predicate ValidVisits(remaining: seq<Id>, vs: seq<Visit>)
    decreases |vs|
  {
    if vs == [] then remaining == []
    else
      && vs[0].p in remaining
      && if vs[0].Ends() then |vs| == 1 else ValidVisits(Without(remaining, vs[0].p), vs[1..])
  }

  function Failures(vs: seq<Visit>): nat {
    if vs == [] then 0 else (if vs[0].ending.Fail? then 1 else 0) + Failures(vs[1..])
  }

  function CauseOf(v: Visit): Option<Cause> {
    match v.ending
    case Skip => Some(CircuitOpen(v.p))
    case Fail(e) => Some(Upstream(e))
    case _ => None
  }

  /** What the request gets: decided by the last visit and by the number of retryable failures. */
  function OutcomeOf(vs: seq<Visit>): Outcome {
    if vs == [] then AllProvidersFailed(0, None)
    else
      var last := vs[|vs| - 1];
      match last.ending
      case Win => Answered(last.p, Failures(vs))
      case Refuse(e) => Propagated(e)
      case _ => AllProvidersFailed(Failures(vs), CauseOf(last))
  }

  /** The loop state a visit leads to. */
  function Landed(s: Loop, v: Visit): Loop
    requires s.Choosing?
  {
    var rest := Without(s.remaining, v.p);
    match v.ending
    case Skip => Again(rest, s.attempts, Some(CircuitOpen(v.p)))
    case Fail(e) => Again(rest, s.attempts + 1, Some(Upstream(e)))
    case Win => Done(Answered(v.p, s.attempts))
    case Refuse(e) => Done(Propagated(e))
  }

  lemma ExecCons(s: Loop, a: Action, rest: seq<Action>)
    ensures Exec(s, [a] + rest) == match Step(s, a) { case None => None case Some(s') => Exec(s', rest) }
  {
    assert ([a] + rest)[1..] == rest;
  }

  lemma ExecNothing(s: Loop)
    ensures Exec(s, []) == Some(s)
  {
  }

  /** The first three actions of a visit. */
  lemma VisitBegins(s: Loop, v: Visit) returns (s3: Loop)
    requires s.Choosing? && v.p in s.remaining
    ensures var rest := Without(s.remaining, v.p); s3 == match v.ending
      case Skip => Again(rest, s.attempts, Some(CircuitOpen(v.p)))
      case Fail(e) => Reporting(v.p, Retryable(e), rest, s.attempts + 1)
      case Win => Reporting(v.p, Value, rest, s.attempts + 1)
      case Refuse(e) => Reporting(v.p, Final(e), rest, s.attempts + 1)
    ensures Exec(s, v.Actions()) == Exec(s3, v.Actions()[3..])
  {
    hide Exec, Without;
    var t := v.Actions();
    var s1 := Step(s, t[0]).value;
    var s2 := Step(s1, t[1]).value;
    s3 := Step(s2, t[2]).value;
    assert t == [t[0]] + t[1..] && t[1..] == [t[1]] + t[2..] && t[2..] == [t[2]] + t[3..];
    ExecCons(s, t[0], t[1..]);
    ExecCons(s1, t[1], t[2..]);
    ExecCons(s2, t[2], t[3..]);
  }

  lemma TwoActions(s: Loop, a: Action, b: Action)
    requires Step(s, a).Some? && Step(Step(s, a).value, b).Some?
    ensures Exec(s, [a, b]) == Step(Step(s, a).value, b)
  {
    hide Exec, Step;
    var s1 := Step(s, a).value;
    assert [a, b] == [a] + [b] && [b] == [b] + [];
    ExecCons(s, a, [b]);
    ExecCons(s1, b, []);
    ExecNothing(Step(s1, b).value);
  }

  lemma VisitExec(s: Loop, v: Visit)
    requires s.Choosing? && v.p in s.remaining
    ensures Exec(s, v.Actions()) == Some(Landed(s, v))
  {
    hide Exec, Without;
    var t := v.Actions();
    var s3 := VisitBegins(s, v);
    if v.ending.Skip? {
      assert t[3..] == [];
      ExecNothing(s3);
    } else {
      assert t[3..] == [t[3], t[4]];
      TwoActions(s3, t[3], t[4]);
    }
  }

  /** The first step of an execution that has not ended yet. */
  lemma Unroll(s: Loop, trace: seq<Action>, outcome: Outcome) returns (s': Loop, rest: seq<Action>)
    requires !s.Done? && Exec(s, trace) == Some(Done(outcome))
    ensures trace != [] && Step(s, trace[0]) == Some(s') && rest == trace[1..] && Exec(s', rest) == Some(Done(outcome))
  {
    s', rest := Step(s, trace[0]).value, trace[1..];
  }

  /** A finished execution from the head of the loop begins with a whole visit. */
  lemma FirstVisit(s: Loop, trace: seq<Action>, outcome: Outcome) returns (v: Visit)
    requires s.Choosing? && Exec(s, trace) == Some(Done(outcome))
    ensures v.p in s.remaining
    ensures v.Actions() <= trace && Exec(Landed(s, v), trace[|v.Actions()|..]) == Some(Done(outcome))
  {
    hide Exec, Without;
    var s1, t1 := Unroll(s, trace, outcome);
    var s2, t2 := Unroll(s1, t1, outcome);
    var s3, t3 := Unroll(s2, t2, outcome);
    if t1[0] == Acquire(s1.p, false) {
      v := Visit(s1.p, Skip);
      assert v.Actions() == trace[..3] && t3 == trace[3..];
    } else {
      var s4, t4 := Unroll(s3, t3, outcome);
      var s5, t5 := Unroll(s4, t4, outcome);
      v := Visit(s1.p, match s3.result { case Value => Win case Retryable(e) => Fail(e) case Final(e) => Refuse(e) });
      assert v.Actions() == trace[..5] && t5 == trace[5..];
    }
  }

  /** The outcome of a run that continues from given attempts and last error. */
  function Finish(attempts: nat, lastError: Option<Cause>, vs: seq<Visit>): Outcome
    decreases |vs|
  {
    if vs == [] then AllProvidersFailed(attempts, lastError)
    else
      match vs[0].ending
      case Skip => Finish(attempts, CauseOf(vs[0]), vs[1..])
      case Fail(_) => Finish(attempts + 1, CauseOf(vs[0]), vs[1..])
      case Win => Answered(vs[0].p, attempts)
      case Refuse(e) => Propagated(e)
  }

  lemma {:induction false} FinishMeaning(attempts: nat, lastError: Option<Cause>, remaining: seq<Id>, vs: seq<Visit>)
    requires ValidVisits(remaining, vs) && vs != []
    ensures Finish(attempts, lastError, vs) == match OutcomeOf(vs)
      case Answered(p, n) => Answered(p, attempts + n)
      case Propagated(e) => Propagated(e)
      case AllProvidersFailed(n, cause) => AllProvidersFailed(attempts + n, cause)
    decreases |vs|
  {
    if !vs[0].Ends() && |vs| > 1 {
      FinishMeaning(if vs[0].ending.Fail? then attempts + 1 else attempts, CauseOf(vs[0]),
                    Without(remaining, vs[0].p), vs[1..]);
    }
  }

  lemma FinishIsOutcome(candidates: seq<Id>, vs: seq<Visit>)
    requires ValidVisits(candidates, vs)
    ensures Finish(0, None, vs) == OutcomeOf(vs)
  {
    if vs != [] {
      FinishMeaning(0, None, candidates, vs);
    }
  }

  lemma DoneStops(o: Outcome, trace: seq<Action>, outcome: Outcome)
    requires Exec(Done(o), trace) == Some(Done(outcome))
    ensures trace == [] && o == outcome
  {
  }

  lemma {:induction false} Decompose(remaining: seq<Id>, attempts: nat, lastError: Option<Cause>, trace: seq<Action>, outcome: Outcome)
      returns (vs: seq<Visit>)
    requires Exec(Again(remaining, attempts, lastError), trace) == Some(Done(outcome))
    ensures ValidVisits(remaining, vs) && trace == Flatten(vs) && outcome == Finish(attempts, lastError, vs)
    decreases |remaining|
  {
    hide Exec, Step;
    if remaining == [] {
      DoneStops(AllProvidersFailed(attempts, lastError), trace, outcome);
      vs := [];
    } else {
      var s := Choosing(remaining, attempts, lastError);
      var v := FirstVisit(s, trace, outcome);
      var rest := trace[|v.Actions()|..];
      assert trace == v.Actions() + rest;
      if v.Ends() {
        DoneStops(Landed(s, v).outcome, rest, outcome);
        vs := [v];
      } else {
        var tail := Decompose(Without(remaining, v.p), if v.ending.Fail? then attempts + 1 else attempts, CauseOf(v), rest, outcome);
        vs := [v] + tail;
      }
    }
  }

  lemma {:induction false} Compose(remaining: seq<Id>, attempts: nat, lastError: Option<Cause>, vs: seq<Visit>)
    requires ValidVisits(remaining, vs)
    ensures Exec(Again(remaining, attempts, lastError), Flatten(vs)) == Some(Done(Finish(attempts, lastError, vs)))
    decreases |vs|
  {
    hide Exec, Step, Visit.Actions;
    if vs == [] {
      ExecNothing(Again(remaining, attempts, lastError));
    } else {
      var s, v := Choosing(remaining, attempts, lastError), vs[0];
      VisitExec(s, v);
      ExecAppend(s, v.Actions(), Flatten(vs[1..]));
      if v.Ends() {
        ExecNothing(Landed(s, v));
      } else {
        Compose(Without(remaining, v.p), if v.ending.Fail? then attempts + 1 else attempts, CauseOf(v), vs[1..]);
      }
    }
  }

  ghost predicate Explains(candidates: seq<Id>, trace: seq<Action>, outcome: Outcome, vs: seq<Visit>) {
    ValidVisits(candidates, vs) && trace == Flatten(vs) && outcome == OutcomeOf(vs)
  }

  /** Exactly the traces that are whole visits, one after the other, are runs of the loop, with exactly their outcome. */
  lemma {:induction false} RunsAreVisits(candidates: seq<Id>, trace: seq<Action>, outcome: Outcome)
    ensures Exec(Start(candidates), trace) == Some(Done(outcome)) <==>
      exists vs :: Explains(candidates, trace, outcome, vs)
  {
    hide Exec, Flatten, ValidVisits, Finish, OutcomeOf;
    if Exec(Start(candidates), trace) == Some(Done(outcome)) {
      var vs := Decompose(candidates, 0, None, trace, outcome);
      FinishIsOutcome(candidates, vs);
      assert Explains(candidates, trace, outcome, vs);
    }
    forall vs | Explains(candidates, trace, outcome, vs)
      ensures Exec(Start(candidates), trace) == Some(Done(outcome))
    {
      Compose(candidates, 0, None, vs);
      FinishIsOutcome(candidates, vs);
    }
  }

  // ----- what follows from the visits -----

  function Count(trace: seq<Action>, f: Action -> bool): nat {
    if trace == [] then 0 else (if f(trace[0]) then 1 else 0) + Count(trace[1..], f)
  }

  lemma {:induction false} CountAppend(t: seq<Action>, u: seq<Action>, f: Action -> bool)
    ensures Count(t + u, f) == Count(t, f) + Count(u, f)
  {
    if t == [] {
      assert t + u == u;
    } else {
      assert (t + u)[1..] == t[1..] + u;
      CountAppend(t[1..], u, f);
    }
  }

  function IsSelect(q: Id): Action -> bool {
    a => a == Select(q)
  }

  function IsSlotRelease(q: Id): Action -> bool {
    a => a == ReleaseSlot(q)
  }

  function IsAdmission(q: Id): Action -> bool {
    a => a == Acquire(q, true)
  }

  /** A report to the breaker: success, failure, or a handed-back probe. */
  function IsReport(q: Id): Action -> bool {
    a => a == RecordSuccess(q) || a == RecordFailure(q) || a == ReleaseProbe(q)
  }

  /** Every slot of `q` taken is given back, and every admission to `q` reported once; `q` is selected `n` times. */
  ghost predicate PairedUp(trace: seq<Action>, q: Id, n: nat) {
    && Count(trace, IsSelect(q)) == Count(trace, IsSlotRelease(q)) == n
    && Count(trace, IsAdmission(q)) == Count(trace, IsReport(q)) <= n
  }

  ghost predicate Visited(vs: seq<Visit>, q: Id) {
    exists k :: 0 <= k < |vs| && vs[k].p == q
  }

  lemma VisitedCons(v: Visit, vs: seq<Visit>, q: Id)
    ensures Visited([v] + vs, q) <==> v.p == q || Visited(vs, q)
  {
    var all := [v] + vs;
    if Visited(vs, q) {
      var k :| 0 <= k < |vs| && vs[k].p == q;
      assert all[k + 1].p == q;
    }
    if v.p == q {
      assert all[0].p == q;
    }
  }

  lemma PairedUpAppend(t: seq<Action>, u: seq<Action>, q: Id, n: nat, m: nat)
    requires PairedUp(t, q, n) && PairedUp(u, q, m)
    ensures PairedUp(t + u, q, n + m)
  {
    CountAppend(t, u, IsSelect(q));
    CountAppend(t, u, IsSlotRelease(q));
    CountAppend(t, u, IsAdmission(q));
    CountAppend(t, u, IsReport(q));
  }

  lemma CountOne(a: Action, f: Action -> bool)
    ensures Count([a], f) == if f(a) then 1 else 0
  {
    assert [a][1..] == [];
  }

  lemma CountTwo(a: Action, b: Action, f: Action -> bool)
    ensures Count([a, b], f) == (if f(a) then 1 else 0) + (if f(b) then 1 else 0)
  {
    CountOne(b, f);
    assert [a, b][0] == a && [a, b][1..] == [b];
  }

  lemma CountThree(a: Action, b: Action, c: Action, f: Action -> bool)
    ensures Count([a, b, c], f) == (if f(a) then 1 else 0) + (if f(b) then 1 else 0) + (if f(c) then 1 else 0)
  {
    assert [a, b, c][1..] == [b, c];
    CountTwo(b, c, f);
  }

  lemma CountVisit(v: Visit, f: Action -> bool)
    ensures var t := v.Actions();
      Count(t, f) == (if f(t[0]) then 1 else 0) + (if f(t[1]) then 1 else 0) + (if f(t[2]) then 1 else 0)
        + (if |t| == 5 then (if f(t[3]) then 1 else 0) + (if f(t[4]) then 1 else 0) else 0)
  {
    var t := v.Actions();
    CountThree(t[0], t[1], t[2], f);
    if |t| == 5 {
      CountTwo(t[3], t[4], f);
      assert t == [t[0], t[1], t[2]] + [t[3], t[4]];
      CountAppend([t[0], t[1], t[2]], [t[3], t[4]], f);
    }
  }

  lemma VisitPairsUp(v: Visit, q: Id)
    ensures PairedUp(v.Actions(), q, if v.p == q then 1 else 0)
  {
    hide Count;
    CountVisit(v, IsSelect(q));
    CountVisit(v, IsSlotRelease(q));
    CountVisit(v, IsAdmission(q));
    CountVisit(v, IsReport(q));
  }

  lemma {:induction false} VisitsPairUp(remaining: seq<Id>, vs: seq<Visit>, q: Id)
    requires ValidVisits(remaining, vs)
    ensures PairedUp(Flatten(vs), q, if Visited(vs, q) then 1 else 0)
    ensures Visited(vs, q) ==> q in remaining
    decreases |vs|
  {
    if vs != [] {
      assert vs == [vs[0]] + vs[1..];
      VisitedCons(vs[0], vs[1..], q);
      VisitPairsUp(vs[0], q);
      if vs[0].Ends() {
        assert Flatten(vs) == vs[0].Actions();
      } else {
        VisitsPairUp(Without(remaining, vs[0].p), vs[1..], q);
        PairedUpAppend(vs[0].Actions(), Flatten(vs[1..]), q, if vs[0].p == q then 1 else 0, if Visited(vs[1..], q) then 1 else 0);
      }
    }
  }

  /** A run that ends in AllProvidersFailed visited every candidate, each ending in a skip or a retryable failure. */
  lemma {:induction false} AllFailedVisitsAll(remaining: seq<Id>, vs: seq<Visit>)
    requires ValidVisits(remaining, vs) && (vs != [] ==> !vs[|vs| - 1].Ends())
    ensures forall q :: q in remaining ==> Visited(vs, q)
    ensures forall k :: 0 <= k < |vs| ==> !vs[k].Ends()
    decreases |vs|
  {
    if vs != [] {
      AllFailedVisitsAll(Without(remaining, vs[0].p), vs[1..]);
      assert vs == [vs[0]] + vs[1..];
      forall q | q in remaining
        ensures Visited(vs, q)
      {
        VisitedCons(vs[0], vs[1..], q);
      }
    }
  }

  // ----- what each action leads to -----

  /** What may come after an action, up to the end of the run (`None`). */
  predicate LeadsTo(a: Action, next: Option<Action>) {
    match a
    case Select(p) => next == Some(Acquire(p, true)) || next == Some(Acquire(p, false))
    case Acquire(p, true) => next.Some? && next.value.Call? && next.value.p == p
    case Acquire(p, false) => next == Some(ReleaseSlot(p))
    case Call(p, Value) => next == Some(RecordSuccess(p))
    case Call(p, Retryable(_)) => next == Some(RecordFailure(p))
    case Call(p, Final(_)) => next == Some(ReleaseProbe(p))
    case RecordSuccess(p) => next == Some(ReleaseSlot(p))
    case RecordFailure(p) => next == Some(ReleaseSlot(p))
    case ReleaseProbe(p) => next == Some(ReleaseSlot(p))
    case ReleaseSlot(_) => next.Some? ==> next.value.Select?
  }

  function At(trace: seq<Action>, k: nat): Option<Action> {
    if k < |trace| then Some(trace[k]) else None
  }

  /** Every action of a run leads to the next as the loop's branches say. */
  ghost predicate Proper(trace: seq<Action>) {
    forall k :: 0 <= k < |trace| ==> LeadsTo(trace[k], At(trace, k + 1))
  }

  /** The head of the loop starts a turn or is the end. */
  predicate Opens(s: Loop, next: Option<Action>) {
    match s
    case Choosing(_, _, _) => next.Some? && next.value.Select?
    case Selected(p, _, _, _) => LeadsTo(Select(p), next)
    case Calling(p, _, _) => LeadsTo(Acquire(p, true), next)
    case Reporting(p, result, _, _) => LeadsTo(Call(p, result), next)
    case Releasing(p, _) => next == Some(ReleaseSlot(p))
    case Done(_) => next == None
  }

  /** Giving a slot back is followed by the head of the loop or the end. */
  predicate Tidied(s: Loop) {
    s.Releasing? ==> s.next.Choosing? || s.next.Done?
  }

  lemma ProperCons(a: Action, rest: seq<Action>)
    requires LeadsTo(a, At(rest, 0)) && Proper(rest)
    ensures Proper([a] + rest)
  {
    hide LeadsTo;
    var all := [a] + rest;
    assert all[0] == a && At(all, 1) == At(rest, 0);
    forall k: nat | k < |all|
      ensures LeadsTo(all[k], At(all, k + 1))
    {
      if k > 0 {
        assert all[k] == rest[k - 1] && At(all, k + 1) == At(rest, k);
        assert LeadsTo(rest[k - 1], At(rest, k - 1 + 1));
      }
    }
  }

  lemma StepOpens(s: Loop, a: Action, next: Option<Action>)
    requires Step(s, a).Some? && Tidied(s) && Opens(Step(s, a).value, next)
    ensures Opens(s, Some(a)) && LeadsTo(a, next) && Tidied(Step(s, a).value)
  {
  }

  lemma StepTidies(s: Loop, a: Action)
    requires Step(s, a).Some? && Tidied(s)
    ensures Tidied(Step(s, a).value)
  {
  }

  lemma {:induction false} RunsAreProper(s: Loop, trace: seq<Action>, outcome: Outcome)
    requires Exec(s, trace) == Some(Done(outcome)) && Tidied(s)
    ensures Proper(trace) && Opens(s, At(trace, 0))
    decreases |trace|
  {
    hide *;
    if s.Done? {
      DoneStops(s.outcome, trace, outcome);
      NothingLeads(s.outcome);
    } else {
      var s', rest := Unroll(s, trace, outcome);
      var a := trace[0];
      StepTidies(s, a);
      RunsAreProper(s', rest, outcome);
      StepOpens(s, a, At(rest, 0));
      ProperCons(a, rest);
      assert trace == [a] + rest;
      FirstAction(a, rest);
    }
  }

  lemma NothingLeads(o: Outcome)
    ensures Proper([]) && Opens(Done(o), At([], 0))
  {
  }

  lemma FirstAction(a: Action, rest: seq<Action>)
    ensures At([a] + rest, 0) == Some(a)
  {
  }

  function IsRetryableCall(): Action -> bool {
    (a: Action) => a.Call? && a.result.Retryable?
  }

  lemma {:induction false} FailuresAreRetryableCalls(vs: seq<Visit>)
    ensures Count(Flatten(vs), IsRetryableCall()) == Failures(vs)
  {
    if vs != [] {
      hide Count;
      CountVisit(vs[0], IsRetryableCall());
      CountAppend(vs[0].Actions(), Flatten(vs[1..]), IsRetryableCall());
      FailuresAreRetryableCalls(vs[1..]);
    } else {
      assert Flatten(vs) == [];
    }
  }

  lemma SuffixStays(head: seq<Action>, tail: seq<Action>, n: nat)
    requires n <= |tail|
    ensures (head + tail)[|head + tail| - n..] == tail[|tail| - n..]
  {
  }

  lemma FlattenCons(vs: seq<Visit>)
    requires vs != []
    ensures Flatten(vs) == vs[0].Actions() + Flatten(vs[1..])
    ensures |vs| == 1 ==> Flatten(vs) == vs[0].Actions()
  {
    hide Visit.Actions;
    assert |vs| == 1 ==> vs[1..] == [];
  }

  lemma {:induction false} LastVisitIsLast(vs: seq<Visit>)
    requires vs != []
    ensures var last, trace := vs[|vs| - 1].Actions(), Flatten(vs);
      |last| <= |trace| && trace[|trace| - |last|..] == last
  {
    hide *;
    FlattenCons(vs);
    if |vs| > 1 {
      var rest := vs[1..];
      LastVisitIsLast(rest);
      assert rest[|rest| - 1] == vs[|vs| - 1];
      SuffixStays(vs[0].Actions(), Flatten(rest), |vs[|vs| - 1].Actions()|);
    }
  }

  lemma {:induction false} VisitedAreSelected(vs: seq<Visit>, q: Id)
    requires Visited(vs, q)
    ensures Select(q) in Flatten(vs)
  {
    assert vs == [vs[0]] + vs[1..];
    VisitedCons(vs[0], vs[1..], q);
    if vs[0].p == q {
      assert vs[0].Actions()[0] == Select(q);
    } else {
      VisitedAreSelected(vs[1..], q);
    }
  }

  /** What the request gets, from the end of the trace alone. */
  ghost predicate Outcomes(candidates: seq<Id>, trace: seq<Action>, outcome: Outcome) {
    var n, failures := |trace|, Count(trace, IsRetryableCall());
    match outcome
    case Answered(p, count) => n >= 3 && trace[n - 3] == Call(p, Value) && count == failures
    case Propagated(error) => n >= 3 && trace[n - 3].Call? && trace[n - 3].result == Final(error)
    case AllProvidersFailed(attempts, cause) =>
      && attempts == failures
      && (forall c :: c in candidates ==> Select(c) in trace)
      && match cause
        case None => candidates == [] && trace == []
        case Some(CircuitOpen(p)) => n >= 2 && trace[n - 2] == Acquire(p, false)
        case Some(Upstream(error)) => n >= 3 && trace[n - 3].Call? && trace[n - 3].result == Retryable(error)
  }

  /**
   * The loop in terms of its trace alone: an admission leads to one call and a refusal to none; a
   * value is recorded as a success, a retryable failure as a failure, a client error gives the probe
   * back; every turn ends by giving its slot back. The request gets the value of the last call with
   * the number of retryable failures before it, or its client error, or, with every candidate
   * selected, AllProvidersFailed with the number of retryable failures and the last turn's cause.
   */
  lemma {:induction false} TraceTellsOutcome(candidates: seq<Id>, trace: seq<Action>, outcome: Outcome)
    requires Exec(Start(candidates), trace) == Some(Done(outcome))
    ensures Proper(trace) && Outcomes(candidates, trace, outcome)
  {
    hide Exec, Proper, Explains, Visited, Failures, Count, Opens, Outcomes;
    RunsAreProper(Start(candidates), trace, outcome);
    var vs := FailoverContract(candidates, trace, outcome, "");
    VisitsTellOutcome(candidates, trace, outcome, vs);
  }

  lemma {:induction false} VisitsTellOutcome(candidates: seq<Id>, trace: seq<Action>, outcome: Outcome, vs: seq<Visit>)
    requires Explains(candidates, trace, outcome, vs)
    requires outcome.AllProvidersFailed? ==> forall c :: c in candidates ==> Visited(vs, c)
    ensures Outcomes(candidates, trace, outcome)
  {
    hide ValidVisits, Visited, Failures, Count, Visit.Actions, Flatten, IsRetryableCall;
    FailuresAreRetryableCalls(vs);
    NoVisits(candidates, vs);
    if vs != [] {
      LastVisitIsLast(vs);
      LastActions(trace, vs[|vs| - 1]);
    }
    forall c | outcome.AllProvidersFailed? && c in candidates
      ensures Select(c) in trace
    {
      VisitedAreSelected(vs, c);
    }
  }

  lemma NoVisits(candidates: seq<Id>, vs: seq<Visit>)
    requires ValidVisits(candidates, vs)
    ensures vs == [] ==> candidates == [] && Flatten(vs) == [] && Failures(vs) == 0
  {
  }

  lemma LastActions(trace: seq<Action>, v: Visit)
    requires var t := v.Actions(); |t| <= |trace| && trace[|trace| - |t|..] == t
    ensures var n := |trace|; match v.ending
      case Skip => n >= 2 && trace[n - 2] == Acquire(v.p, false)
      case Fail(e) => n >= 3 && trace[n - 3] == Call(v.p, Retryable(e))
      case Win => n >= 3 && trace[n - 3] == Call(v.p, Value)
      case Refuse(e) => n >= 3 && trace[n - 3] == Call(v.p, Final(e))
  {
    var t, n := v.Actions(), |trace|;
    assert trace[n - 2] == trace[n - |t|..][|t| - 2] && trace[n - 3] == trace[n - |t|..][|t| - 3];
  }

  /**
   * The contract of every finished run, whatever balancer, breaker and providers do: each
   * candidate is selected at most once and its slot given back exactly as often; each allowed
   * acquire gets exactly one report; a success reports as failover count the retryable failures
   * before it; AllProvidersFailed means every candidate was skipped or failed retryably.
   */
  lemma {:induction false} FailoverContract(candidates: seq<Id>, trace: seq<Action>, outcome: Outcome, q: Id)
      returns (vs: seq<Visit>)
    requires Exec(Start(candidates), trace) == Some(Done(outcome))
    ensures Explains(candidates, trace, outcome, vs)
    ensures PairedUp(trace, q, if Visited(vs, q) then 1 else 0) && (Visited(vs, q) ==> q in candidates)
    ensures outcome.Answered? ==> outcome.failoverCount == Failures(vs) && vs != [] && vs[|vs| - 1] == Visit(outcome.provider, Win)
    ensures outcome.AllProvidersFailed? ==>
      && outcome.attempts == Failures(vs)
      && (forall c :: c in candidates ==> Visited(vs, c))
      && forall k :: 0 <= k < |vs| ==> vs[k].ending.Skip? || vs[k].ending.Fail?
  {
    hide Exec, Flatten, ValidVisits, PairedUp, Visited, Start;
    RunsAreVisits(candidates, trace, outcome);
    vs :| Explains(candidates, trace, outcome, vs);
    VisitsPairUp(candidates, vs, q);
    if outcome.AllProvidersFailed? {
      AllFailedVisitsAll(candidates, vs);
    }
  }
}
