/** The distributed circuit breaker: five keys in Redis and the five operations on them. */
module CircuitBreaker {
  import opened Shared

  datatype CircuitState = Closed | Open | HalfOpen

  datatype Config = Config(
    failureThreshold: int, successThreshold: int, timeoutMs: int, windowMs: int, maxProbes: int)
  {
    ghost predicate Valid() {
      failureThreshold >= 1 && successThreshold >= 1 && timeoutMs >= 1 && windowMs >= 1 && maxProbes >= 1
    }
  }

  datatype Keys = Keys(
    state: Option<CircuitState>,
    failures: Lease,
    openedAt: Option<int>,
    halfProbes: Lease,
    halfSuccesses: Option<int>)
  {
    function State(): CircuitState {
      if state.Some? then state.value else Closed
    }

    /** What a script started at `now` sees: expired counters are gone. */
    function At(now: int): Keys {
      this.(failures := failures.At(now), halfProbes := halfProbes.At(now))
    }
  }

  const NO_KEYS := Keys(None, Absent, None, Absent, None)

  datatype Decision = Decision(state: CircuitState, allowed: bool)

  // ----- the operations on values; `k` is the snapshot the script sees -----

  function OpenedAt(k: Keys): int {
    if k.openedAt.Some? then k.openedAt.value else 0
  }

  function Acquired(cfg: Config, k: Keys, now: int): (Keys, Decision) {
    match k.State()
    case Closed => (k, Decision(Closed, true))
    case Open =>
      if now - OpenedAt(k) >= cfg.timeoutMs then
        (k.(state := Some(HalfOpen), halfProbes := Count(1, now + cfg.timeoutMs), halfSuccesses := Some(0)),
         Decision(HalfOpen, true))
      else (k, Decision(Open, false))
    case HalfOpen =>
      if k.halfProbes.Value() < cfg.maxProbes then
        (k.(halfProbes := k.halfProbes.Incremented(now + cfg.timeoutMs)), Decision(HalfOpen, true))
      else (k, Decision(HalfOpen, false))
  }

  function Succeeded(cfg: Config, k: Keys): Keys {
    match k.State()
    case HalfOpen =>
      var s := (if k.halfSuccesses.Some? then k.halfSuccesses.value else 0) + 1;
      if s >= cfg.successThreshold then Keys(Some(Closed), Absent, None, Absent, None)
      else k.(halfSuccesses := Some(s), halfProbes := k.halfProbes.Decremented())
    case Closed => k.(failures := Absent)
    case Open => k
  }

  function Released(k: Keys): Keys {
    if k.State() == HalfOpen then k.(halfProbes := k.halfProbes.Decremented()) else k
  }

  function Failed(cfg: Config, k: Keys, now: int): Keys {
    match k.State()
    case Open => k
    case HalfOpen => Keys(Some(Open), Absent, Some(now), Absent, None)
    case Closed =>
      var f := k.failures.Incremented(now + cfg.windowMs);
      if f.n >= cfg.failureThreshold then k.(failures := f, state := Some(Open), openedAt := Some(now))
      else k.(failures := f)
  }

  /** The five Redis keys of one provider. Every method is one indivisible script. */
  class BreakerKeys {
    var state: Option<CircuitState>
    var failures: Lease
    var openedAt: Option<int>
    var halfProbes: Lease
    var halfSuccesses: Option<int>

    function Snapshot(): Keys
      reads this
    {
      Keys(state, failures, openedAt, halfProbes, halfSuccesses)
    }

    constructor ()
      ensures Snapshot() == NO_KEYS
    {
      state, failures, openedAt, halfProbes, halfSuccesses := None, Absent, None, Absent, None;
    }

    /** Redis drops expired keys before a script reads them. */
    method Expire(now: int)
      modifies this
      ensures Snapshot() == old(Snapshot()).At(now)
    {
      if failures.Count? && now >= failures.expiry {
        failures := Absent;
      }
      if halfProbes.Count? && now >= halfProbes.expiry {
        halfProbes := Absent;
      }
    }

    method Acquire(cfg: Config, now: int) returns (d: Decision)
      modifies this
      ensures (Snapshot(), d) == Acquired(cfg, old(Snapshot()).At(now), now)
    {
      Expire(now);
      var current := if state.Some? then state.value else Closed;
      if current == Closed {
        return Decision(Closed, true);
      }
      if current == Open {
        var since := if openedAt.Some? then openedAt.value else 0;
        if now - since >= cfg.timeoutMs {
          state := Some(HalfOpen);
          halfProbes := Count(1, now + cfg.timeoutMs);
          halfSuccesses := Some(0);
          return Decision(HalfOpen, true);
        }
        return Decision(Open, false);
      }
      if halfProbes.Value() < cfg.maxProbes {
        halfProbes := Count(halfProbes.Value() + 1, now + cfg.timeoutMs);
        return Decision(HalfOpen, true);
      }
      return Decision(HalfOpen, false);
    }

    method RecordSuccess(cfg: Config, now: int) returns (after: CircuitState)
      modifies this
      ensures Snapshot() == Succeeded(cfg, old(Snapshot()).At(now))
      ensures after == Snapshot().State()
    {
      Expire(now);
      var current := if state.Some? then state.value else Closed;
      if current == HalfOpen {
        halfSuccesses := Some((if halfSuccesses.Some? then halfSuccesses.value else 0) + 1);
        if halfSuccesses.value >= cfg.successThreshold {
          state := Some(Closed);
          failures, halfSuccesses, halfProbes, openedAt := Absent, None, Absent, None;
          return Closed;
        }
        if halfProbes.Value() > 0 {
          halfProbes := Count(halfProbes.n - 1, halfProbes.expiry);
        }
        return HalfOpen;
      } else if current == Closed {
        failures := Absent;
        return Closed;
      }
      return current;
    }

    method Release(now: int)
      modifies this
      ensures Snapshot() == Released(old(Snapshot()).At(now))
    {
      Expire(now);
      if state == Some(HalfOpen) && halfProbes.Value() > 0 {
        halfProbes := Count(halfProbes.n - 1, halfProbes.expiry);
      }
    }

    method RecordFailure(cfg: Config, now: int) returns (after: CircuitState)
      modifies this
      ensures Snapshot() == Failed(cfg, old(Snapshot()).At(now), now)
      ensures after == Snapshot().State()
    {
      Expire(now);
      var current := if state.Some? then state.value else Closed;
      if current == Open {
        return Open;
      }
      if current == HalfOpen {
        state, openedAt := Some(Open), Some(now);
        halfProbes, halfSuccesses, failures := Absent, None, Absent;
        return Open;
      }
      failures := Count(failures.Value() + 1, now + cfg.windowMs);
      if failures.n >= cfg.failureThreshold {
        state, openedAt := Some(Open), Some(now);
        return Open;
      }
      return Closed;
    }

    method Reset()
      modifies this
      ensures Snapshot() == NO_KEYS
    {
      state, failures, openedAt, halfProbes, halfSuccesses := None, Absent, None, Absent, None;
    }
  }
}
