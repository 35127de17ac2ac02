/** Small definitions that several components share. */
module Shared {
  datatype Option<+T> = None | Some(value: T) {
    /** The source's `??` */
    function GetOr(default: T): T {
      if Some? then value else default
    }
  }

  /** `Math.max(0, Math.trunc(x))` */
  function Clamp(x: real): (n: nat)
    ensures x <= 0.0 ==> n == 0
    ensures x > 0.0 ==> n as real <= x < (n + 1) as real
  {
    if x <= 0.0 then 0 else x.Floor
  }

  /** `Math.ceil(x)` */
  function Ceil(x: real): (n: int)
    ensures (n - 1) as real < x <= n as real
  {
    if x == x.Floor as real then x.Floor else x.Floor + 1
  }

  /** A Redis counter key with a time to live. */
  datatype Lease = Absent | Count(n: int, expiry: int) {
    function Value(): int {
      if Count? then n else 0
    }

    /** The key as seen at `now`: present iff `now` is before its expiry. */
    function At(now: int): Lease {
      if Count? && now < expiry then this else Absent
    }

    /** INCR followed by PEXPIRE. */
    function Incremented(expiry': int): Lease {
      Count(Value() + 1, expiry')
    }

    /** DECR guarded by `> 0`; the time to live stays. */
    function Decremented(): Lease {
      if Count? && n > 0 then Count(n - 1, expiry) else this
    }
  }
}
