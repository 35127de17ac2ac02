/** The sliding-window rate limiter: four keys in Redis per API key and the script that checks them. */
module RateLimiter {
  import opened Shared

  const ONE_MINUTE_MS := 60_000

  /** One recorded request; its random id is fresh and so needs no place here. */
  datatype Entry = Entry(ts: nat, tokens: nat)

  // ----- sorted sets -----

  /** The members with a score above `cut`. */
  function After(s: seq<Entry>, cut: int): (r: seq<Entry>)
    ensures |r| <= |s|
  {
    if s == [] then []
    else
      var rest, e := After(s[..|s| - 1], cut), s[|s| - 1];
      if e.ts > cut then rest + [e] else rest
  }

  /** The members with a score up to `cut`: ZRANGEBYSCORE 0 cut. */
  function UpTo(s: seq<Entry>, cut: int): seq<Entry> {
    if s == [] then []
    else
      var rest, e := UpTo(s[..|s| - 1], cut), s[|s| - 1];
      if e.ts > cut then rest else rest + [e]
  }

  function Tokens(s: seq<Entry>): nat {
    if s == [] then 0 else Tokens(s[..|s| - 1]) + s[|s| - 1].tokens
  }

  /** ZADD of a new member into a set ordered by score. */
  function Inserted(s: seq<Entry>, e: Entry): seq<Entry> {
    if s == [] || s[|s| - 1].ts <= e.ts then s + [e] else Inserted(s[..|s| - 1], e) + [s[|s| - 1]]
  }

  /** A sorted-set key; without members or past its expiry it is absent. */
  datatype ZSet = ZSet(entries: seq<Entry>, expiry: int) {
    function At(now: int): seq<Entry> {
      if now < expiry then entries else []
    }
  }

  /** The key holding the running token sum. */
  datatype Stored = Stored(value: int, expiry: int) {
    function At(now: int): int {
      if now < expiry then value else 0
    }
  }

  datatype Keys = Keys(rpm: ZSet, tpm: ZSet, burst: ZSet, sum: Stored)

  const NO_KEYS := Keys(ZSet([], 0), ZSet([], 0), ZSet([], 0), Stored(0, 0))

  datatype Args = Args(
    now: nat, rpmWindow: int, rpmLimit: int, tpmWindow: int, tpmLimit: int, reqTokens: nat,
    burstEnabled: bool, burstWindow: int, burstLimit: int)

  datatype Reason = NoReason | Rpm | Burst | Tpm

  datatype Reply = Reply(
    allowed: bool, reason: Reason, limit: int, remaining: int, resetUnixSec: int, retryAfterSec: int)

  // ----- one check on values -----

  /** `math.ceil(ms / 1000)` */
  function CeilSeconds(ms: int): (s: int)
    ensures 1000 * (s - 1) < ms <= 1000 * s
  {
    -((-ms) / 1000)
  }

  /** The token sum a check starts from, once the members that fell out have been taken off. */
  function RunningSum(k: Keys, now: int, window: int): int {
    var s := k.sum.At(now) - Tokens(UpTo(k.tpm.At(now), now - window));
    if s < 0 || After(k.tpm.At(now), now - window) == [] then 0 else s
  }

  function Verdict(rpmCount: int, burstCount: int, tpmSum: int, a: Args): Reason {
    if rpmCount >= a.rpmLimit then Rpm
    else if a.burstEnabled && burstCount >= a.burstLimit then Burst
    else if tpmSum + a.reqTokens > a.tpmLimit then Tpm
    else NoReason
  }

  function ReasonFor(k: Keys, a: Args): Reason {
    Verdict(
      |After(k.rpm.At(a.now), a.now - a.rpmWindow)|,
      |After(k.burst.At(a.now), a.now - a.burstWindow)|,
      RunningSum(k, a.now, a.tpmWindow),
      a)
  }

  /** What eviction leaves of a set. */
  function Evicted(z: ZSet, now: int, window: int): ZSet {
    z.(entries := After(z.At(now), now - window))
  }

  function Recorded(z: ZSet, e: Entry, now: int, window: int): ZSet {
    ZSet(Inserted(After(z.At(now), now - window), e), now + window + 1000)
  }

  /** The four keys after a check. Only an allowed check stores the sum. */
  function Checked(k: Keys, a: Args): Keys {
    if ReasonFor(k, a) == NoReason then
      var e := Entry(a.now, a.reqTokens);
      Keys(
        Recorded(k.rpm, e, a.now, a.rpmWindow),
        Recorded(k.tpm, e, a.now, a.tpmWindow),
        if a.burstEnabled then Recorded(k.burst, e, a.now, a.burstWindow) else k.burst,
        Stored(RunningSum(k, a.now, a.tpmWindow) + a.reqTokens, a.now + a.tpmWindow + 1000))
    else
      k.(rpm := Evicted(k.rpm, a.now, a.rpmWindow),
         tpm := Evicted(k.tpm, a.now, a.tpmWindow),
         burst := if a.burstEnabled then Evicted(k.burst, a.now, a.burstWindow) else k.burst)
  }

  /** How long until the oldest of `entries` leaves a window, in whole seconds and at least one. */
  function RetryAfter(entries: seq<Entry>, now: int, window: int): int {
    var s := if entries == [] then 0 else CeilSeconds(entries[0].ts + window - now);
    if s < 1 then 1 else s
  }

  /** The reply, read from the keys `k'` the check leaves. */
  function ReplyFor(reason: Reason, k': Keys, a: Args): Reply {
    var left := a.rpmLimit - |k'.rpm.entries|;
    Reply(
      reason == NoReason,
      reason,
      a.rpmLimit,
      if left < 0 then 0 else left,
      CeilSeconds((if k'.rpm.entries == [] then a.now else k'.rpm.entries[0].ts) + a.rpmWindow),
      match reason
      case NoReason => 0
      case Rpm => RetryAfter(k'.rpm.entries, a.now, a.rpmWindow)
      case Tpm => RetryAfter(k'.tpm.entries, a.now, a.tpmWindow)
      case Burst => RetryAfter(k'.burst.entries, a.now, a.burstWindow))
  }

  /** Process-wide settings. */
  datatype Settings = Settings(enabled: bool, burstEnabled: bool, burstMultiplier: real, burstWindowMs: int)

  /** Per-key limits and the caller's token estimate. */
  datatype Limits = Limits(rpmLimit: int, tpmLimit: int, estimatedTokens: real)

  function BurstLimit(cfg: Settings, rpmLimit: int): int {
    Ceil(rpmLimit as real * cfg.burstMultiplier)
  }

  function ToArgs(cfg: Settings, limits: Limits, now: nat): Args {
    Args(now, ONE_MINUTE_MS, limits.rpmLimit, ONE_MINUTE_MS, limits.tpmLimit, Clamp(limits.estimatedTokens),
         cfg.burstEnabled, cfg.burstWindowMs, BurstLimit(cfg, limits.rpmLimit))
  }

  /** The keys of one API key. */
  class LimiterKeys {
    var rpm: ZSet
    var tpm: ZSet
    var burst: ZSet
    var sum: Stored

    function Snapshot(): Keys
      reads this
    {
      Keys(rpm, tpm, burst, sum)
    }

    constructor ()
      ensures Snapshot() == NO_KEYS
    {
      rpm, tpm, burst, sum := ZSet([], 0), ZSet([], 0), ZSet([], 0), Stored(0, 0);
    }

    /** The running sum: take off the members that fell out of the window, then drop them. */
    method TakeSum(now: nat, window: int) returns (tpmSum: int)
      modifies this`tpm
      ensures tpmSum == RunningSum(old(Snapshot()), now, window)
      ensures tpm == Evicted(old(tpm), now, window)
    {
      tpmSum := sum.At(now);
      var expired := UpTo(tpm.At(now), now - window);
      for i := 0 to |expired|
        invariant tpmSum == sum.At(now) - Tokens(expired[..i])
        invariant tpm == old(tpm)
      {
        assert expired[..i + 1][..i] == expired[..i];
        tpmSum := tpmSum - expired[i].tokens;
      }
      assert expired[..|expired|] == expired;
      tpm := tpm.(entries := After(tpm.At(now), now - window));
      if tpmSum < 0 || tpm.entries == [] {
        tpmSum := 0;
      }
    }

    /** The headers' values, read from the keys as the check leaves them. */
    method Headers(reason: Reason, a: Args, rpmCount: int) returns (r: Reply)
      requires rpmCount == |rpm.entries|
      ensures r == ReplyFor(reason, Snapshot(), a)
    {
      var remaining := a.rpmLimit - rpmCount;
      if remaining < 0 {
        remaining := 0;
      }
      var resetMs := a.now + a.rpmWindow;
      if rpm.entries != [] {
        resetMs := rpm.entries[0].ts + a.rpmWindow;
      }
      var retryAfterSec := 0;
      if reason != NoReason {
        var z, window := rpm.entries, a.rpmWindow;
        if reason == Tpm {
          z, window := tpm.entries, a.tpmWindow;
        } else if reason == Burst {
          z, window := burst.entries, a.burstWindow;
        }
        if z != [] {
          retryAfterSec := CeilSeconds(z[0].ts + window - a.now);
        }
        if retryAfterSec < 1 {
          retryAfterSec := 1;
        }
      }
      r := Reply(reason == NoReason, reason, a.rpmLimit, remaining, CeilSeconds(resetMs), retryAfterSec);
    }

    /** The script: evict, measure, decide and record in one indivisible step. */
    method RunScript(a: Args) returns (r: Reply)
      modifies this
      ensures Snapshot() == Checked(old(Snapshot()), a)
      ensures r == ReplyFor(ReasonFor(old(Snapshot()), a), Snapshot(), a)
      ensures r.allowed ==>
        && rpm.expiry == a.now + a.rpmWindow + 1000 && tpm.expiry == sum.expiry == a.now + a.tpmWindow + 1000
        && (a.burstEnabled ==> burst.expiry == a.now + a.burstWindow + 1000)
    {
      hide After, Inserted, UpTo, Tokens;
      rpm := rpm.(entries := After(rpm.At(a.now), a.now - a.rpmWindow));
      var burstCount := 0;
      if a.burstEnabled {
        burst := burst.(entries := After(burst.At(a.now), a.now - a.burstWindow));
        burstCount := |burst.entries|;
      }
      var rpmCount := |rpm.entries|;
      var tpmSum := TakeSum(a.now, a.tpmWindow);
      var reason := Verdict(rpmCount, burstCount, tpmSum, a);
      if reason == NoReason {
        InsertedLength(rpm.entries, Entry(a.now, a.reqTokens));
        Record(Entry(a.now, a.reqTokens), a, tpmSum);
        rpmCount := rpmCount + 1;
      }
      r := Headers(reason, a, rpmCount);
    }

    /** Record an admitted request in the sets and store the sum. */
    method Record(e: Entry, a: Args, tpmSum: int)
      modifies this
      ensures rpm == ZSet(Inserted(old(rpm).entries, e), a.now + a.rpmWindow + 1000)
      ensures tpm == ZSet(Inserted(old(tpm).entries, e), a.now + a.tpmWindow + 1000)
      ensures sum == Stored(tpmSum + e.tokens, a.now + a.tpmWindow + 1000)
      ensures burst ==
        if a.burstEnabled then ZSet(Inserted(old(burst).entries, e), a.now + a.burstWindow + 1000) else old(burst)
    {
      rpm := ZSet(Inserted(rpm.entries, e), a.now + a.rpmWindow + 1000);
      tpm := ZSet(Inserted(tpm.entries, e), a.now + a.tpmWindow + 1000);
      sum := Stored(tpmSum + e.tokens, a.now + a.tpmWindow + 1000);
      if a.burstEnabled {
        burst := ZSet(Inserted(burst.entries, e), a.now + a.burstWindow + 1000);
      }
    }

    /** The limiter's `check`; when rate limiting is off it touches no key. */
    method Check(cfg: Settings, limits: Limits, now: nat) returns (r: Reply)
      modifies this
      ensures !cfg.enabled ==>
        && Snapshot() == old(Snapshot())
        && r == Reply(true, NoReason, limits.rpmLimit, limits.rpmLimit, CeilSeconds(now + ONE_MINUTE_MS), 0)
      ensures cfg.enabled ==>
        && Snapshot() == Checked(old(Snapshot()), ToArgs(cfg, limits, now))
        && r == ReplyFor(ReasonFor(old(Snapshot()), ToArgs(cfg, limits, now)), Snapshot(), ToArgs(cfg, limits, now))
    {
      if !cfg.enabled {
        return Reply(true, NoReason, limits.rpmLimit, limits.rpmLimit, CeilSeconds(now + ONE_MINUTE_MS), 0);
      }
      r := RunScript(ToArgs(cfg, limits, now));
    }
  }

  lemma {:induction false} InsertedLength(s: seq<Entry>, e: Entry)
    ensures |Inserted(s, e)| == |s| + 1
  {
    if s != [] && s[|s| - 1].ts > e.ts {
      InsertedLength(s[..|s| - 1], e);
    }
  }
}
