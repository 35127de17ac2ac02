/** When the burst limit can decide while the request limit stays the same. */
module FixedBursts {
  import opened RateLimiter
  import opened RateLimiterRuns

  /** `Math.ceil(ms / 60000)` */
  function Minutes(ms: int): int {
    -((-ms) / ONE_MINUTE_MS)
  }

  /** A run under one request limit, and a check after it that is rejected for 'burst'. */
  ghost predicate FixedBurst(cfg: Settings, limit: int, tr: seq<Check>, c: Check) {
    && Ordered(tr) && Before(tr, c.now)
    && (forall k :: 0 <= k < |tr| ==> MadeUnder(cfg, tr[k]) && tr[k].rpmLimit == limit)
    && MadeUnder(cfg, c) && c.rpmLimit == limit
    && ReasonFor(KeysAfter(EnvOf(cfg), tr), ArgsOf(EnvOf(cfg), c)) == Burst
  }

  // ----- how many admissions a window of several minutes can hold -----

  lemma {:induction false} OneMinuteMore(log: seq<Entry>, t: int)
    ensures |After(log, t - ONE_MINUTE_MS)| == |Window(log, t)| + |After(log, t)|
  {
    if log != [] {
      var rest, e := log[..|log| - 1], log[|log| - 1];
      OneMinuteMore(rest, t);
      WindowAppend(rest, e, t);
      AfterAppend(rest, e, t);
      AfterAppend(rest, e, t - ONE_MINUTE_MS);
      assert rest + [e] == log;
    }
  }

  /** No token limit of the run is higher. */
  function MaxTpm(tr: seq<Check>): (m: nat)
    ensures forall k :: 0 <= k < |tr| ==> tr[k].tpmLimit <= m
  {
    if tr == [] then 0
    else
      var m := MaxTpm(Init(tr));
      if Last(tr).tpmLimit > m then Last(tr).tpmLimit else m
  }

  lemma MinuteHolds(env: Env, tr: seq<Check>, limit: nat, t: int)
    requires Ordered(tr) && forall k :: 0 <= k < |tr| ==> tr[k].rpmLimit == limit
    ensures |After(Log(env, tr), t - ONE_MINUTE_MS)| <= limit + |After(Log(env, tr), t)|
  {
    hide After, Window, Played;
    OneMinuteMore(Log(env, tr), t);
    LogIsSafe(env, tr, limit, MaxTpm(tr), t);
  }

  /** `n` times the limit, minute by minute. */
  function Full(limit: nat, n: nat): nat {
    if n == 0 then 0 else Full(limit, n - 1) + limit
  }

  lemma {:induction false} FullIsProduct(limit: nat, n: nat)
    ensures Full(limit, n) == limit * n
  {
    if n > 0 {
      FullIsProduct(limit, n - 1);
      OneMore(limit, n);
    }
  }

  /** The time `n` minutes before `now`. */
  function Ago(now: int, n: nat): int {
    if n == 0 then now else Ago(now, n - 1) - ONE_MINUTE_MS
  }

  lemma {:induction false} AgoIsProduct(now: int, n: nat)
    ensures Ago(now, n) == now - n * 60_000
  {
    if n > 0 {
      AgoIsProduct(now, n - 1);
    }
  }

  lemma {:induction false} MinutesHold(env: Env, tr: seq<Check>, limit: nat, now: int, minutes: nat)
    requires Ordered(tr) && forall k :: 0 <= k < |tr| ==> tr[k].rpmLimit == limit
    ensures |After(Log(env, tr), Ago(now, minutes + 1))| <= |After(Log(env, tr), Ago(now, 1))| + Full(limit, minutes)
  {
    if minutes > 0 {
      hide After, Log, Ordered;
      MinutesHold(env, tr, limit, now, minutes - 1);
      MinuteHolds(env, tr, limit, Ago(now, minutes));
    }
  }

  lemma OneMore(a: int, n: int)
    ensures a * n == a * (n - 1) + a
  {
  }

  lemma {:induction false} BurstNeedsRoom(cfg: Settings, limit: int, tr: seq<Check>, c: Check)
    requires cfg.burstMultiplier >= 1.0 && cfg.burstWindowMs >= 1 && FixedBurst(cfg, limit, tr, c)
    ensures cfg.burstEnabled && limit >= 1 && BurstLimit(cfg, limit) < limit * Minutes(cfg.burstWindowMs)
  {
    hide After, Played, KeysAfter, ReasonFor, BurstLimit;
    var env, j := EnvOf(cfg), Minutes(cfg.burstWindowMs);
    VerdictRefinesHistory(env, tr, c);
    MinutesHold(env, tr, limit, c.now, j - 1);
    FullIsProduct(limit, j - 1);
    AgoIsProduct(c.now, 1);
    AgoIsProduct(c.now, j);
    LaterCutKeepsLess(Log(env, tr), Ago(c.now, j), c.now - cfg.burstWindowMs);
    OneMore(limit, j);
  }

  // ----- a run that uses all of that room -----

  /** A free request in minute `k`. */
  function FreeCheck(limit: nat, burst: int, k: nat): Check {
    Check(k * ONE_MINUTE_MS, limit, 0, 0, burst)
  }

  /** `limit` free requests at the start of each of `k` minutes, and then `s` more. */
  function Spaced(limit: nat, burst: int, k: nat, s: nat): seq<Check>
    decreases k, s
  {
    if s > 0 then Spaced(limit, burst, k, s - 1) + [FreeCheck(limit, burst, k)]
    else if k > 0 then Spaced(limit, burst, k - 1, limit)
    else []
  }

  function SpacedLog(limit: nat, k: nat, s: nat): seq<Entry>
    decreases k, s
  {
    if s > 0 then SpacedLog(limit, k, s - 1) + [Entry(k * ONE_MINUTE_MS, 0)]
    else if k > 0 then SpacedLog(limit, k - 1, limit)
    else []
  }

  lemma {:induction false} SpacedEntries(limit: nat, k: nat, s: nat)
    ensures var log := SpacedLog(limit, k, s);
      |log| == k * limit + s && forall j :: 0 <= j < |log| ==> log[j].tokens == 0 && log[j].ts <= k * ONE_MINUTE_MS
    decreases k, s
  {
    if s > 0 {
      SpacedEntries(limit, k, s - 1);
    } else if k > 0 {
      SpacedEntries(limit, k - 1, limit);
      assert (k - 1) * limit + limit == k * limit;
    }
  }

  /** The last minute of it holds the last `s`. */
  lemma {:induction false} SpacedLastMinute(limit: nat, k: nat, s: nat)
    ensures After(SpacedLog(limit, k, s), (k - 1) * ONE_MINUTE_MS) == seq(s, _ => Entry(k * ONE_MINUTE_MS, 0))
    decreases k, s
  {
    hide After;
    if s > 0 {
      var e := Entry(k * ONE_MINUTE_MS, 0);
      SpacedLastMinute(limit, k, s - 1);
      AfterAppend(SpacedLog(limit, k, s - 1), e, (k - 1) * ONE_MINUTE_MS);
      assert seq(s, _ => e) == seq(s - 1, _ => e) + [e];
    } else if k > 0 {
      SpacedEntries(limit, k - 1, limit);
      AfterNothing(SpacedLog(limit, k - 1, limit), (k - 1) * ONE_MINUTE_MS);
    } else {
      AfterNothing([], -ONE_MINUTE_MS);
    }
  }

  lemma {:induction false} SpacedOrder(limit: nat, burst: int, k: nat, s: nat)
    ensures var tr := Spaced(limit, burst, k, s);
      && Ordered(tr) && Before(tr, k * ONE_MINUTE_MS)
      && forall j :: 0 <= j < |tr| ==>
        tr[j].now <= k * ONE_MINUTE_MS && tr[j].rpmLimit == limit && tr[j].burstLimit == burst
    decreases k, s
  {
    if s > 0 {
      SpacedOrder(limit, burst, k, s - 1);
    } else if k > 0 {
      SpacedOrder(limit, burst, k - 1, limit);
    }
  }

  /** What a check in minute `k` finds, if the whole run lies within the burst window. */
  lemma SpacedCounts(env: Env, h: History, limit: nat, k: nat, s: nat, c: Check)
    requires h.log == SpacedLog(limit, k, s) && h.drift == 0 && c.now == k * ONE_MINUTE_MS < env.burstWindowMs
    requires env.burstEnabled && c.tokens == 0 && c.tpmLimit == 0 && c.rpmLimit == limit
    ensures Judged(env, h, c) == if s >= limit then Rpm else if k * limit + s >= c.burstLimit then Burst else NoReason
    ensures DriftWith(env, h, c) == 0
  {
    hide After, SpacedLog, Tokens;
    var live := After(h.log, c.now - ONE_MINUTE_MS);
    SpacedEntries(limit, k, s);
    SpacedLastMinute(limit, k, s);
    assert c.now - ONE_MINUTE_MS == (k - 1) * ONE_MINUTE_MS;
    AfterEverything(h.log, c.now - env.burstWindowMs);
    FreeTokens(live);
    SinceTokens(h.log, h.since - ONE_MINUTE_MS);
  }

  lemma {:induction false} SinceTokens(log: seq<Entry>, cut: int)
    requires forall j :: 0 <= j < |log| ==> log[j].tokens == 0
    ensures Tokens(After(log, cut)) == 0
  {
    if log != [] {
      var rest, e := log[..|log| - 1], log[|log| - 1];
      SinceTokens(rest, cut);
      TokensAppend(After(rest, cut), e);
    }
  }

  lemma {:induction false} SpacedIsAdmitted(env: Env, limit: nat, burst: int, k: nat, s: nat)
    requires env.burstEnabled && s <= limit && k * limit + s <= burst && k * ONE_MINUTE_MS < env.burstWindowMs
    ensures Log(env, Spaced(limit, burst, k, s)) == SpacedLog(limit, k, s)
    ensures Played(env, Spaced(limit, burst, k, s)).drift == 0
    decreases k, s
  {
    hide SpacedLog, Judged, DriftWith;
    SpacedLogStep(limit, k, s);
    if s > 0 {
      var tr, c := Spaced(limit, burst, k, s - 1), FreeCheck(limit, burst, k);
      SpacedIsAdmitted(env, limit, burst, k, s - 1);
      SpacedCounts(env, Played(env, tr), limit, k, s - 1, c);
      PlayedStep(env, tr, c);
    } else if k > 0 {
      assert (k - 1) * limit + limit == k * limit;
      SpacedIsAdmitted(env, limit, burst, k - 1, limit);
    } else {
      PlayedNothing(env);
    }
  }

  lemma SpacedLogStep(limit: nat, k: nat, s: nat)
    ensures SpacedLog(limit, k, s) ==
      if s > 0 then SpacedLog(limit, k, s - 1) + [Entry(k * ONE_MINUTE_MS, 0)]
      else if k > 0 then SpacedLog(limit, k - 1, limit)
      else []
  {
  }

  lemma DivideBurst(burst: int, limit: int, minutes: int) returns (k: nat, s: nat)
    requires limit >= 1 && 0 <= burst < limit * minutes
    ensures burst == k * limit + s && s < limit && k < minutes
  {
    k, s := burst / limit, burst % limit;
    assert k * limit == limit * k;
    if k >= minutes {
      MoreMinutes(limit, minutes, k);
    }
  }

  lemma MoreMinutes(limit: int, a: int, b: int)
    requires limit >= 1 && a <= b
    ensures limit * a <= limit * b
  {
  }

  lemma MinutesFit(k: nat, windowMs: int)
    requires k < Minutes(windowMs)
    ensures k * ONE_MINUTE_MS < windowMs
  {
  }

  lemma {:induction false} RoomMakesBurst(cfg: Settings, limit: int) returns (tr: seq<Check>, c: Check)
    requires cfg.burstMultiplier >= 1.0 && cfg.burstEnabled && cfg.burstWindowMs >= 1 && limit >= 1
    requires BurstLimit(cfg, limit) < limit * Minutes(cfg.burstWindowMs)
    ensures FixedBurst(cfg, limit, tr, c)
  {
    var env, burst := EnvOf(cfg), BurstLimit(cfg, limit);
    BurstLimitAtLeast(cfg, limit);
    hide BurstLimit, Judged, Spaced, SpacedLog, Played, KeysAfter, ReasonFor, DriftWith, Minutes, Ordered;
    var k, s := DivideBurst(burst, limit, Minutes(cfg.burstWindowMs));
    MinutesFit(k, cfg.burstWindowMs);
    tr, c := Spaced(limit, burst, k, s), FreeCheck(limit, burst, k);
    SpacedOrder(limit, burst, k, s);
    SpacedIsAdmitted(env, limit, burst, k, s);
    SpacedCounts(env, Played(env, tr), limit, k, s, c);
    VerdictRefinesHistory(env, tr, c);
  }

  /**
   * While the request limit stays the same, a 'burst' rejection can happen in some run exactly if
   * bursts are enabled, the limit lets anything through, and the burst limit is below what that
   * many whole minutes as the burst window touches let through.
   */
  lemma {:induction false} FixedBurstBindsExactly(cfg: Settings, limit: int)
    requires cfg.burstMultiplier >= 1.0 && cfg.burstWindowMs >= 1
    ensures (exists tr, c :: FixedBurst(cfg, limit, tr, c)) <==>
      cfg.burstEnabled && limit >= 1 && BurstLimit(cfg, limit) < limit * Minutes(cfg.burstWindowMs)
  {
    hide FixedBurst, BurstLimit;
    if exists tr, c :: FixedBurst(cfg, limit, tr, c) {
      var tr, c :| FixedBurst(cfg, limit, tr, c);
      BurstNeedsRoom(cfg, limit, tr, c);
    }
    if cfg.burstEnabled && limit >= 1 && BurstLimit(cfg, limit) < limit * Minutes(cfg.burstWindowMs) {
      var tr, c := RoomMakesBurst(cfg, limit);
    }
  }
}
