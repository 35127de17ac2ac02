/** What callers of the limiter are told, reply by reply, over a whole run of one key. */
module LimiterReplies {
  import opened Shared
  import opened RateLimiter
  import opened RateLimiterRuns

  /** One call of `check`. */
  datatype Call = Call(limits: Limits, now: nat)

  ghost predicate InOrder(calls: seq<Call>) {
    forall j, k :: 0 <= j < k < |calls| ==> calls[j].now <= calls[k].now
  }

  function ChecksOf(cfg: Settings, calls: seq<Call>): (tr: seq<Check>)
    ensures |tr| == |calls|
    ensures forall k :: 0 <= k < |calls| ==> tr[k] == CheckOf(cfg, calls[k].limits, calls[k].now)
  {
    seq(|calls|, k requires 0 <= k < |calls| => CheckOf(cfg, calls[k].limits, calls[k].now))
  }

  /** The requests that were told they may go ahead, with their whole, non-negative token estimates. */
  function Admitted(calls: seq<Call>, replies: seq<Reply>): seq<Entry>
    requires |replies| == |calls|
  {
    if calls == [] then []
    else
      var n := |calls| - 1;
      Admitted(calls[..n], replies[..n])
      + if replies[n].allowed then [Entry(calls[n].now, Clamp(calls[n].limits.estimatedTokens))] else []
  }

  /** `secs` is the least whole number of seconds, at least one, until the oldest entry has left its window. */
  predicate LeastWait(entries: seq<Entry>, now: int, window: int, secs: int) {
    && secs >= 1
    && (entries != [] ==> entries[0].ts + window <= now + 1000 * secs)
    && (secs > 1 ==> entries != [] && entries[0].ts + window > now + 1000 * (secs - 1))
  }

  /** The least whole number that is at least `limit` times `multiplier`. */
  function Raised(limit: int, multiplier: real): (n: int)
    ensures (n - 1) as real < limit as real * multiplier <= n as real
  {
    Ceil(limit as real * multiplier)
  }

  /**
   * The verdict on a call, from the admissions `log` before it and the drift: the request must be
   * below the request limit over the last minute, below the burst limit over the burst window, and
   * its tokens must fit beside those of the last minute; the reason is the first of these to fail.
   */
  ghost predicate RightVerdict(cfg: Settings, call: Call, log: seq<Entry>, drift: nat, r: Reply) {
    VerdictUnder(cfg, call, Raised(call.limits.rpmLimit, cfg.burstMultiplier), log, drift, r)
  }

  ghost predicate VerdictUnder(cfg: Settings, call: Call, burstLimit: int, log: seq<Entry>, drift: nat, r: Reply) {
    var minute, burst := After(log, call.now - 60_000), After(log, call.now - cfg.burstWindowMs);
    var rpmFits := |minute| < call.limits.rpmLimit;
    var burstFits := cfg.burstEnabled ==> |burst| < burstLimit;
    var taken := if minute == [] then 0 else Tokens(minute) + drift;
    var tokensFit := taken + Clamp(call.limits.estimatedTokens) <= call.limits.tpmLimit;
    && (r.allowed <==> rpmFits && burstFits && tokensFit)
    && r.reason == if !rpmFits then Rpm else if !burstFits then Burst else if !tokensFit then Tpm else NoReason
  }

  /** The headers: what is left of the limit, this request counted if allowed, and when the oldest entry leaves. */
  ghost predicate RightHeaders(call: Call, log: seq<Entry>, r: Reply) {
    var minute := After(log, call.now - 60_000)
      + if r.allowed then [Entry(call.now, Clamp(call.limits.estimatedTokens))] else [];
    && r.limit == call.limits.rpmLimit
    && r.remaining == (if call.limits.rpmLimit > |minute| then call.limits.rpmLimit - |minute| else 0)
    && r.resetUnixSec == CeilSeconds((if minute == [] then call.now else minute[0].ts) + 60_000)
  }

  /** A rejected caller waits for the oldest entry of the window that the reason is about. */
  ghost predicate RightWait(cfg: Settings, call: Call, log: seq<Entry>, r: Reply) {
    match r.reason
    case NoReason => r.retryAfterSec == 0
    case Rpm => LeastWait(After(log, call.now - 60_000), call.now, 60_000, r.retryAfterSec)
    case Tpm => LeastWait(After(log, call.now - 60_000), call.now, 60_000, r.retryAfterSec)
    case Burst => LeastWait(After(log, call.now - cfg.burstWindowMs), call.now, cfg.burstWindowMs, r.retryAfterSec)
  }

  ghost predicate Right(cfg: Settings, call: Call, log: seq<Entry>, drift: nat, r: Reply) {
    RightVerdict(cfg, call, log, drift, r) && RightHeaders(call, log, r) && RightWait(cfg, call, log, r)
  }

  lemma WaitIsLeast(entries: seq<Entry>, now: int, window: int)
    ensures LeastWait(entries, now, window, RetryAfter(entries, now, window))
  {
  }

  /** The sets a check leaves are the windows of the history, with the request if it was admitted. */
  lemma {:induction false} SetsLeft(env: Env, k: Keys, h: History, c: Check)
    requires ValidEnv(env) && Refines(env, k, h) && h.since <= c.now
    ensures var k', minute := Checked(k, ArgsOf(env, c)), After(h.log, c.now - ONE_MINUTE_MS);
      && k'.rpm.entries == k'.tpm.entries == minute + LogWith(env, h, c)[|h.log|..]
      && (env.burstEnabled && Judged(env, h, c) != NoReason ==> k'.burst.entries == After(h.log, c.now - env.burstWindowMs))
  {
    hide After, Judged;
    VerdictRefines(env, k, h, c);
    RpmSetAfterCheck(env, k, h, c);
    if Judged(env, h, c) == NoReason {
      AfterAppend(h.log, Entry(c.now, c.tokens), c.now - ONE_MINUTE_MS);
    } else if env.burstEnabled {
      EvictionTracks(k.burst, h.log, env.burstWindowMs, h.since, c.now);
    }
  }

  ghost predicate LeftAs(cfg: Settings, call: Call, log: seq<Entry>, reason: Reason, k': Keys) {
    var minute, tokens := After(log, call.now - ONE_MINUTE_MS), Clamp(call.limits.estimatedTokens);
    && k'.rpm.entries == k'.tpm.entries == minute + (if reason == NoReason then [Entry(call.now, tokens)] else [])
    && (cfg.burstEnabled && reason != NoReason ==> k'.burst.entries == After(log, call.now - cfg.burstWindowMs))
  }

  lemma VerdictIsRight(cfg: Settings, call: Call, h: History, reason: Reason, k': Keys)
    requires reason == Judged(EnvOf(cfg), h, CheckOf(cfg, call.limits, call.now))
    ensures RightVerdict(cfg, call, h.log, h.drift, ReplyFor(reason, k', ToArgs(cfg, call.limits, call.now)))
  {
    hide VerdictUnder, Judged, ReplyFor, ToArgs, CheckOf, EnvOf, BurstLimit, Raised;
    VerdictFits(cfg, call, h, reason, k');
    BurstLimitIs(cfg, call.limits.rpmLimit);
  }

  lemma BurstLimitIs(cfg: Settings, rpmLimit: int)
    ensures BurstLimit(cfg, rpmLimit) == Raised(rpmLimit, cfg.burstMultiplier)
  {
  }

  lemma VerdictFits(cfg: Settings, call: Call, h: History, reason: Reason, k': Keys)
    requires reason == Judged(EnvOf(cfg), h, CheckOf(cfg, call.limits, call.now))
    ensures VerdictUnder(
      cfg, call, BurstLimit(cfg, call.limits.rpmLimit), h.log, h.drift,
      ReplyFor(reason, k', ToArgs(cfg, call.limits, call.now)))
  {
    hide After, Tokens, Clamp, CeilSeconds, RetryAfter, BurstLimit;
  }

  lemma HeadersAreRight(cfg: Settings, call: Call, log: seq<Entry>, reason: Reason, k': Keys)
    requires LeftAs(cfg, call, log, reason, k')
    ensures RightHeaders(call, log, ReplyFor(reason, k', ToArgs(cfg, call.limits, call.now)))
  {
    hide After, Clamp, CeilSeconds, RetryAfter, BurstLimit;
  }

  lemma WaitIsRight(cfg: Settings, call: Call, log: seq<Entry>, reason: Reason, k': Keys)
    requires LeftAs(cfg, call, log, reason, k') && (reason == Burst ==> cfg.burstEnabled)
    ensures RightWait(cfg, call, log, ReplyFor(reason, k', ToArgs(cfg, call.limits, call.now)))
  {
    hide After, LeastWait, RetryAfter, CeilSeconds, Clamp, BurstLimit;
    WaitIsLeast(After(log, call.now - ONE_MINUTE_MS), call.now, ONE_MINUTE_MS);
    WaitIsLeast(After(log, call.now - cfg.burstWindowMs), call.now, cfg.burstWindowMs);
    assert After(log, call.now - ONE_MINUTE_MS) + [] == After(log, call.now - ONE_MINUTE_MS);
  }

  lemma BurstIsEnabled(env: Env, h: History, c: Check)
    requires Judged(env, h, c) == Burst
    ensures env.burstEnabled
  {
    hide After, Tokens;
  }

  /** The reply of one check that finds keys in step with a history is right for that history. */
  lemma {:induction false} ReplyIsRight(cfg: Settings, k: Keys, h: History, call: Call)
    requires cfg.burstWindowMs >= 1 && Refines(EnvOf(cfg), k, h) && h.since <= call.now
    ensures var a := ToArgs(cfg, call.limits, call.now);
      var r := ReplyFor(ReasonFor(k, a), Checked(k, a), a);
      && Right(cfg, call, h.log, h.drift, r)
      && LogWith(EnvOf(cfg), h, CheckOf(cfg, call.limits, call.now)) ==
        h.log + if r.allowed then [Entry(call.now, Clamp(call.limits.estimatedTokens))] else []
  {
    hide After, Refines, Checked, RightVerdict, RightHeaders, RightWait, Judged, ReasonFor, ReplyFor, ToArgs, BurstLimit;
    var env, c, a := EnvOf(cfg), CheckOf(cfg, call.limits, call.now), ToArgs(cfg, call.limits, call.now);
    CallsAreChecks(cfg, call.limits, call.now);
    VerdictRefines(env, k, h, c);
    SetsLeft(env, k, h, c);
    var reason, k' := ReasonFor(k, a), Checked(k, a);
    assert (h.log + [Entry(c.now, c.tokens)])[|h.log|..] == [Entry(c.now, c.tokens)] && h.log[|h.log|..] == [];
    if reason == Burst {
      BurstIsEnabled(env, h, c);
    }
    VerdictIsRight(cfg, call, h, reason, k');
    HeadersAreRight(cfg, call, h.log, reason, k');
    WaitIsRight(cfg, call, h.log, reason, k');
    AllowedMeans(reason, k', a);
    assert h.log + [] == h.log;
  }

  lemma AllowedMeans(reason: Reason, k': Keys, a: Args)
    ensures ReplyFor(reason, k', a).allowed <==> reason == NoReason
  {
  }

  /** A fresh key serves any calls in time order: every reply is right for the requests admitted before it. */
  method Serve(cfg: Settings, calls: seq<Call>) returns (keys: LimiterKeys, replies: seq<Reply>)
    requires cfg.enabled && cfg.burstWindowMs >= 1 && InOrder(calls)
    ensures fresh(keys) && keys.Snapshot() == KeysAfter(EnvOf(cfg), ChecksOf(cfg, calls))
    ensures |replies| == |calls|
    ensures forall i :: 0 <= i < |calls| ==>
      Right(cfg, calls[i], Admitted(calls[..i], replies[..i]), Played(EnvOf(cfg), ChecksOf(cfg, calls[..i])).drift, replies[i])
  {
    hide Right, KeysAfter, Played, Checked, ReplyFor, Admitted;
    keys := new LimiterKeys();
    replies := [];
    NothingChecked(cfg);
    for i := 0 to |calls|
      invariant fresh(keys) && keys.Snapshot() == KeysAfter(EnvOf(cfg), ChecksOf(cfg, calls[..i]))
      invariant |replies| == i
      invariant Log(EnvOf(cfg), ChecksOf(cfg, calls[..i])) == Admitted(calls[..i], replies)
      invariant forall j :: 0 <= j < i ==>
        Right(cfg, calls[j], Admitted(calls[..j], replies[..j]), Played(EnvOf(cfg), ChecksOf(cfg, calls[..j])).drift, replies[j])
    {
      OneMoreCall(cfg, calls, i, replies);
      var r := keys.Check(cfg, calls[i].limits, calls[i].now);
      assert (replies + [r])[..i] == replies;
      assert forall j :: 0 <= j < i ==> (replies + [r])[..j] == replies[..j];
      AdmittedAppend(calls[..i], replies, calls[i], r);
      assert calls[..i] + [calls[i]] == calls[..i + 1];
      replies := replies + [r];
    }
    assert calls[..|calls|] == calls && replies[..|calls|] == replies;
  }

  lemma NothingChecked(cfg: Settings)
    ensures KeysAfter(EnvOf(cfg), ChecksOf(cfg, [])) == NO_KEYS
    ensures Log(EnvOf(cfg), ChecksOf(cfg, [])) == Admitted([], [])
  {
  }

  lemma AdmittedAppend(calls: seq<Call>, replies: seq<Reply>, call: Call, r: Reply)
    requires |replies| == |calls|
    ensures Admitted(calls + [call], replies + [r]) ==
      Admitted(calls, replies) + if r.allowed then [Entry(call.now, Clamp(call.limits.estimatedTokens))] else []
  {
    assert (calls + [call])[..|calls|] == calls && (replies + [r])[..|calls|] == replies;
  }

  /** What the next check does after `i` calls. */
  lemma {:induction false} OneMoreCall(cfg: Settings, calls: seq<Call>, i: nat, replies: seq<Reply>)
    requires cfg.burstWindowMs >= 1 && InOrder(calls) && i < |calls| && |replies| == i
    requires Log(EnvOf(cfg), ChecksOf(cfg, calls[..i])) == Admitted(calls[..i], replies)
    ensures var env, before, call := EnvOf(cfg), ChecksOf(cfg, calls[..i]), calls[i];
      var k, a := KeysAfter(env, before), ToArgs(cfg, call.limits, call.now);
      var r := ReplyFor(ReasonFor(k, a), Checked(k, a), a);
      && KeysAfter(env, ChecksOf(cfg, calls[..i + 1])) == Checked(k, a)
      && Right(cfg, call, Admitted(calls[..i], replies), Played(env, before).drift, r)
      && Log(env, ChecksOf(cfg, calls[..i + 1])) ==
        Admitted(calls[..i], replies) + if r.allowed then [Entry(call.now, Clamp(call.limits.estimatedTokens))] else []
  {
    hide Right, Checked, ReplyFor, Admitted, ReasonFor, Refines;
    var env, before, call := EnvOf(cfg), ChecksOf(cfg, calls[..i]), calls[i];
    var c := CheckOf(cfg, call.limits, call.now);
    assert ChecksOf(cfg, calls[..i + 1]) == before + [c];
    assert Ordered(before) && Before(before, call.now);
    EveryRunRefines(env, before);
    SinceIsLast(env, before, call.now);
    ReplyIsRight(cfg, KeysAfter(env, before), Played(env, before), call);
    CallsAreChecks(cfg, call.limits, call.now);
    PlayedStep(env, before, c);
    KeysStep(env, before, c);
  }

  lemma KeysStep(env: Env, tr: seq<Check>, c: Check)
    ensures KeysAfter(env, tr + [c]) == Checked(KeysAfter(env, tr), ArgsOf(env, c))
  {
    hide Checked;
    assert Init(tr + [c]) == tr;
  }
}
