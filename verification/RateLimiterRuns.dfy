/** What holds of the rate limiter over every run of checks by any number of replicas. */
module RateLimiterRuns {
  import opened Shared
  import opened RateLimiter

  /** One check. The limits may differ from one check to the next: key rows can be edited. */
  datatype Check = Check(now: nat, rpmLimit: int, tpmLimit: int, tokens: nat, burstLimit: int)

  /** The process-wide settings a run is made under. */
  datatype Env = Env(burstEnabled: bool, burstWindowMs: int)

  ghost predicate ValidEnv(env: Env) {
    env.burstWindowMs >= 1
  }

  function ArgsOf(env: Env, c: Check): Args {
    Args(c.now, ONE_MINUTE_MS, c.rpmLimit, ONE_MINUTE_MS, c.tpmLimit, c.tokens,
         env.burstEnabled, env.burstWindowMs, c.burstLimit)
  }

  /** The check and environment a call of the limiter's `check` amounts to. */
  function EnvOf(cfg: Settings): Env {
    Env(cfg.burstEnabled, cfg.burstWindowMs)
  }

  function CheckOf(cfg: Settings, limits: Limits, now: nat): Check {
    Check(now, limits.rpmLimit, limits.tpmLimit, Clamp(limits.estimatedTokens), BurstLimit(cfg, limits.rpmLimit))
  }

  lemma CallsAreChecks(cfg: Settings, limits: Limits, now: nat)
    ensures ArgsOf(EnvOf(cfg), CheckOf(cfg, limits, now)) == ToArgs(cfg, limits, now)
  {
  }

  /** With a multiplier of at least 1 the burst limit is no smaller than the request limit. */
  lemma BurstLimitAtLeast(cfg: Settings, rpmLimit: int)
    requires cfg.burstMultiplier >= 1.0 && rpmLimit >= 0
    ensures BurstLimit(cfg, rpmLimit) >= rpmLimit
  {
    assert rpmLimit as real * cfg.burstMultiplier >= rpmLimit as real;
  }

  function KeysAfter(env: Env, tr: seq<Check>): Keys {
    if tr == [] then NO_KEYS else Checked(KeysAfter(env, Init(tr)), ArgsOf(env, Last(tr)))
  }

  function Init(tr: seq<Check>): seq<Check>
    requires tr != []
  {
    tr[..|tr| - 1]
  }

  function Last(tr: seq<Check>): Check
    requires tr != []
  {
    tr[|tr| - 1]
  }

  ghost predicate Ordered(tr: seq<Check>) {
    forall j, k :: 0 <= j < k < |tr| ==> tr[j].now <= tr[k].now
  }

  /** Nothing in the run happened after `now`. */
  ghost predicate Before(tr: seq<Check>, now: int) {
    tr != [] ==> Last(tr).now <= now
  }

  // ----- the simple limiter: it keeps the whole admission history and no sets -----

  /**
   * Every admitted request ever (oldest first), the time of the last check, and the drift: the
   * tokens that rejecting checks evicted since the window was last seen empty. (A rejecting check
   * takes expired members off the set but leaves the stored sum as it was.)
   */
  datatype History = History(log: seq<Entry>, since: int, drift: nat)

  /** The token sum a check starts from: the true window sum plus the drift, and 0 for an empty window. */
  function SeenSum(h: History, now: int): nat {
    var live := After(h.log, now - ONE_MINUTE_MS);
    if live == [] then 0 else Tokens(live) + h.drift
  }

  /** The verdict from counting the complete history. */
  function Judged(env: Env, h: History, c: Check): Reason {
    Verdict(
      |After(h.log, c.now - ONE_MINUTE_MS)|,
      if env.burstEnabled then |After(h.log, c.now - env.burstWindowMs)| else 0,
      SeenSum(h, c.now),
      ArgsOf(env, c))
  }

  function LogWith(env: Env, h: History, c: Check): seq<Entry> {
    if Judged(env, h, c) == NoReason then h.log + [Entry(c.now, c.tokens)] else h.log
  }

  function DriftWith(env: Env, h: History, c: Check): nat {
    var live := After(h.log, c.now - ONE_MINUTE_MS);
    var gone := Tokens(After(h.log, h.since - ONE_MINUTE_MS)) - Tokens(live);
    if live == [] then 0 else if Judged(env, h, c) == NoReason || gone < 0 then h.drift else h.drift + gone
  }

  function Played(env: Env, tr: seq<Check>): History {
    if tr == [] then History([], 0, 0)
    else
      var h, c := Played(env, Init(tr)), Last(tr);
      History(LogWith(env, h, c), c.now, DriftWith(env, h, c))
  }

  function Log(env: Env, tr: seq<Check>): seq<Entry> {
    Played(env, tr).log
  }

  // ----- filtering by time -----

  lemma {:induction false} AfterAfter(s: seq<Entry>, a: int, b: int)
    requires a <= b
    ensures After(After(s, a), b) == After(s, b)
  {
    if s != [] {
      var rest, e := s[..|s| - 1], s[|s| - 1];
      AfterAfter(rest, a, b);
      if e.ts > a {
        AfterAppend(After(rest, a), e, b);
      }
    }
  }

  /** The cut divides the members: those above it, and the others. */
  lemma {:induction false} CutDivides(s: seq<Entry>, cut: int)
    ensures forall k :: 0 <= k < |After(s, cut)| ==> After(s, cut)[k].ts > cut
    ensures forall k :: 0 <= k < |UpTo(s, cut)| ==> UpTo(s, cut)[k].ts <= cut
    ensures multiset(s) == multiset(After(s, cut)) + multiset(UpTo(s, cut))
  {
    if s != [] {
      var rest, e := s[..|s| - 1], s[|s| - 1];
      CutDivides(rest, cut);
      assert s == rest + [e];
    }
  }

  lemma AfterAppend(s: seq<Entry>, e: Entry, cut: int)
    ensures After(s + [e], cut) == After(s, cut) + if e.ts > cut then [e] else []
  {
    assert (s + [e])[..|s|] == s;
  }

  lemma {:induction false} AfterNothing(s: seq<Entry>, cut: int)
    requires Newest(s, cut)
    ensures After(s, cut) == []
  {
    if s != [] {
      AfterNothing(s[..|s| - 1], cut);
    }
  }

  lemma TokensAppend(s: seq<Entry>, e: Entry)
    ensures Tokens(s + [e]) == Tokens(s) + e.tokens
  {
    assert (s + [e])[..|s|] == s;
  }

  lemma {:induction false} SplitTokens(s: seq<Entry>, cut: int)
    ensures Tokens(s) == Tokens(UpTo(s, cut)) + Tokens(After(s, cut))
  {
    if s != [] {
      var rest, e := s[..|s| - 1], s[|s| - 1];
      SplitTokens(rest, cut);
      TokensAppend(UpTo(rest, cut), e);
      TokensAppend(After(rest, cut), e);
    }
  }

  /** A later cut keeps fewer members and fewer tokens. */
  lemma {:induction false} LaterCutKeepsLess(s: seq<Entry>, a: int, b: int)
    requires a <= b
    ensures |After(s, b)| <= |After(s, a)| && Tokens(After(s, b)) <= Tokens(After(s, a))
  {
    AfterAfter(s, a, b);
    SplitTokens(After(s, a), b);
  }

  // ----- each sorted set stands for the history's last window -----

  /** At any later time the live members of `z` are exactly the history's entries of that window. */
  ghost predicate Tracks(z: ZSet, log: seq<Entry>, window: int, now: int) {
    forall t {:trigger z.At(t)} :: t >= now ==> After(z.At(t), t - window) == After(log, t - window)
  }

  lemma {:induction false} EvictionAt(z: ZSet, log: seq<Entry>, window: int, now: int, t: int)
    requires After(z.At(now), now - window) == After(log, now - window)
    requires After(z.At(t), t - window) == After(log, t - window) && now <= t
    ensures After(Evicted(z, now, window).At(t), t - window) == After(log, t - window)
  {
    hide After;
    AfterAfter(log, now - window, t - window);
    AfterNothing([], t - window);
  }

  lemma {:induction false} EvictionTracks(z: ZSet, log: seq<Entry>, window: int, since: int, now: int)
    requires Tracks(z, log, window, since) && since <= now
    ensures Tracks(Evicted(z, now, window), log, window, now)
    ensures Evicted(z, now, window).entries == After(log, now - window)
  {
    assert After(z.At(now), now - window) == After(log, now - window);
    forall t | t >= now
      ensures After(Evicted(z, now, window).At(t), t - window) == After(log, t - window)
    {
      assert After(z.At(t), t - window) == After(log, t - window);
      EvictionAt(z, log, window, now, t);
    }
  }

  /** No entry is later than `now`. */
  ghost predicate Newest(log: seq<Entry>, now: int) {
    forall j :: 0 <= j < |log| ==> log[j].ts <= now
  }

  /** A new newest member goes to the end. */
  lemma {:induction false} KeptIsOlder(s: seq<Entry>, cut: int, e: Entry)
    requires Newest(s, e.ts)
    ensures Newest(After(s, cut), e.ts)
    ensures Inserted(After(s, cut), e) == After(s, cut) + [e]
  {
    if s != [] {
      KeptIsOlder(s[..|s| - 1], cut, e);
    }
  }

  lemma {:induction false} AdmissionAt(z': ZSet, log: seq<Entry>, e: Entry, window: int, t: int)
    requires z' == ZSet(After(log, e.ts - window) + [e], e.ts + window + 1000) && e.ts <= t
    requires Newest(log, e.ts)
    ensures After(z'.At(t), t - window) == After(log + [e], t - window)
  {
    hide After;
    if t < z'.expiry {
      AfterAppend(log, e, t - window);
      AfterAppend(After(log, e.ts - window), e, t - window);
      AfterAfter(log, e.ts - window, t - window);
    } else {
      AfterNothing(log + [e], t - window);
    }
  }

  lemma {:induction false} AdmissionTracks(z: ZSet, log: seq<Entry>, e: Entry, window: int, since: int)
    requires Tracks(z, log, window, since) && since <= e.ts && window >= 1 && Newest(log, e.ts)
    ensures Tracks(Recorded(z, e, e.ts, window), log + [e], window, e.ts)
    ensures Recorded(z, e, e.ts, window).entries == After(log + [e], e.ts - window) == After(log, e.ts - window) + [e]
  {
    assert After(z.At(e.ts), e.ts - window) == After(log, e.ts - window);
    KeptIsOlder(log, e.ts - window, e);
    AfterAppend(log, e, e.ts - window);
    var z' := Recorded(z, e, e.ts, window);
    forall t | t >= e.ts
      ensures After(z'.At(t), t - window) == After(log + [e], t - window)
    {
      AdmissionAt(z', log, e, window, t);
    }
  }

  // ----- the four keys refine the history -----

  ghost predicate SumTracks(k: Keys, drift: nat) {
    && k.sum.expiry == k.tpm.expiry
    && (k.tpm.entries != [] ==> k.sum.value == Tokens(k.tpm.entries) + drift)
  }

  ghost predicate Refines(env: Env, k: Keys, h: History) {
    && Newest(h.log, h.since)
    && Tracks(k.rpm, h.log, ONE_MINUTE_MS, h.since)
    && Tracks(k.tpm, h.log, ONE_MINUTE_MS, h.since)
    && (env.burstEnabled ==> Tracks(k.burst, h.log, env.burstWindowMs, h.since))
    && k.tpm.entries == After(h.log, h.since - ONE_MINUTE_MS)
    && SumTracks(k, h.drift)
  }

  lemma {:induction false} RunningSumIsSeen(k: Keys, h: History, now: int)
    requires Tracks(k.tpm, h.log, ONE_MINUTE_MS, h.since) && SumTracks(k, h.drift) && h.since <= now
    ensures RunningSum(k, now, ONE_MINUTE_MS) == SeenSum(h, now)
  {
    SplitTokens(k.tpm.At(now), now - ONE_MINUTE_MS);
    assert After(k.tpm.At(now), now - ONE_MINUTE_MS) == After(h.log, now - ONE_MINUTE_MS);
  }

  lemma {:induction false} VerdictRefines(env: Env, k: Keys, h: History, c: Check)
    requires Refines(env, k, h) && h.since <= c.now
    ensures ReasonFor(k, ArgsOf(env, c)) == Judged(env, h, c)
  {
    hide Tokens, UpTo;
    RunningSumIsSeen(k, h, c.now);
    assert After(k.rpm.At(c.now), c.now - ONE_MINUTE_MS) == After(h.log, c.now - ONE_MINUTE_MS);
  }

  lemma {:induction false} RejectionKeepsSum(env: Env, k: Keys, h: History, c: Check, k': Keys)
    requires SumTracks(k, h.drift) && h.since <= c.now && Judged(env, h, c) != NoReason
    requires k.tpm.entries == After(h.log, h.since - ONE_MINUTE_MS)
    requires k'.tpm == ZSet(After(h.log, c.now - ONE_MINUTE_MS), k.tpm.expiry) && k'.sum == k.sum
    ensures SumTracks(k', DriftWith(env, h, c))
  {
    hide Judged, After, Tokens;
    LaterCutKeepsLess(h.log, h.since - ONE_MINUTE_MS, c.now - ONE_MINUTE_MS);
    AfterAfter(h.log, h.since - ONE_MINUTE_MS, c.now - ONE_MINUTE_MS);
    if k'.tpm.entries != [] {
      EmptyStaysEmpty(k.tpm.entries, c.now - ONE_MINUTE_MS);
    }
  }

  lemma EmptyStaysEmpty(s: seq<Entry>, cut: int)
    requires After(s, cut) != []
    ensures s != []
  {
  }

  /** A rejecting check leaves all four keys in step with the unchanged log and the grown drift. */
  lemma {:induction false} RejectionRefines(env: Env, k: Keys, h: History, c: Check, k': Keys)
    requires Refines(env, k, h) && h.since <= c.now && Judged(env, h, c) != NoReason
    requires k'.rpm == Evicted(k.rpm, c.now, ONE_MINUTE_MS) && k'.tpm == Evicted(k.tpm, c.now, ONE_MINUTE_MS)
    requires env.burstEnabled ==> k'.burst == Evicted(k.burst, c.now, env.burstWindowMs)
    requires k'.sum == k.sum
    ensures Refines(env, k', History(h.log, c.now, DriftWith(env, h, c)))
  {
    hide After;
    EvictionTracks(k.rpm, h.log, ONE_MINUTE_MS, h.since, c.now);
    EvictionTracks(k.tpm, h.log, ONE_MINUTE_MS, h.since, c.now);
    if env.burstEnabled {
      EvictionTracks(k.burst, h.log, env.burstWindowMs, h.since, c.now);
    }
    RejectionKeepsSum(env, k, h, c, k');
  }

  lemma {:induction false} AdmissionKeepsSum(env: Env, h: History, c: Check, k': Keys)
    requires Judged(env, h, c) == NoReason
    requires k'.tpm == ZSet(After(h.log, c.now - ONE_MINUTE_MS) + [Entry(c.now, c.tokens)], k'.sum.expiry)
    requires k'.sum.value == SeenSum(h, c.now) + c.tokens
    ensures SumTracks(k', DriftWith(env, h, c))
  {
    TokensAppend(After(h.log, c.now - ONE_MINUTE_MS), Entry(c.now, c.tokens));
  }

  /** An admitting check records the request in all of them. */
  lemma {:induction false} AdmissionRefines(env: Env, k: Keys, h: History, c: Check, e: Entry, k': Keys)
    requires ValidEnv(env) && Refines(env, k, h) && h.since <= c.now && Judged(env, h, c) == NoReason
    requires e == Entry(c.now, c.tokens)
    requires k'.rpm == Recorded(k.rpm, e, c.now, ONE_MINUTE_MS) && k'.tpm == Recorded(k.tpm, e, c.now, ONE_MINUTE_MS)
    requires env.burstEnabled ==> k'.burst == Recorded(k.burst, e, c.now, env.burstWindowMs)
    requires k'.sum == Stored(SeenSum(h, c.now) + c.tokens, c.now + ONE_MINUTE_MS + 1000)
    ensures Refines(env, k', History(h.log + [e], c.now, DriftWith(env, h, c)))
  {
    hide After;
    assert Newest(h.log, e.ts) && Newest(h.log + [e], e.ts);
    AdmissionTracks(k.rpm, h.log, e, ONE_MINUTE_MS, h.since);
    AdmissionTracks(k.tpm, h.log, e, ONE_MINUTE_MS, h.since);
    if env.burstEnabled {
      AdmissionTracks(k.burst, h.log, e, env.burstWindowMs, h.since);
    }
    AdmissionKeepsSum(env, h, c, k');
  }

  lemma {:induction false} StepRefines(env: Env, k: Keys, h: History, c: Check)
    requires ValidEnv(env) && Refines(env, k, h) && h.since <= c.now
    ensures Refines(env, Checked(k, ArgsOf(env, c)), History(LogWith(env, h, c), c.now, DriftWith(env, h, c)))
  {
    var k' := Checked(k, ArgsOf(env, c));
    VerdictRefines(env, k, h, c);
    if Judged(env, h, c) == NoReason {
      RunningSumIsSeen(k, h, c.now);
      AdmissionRefines(env, k, h, c, Entry(c.now, c.tokens), k');
    } else {
      RejectionRefines(env, k, h, c, k');
    }
  }

  lemma {:induction false} EveryRunRefines(env: Env, tr: seq<Check>)
    requires ValidEnv(env) && Ordered(tr)
    ensures Refines(env, KeysAfter(env, tr), Played(env, tr))
  {
    if tr != [] {
      var k, h, c := KeysAfter(env, Init(tr)), Played(env, Init(tr)), Last(tr);
      EveryRunRefines(env, Init(tr));
      SinceIsLast(env, Init(tr), c.now);
      StepRefines(env, k, h, c);
    }
  }

  lemma SinceIsLast(env: Env, tr: seq<Check>, now: nat)
    requires Before(tr, now)
    ensures Played(env, tr).since <= now
  {
  }

  /**
   * The verdict of any check in any run, from the complete history alone: the request and burst
   * counts are those of the full log's last window, and the token sum is the true one plus drift.
   */
  lemma {:induction false} VerdictRefinesHistory(env: Env, tr: seq<Check>, c: Check)
    requires ValidEnv(env) && Ordered(tr) && Before(tr, c.now)
    ensures ReasonFor(KeysAfter(env, tr), ArgsOf(env, c)) == Judged(env, Played(env, tr), c)
  {
    EveryRunRefines(env, tr);
    SinceIsLast(env, tr, c.now);
    VerdictRefines(env, KeysAfter(env, tr), Played(env, tr), c);
  }

  /** The requests the four keys admit in a run, oldest first. */
  function Admissions(env: Env, tr: seq<Check>): seq<Entry> {
    if tr == [] then []
    else
      Admissions(env, Init(tr))
      + if ReasonFor(KeysAfter(env, Init(tr)), ArgsOf(env, Last(tr))) == NoReason
        then [Entry(Last(tr).now, Last(tr).tokens)] else []
  }

  lemma {:induction false} AdmissionsAreTheLog(env: Env, tr: seq<Check>)
    requires ValidEnv(env) && Ordered(tr)
    ensures Admissions(env, tr) == Played(env, tr).log
  {
    if tr != [] {
      AdmissionsAreTheLog(env, Init(tr));
      VerdictRefinesHistory(env, Init(tr), Last(tr));
    }
  }

  /** Drift law: the stored sum is the live members' sum plus the drift; so it never under-counts. */
  lemma {:induction false} StoredSumLaw(env: Env, tr: seq<Check>)
    requires ValidEnv(env) && Ordered(tr)
    ensures var k, h := KeysAfter(env, tr), Played(env, tr);
      && k.tpm.entries == After(h.log, h.since - ONE_MINUTE_MS)
      && (k.tpm.entries != [] ==> k.sum.value == Tokens(k.tpm.entries) + h.drift)
  {
    hide After, Played, KeysAfter, Tokens, Tracks, Newest;
    EveryRunRefines(env, tr);
  }

  /** No rejecting check of the run evicts a member. */
  ghost predicate NoRejectingEviction(env: Env, tr: seq<Check>) {
    tr == [] || (
      && NoRejectingEviction(env, Init(tr))
      && var h, c := Played(env, Init(tr)), Last(tr);
        Judged(env, h, c) != NoReason ==>
          After(h.log, h.since - ONE_MINUTE_MS) == After(h.log, c.now - ONE_MINUTE_MS))
  }

  /** In such a run there is no drift: the stored sum is exact. */
  lemma {:induction false} NoDriftWithoutRejectingEviction(env: Env, tr: seq<Check>)
    requires NoRejectingEviction(env, tr)
    ensures Played(env, tr).drift == 0
  {
    hide After, LogWith;
    if tr != [] {
      NoDriftWithoutRejectingEviction(env, Init(tr));
      NoDriftStep(env, Played(env, Init(tr)), Last(tr));
    }
  }

  lemma NoDriftStep(env: Env, h: History, c: Check)
    requires h.drift == 0
    requires Judged(env, h, c) != NoReason ==>
      After(h.log, h.since - ONE_MINUTE_MS) == After(h.log, c.now - ONE_MINUTE_MS)
    ensures DriftWith(env, h, c) == 0
  {
  }

  /** The verdict that the true window sum would give. */
  function Ideal(env: Env, log: seq<Entry>, c: Check): Reason {
    Verdict(
      |After(log, c.now - ONE_MINUTE_MS)|,
      if env.burstEnabled then |After(log, c.now - env.burstWindowMs)| else 0,
      Tokens(After(log, c.now - ONE_MINUTE_MS)),
      ArgsOf(env, c))
  }

  /** The limiter never admits what the true sums reject, and it rejects more exactly when the drift tips a non-empty window over. */
  lemma {:induction false} WrongOnlyThroughDrift(env: Env, tr: seq<Check>, c: Check)
    requires ValidEnv(env) && Ordered(tr) && Before(tr, c.now)
    ensures var h, actual := Played(env, tr), ReasonFor(KeysAfter(env, tr), ArgsOf(env, c));
      var live := After(h.log, c.now - ONE_MINUTE_MS);
      && (Ideal(env, h.log, c) != NoReason ==> actual == Ideal(env, h.log, c))
      && (actual != Ideal(env, h.log, c) <==>
        Ideal(env, h.log, c) == NoReason && live != [] && Tokens(live) + h.drift + c.tokens > c.tpmLimit)
  {
    VerdictRefinesHistory(env, tr, c);
    JudgedAgainstIdeal(env, Played(env, tr), c);
  }

  lemma JudgedAgainstIdeal(env: Env, h: History, c: Check)
    ensures var live := After(h.log, c.now - ONE_MINUTE_MS);
      && (Ideal(env, h.log, c) != NoReason ==> Judged(env, h, c) == Ideal(env, h.log, c))
      && (Judged(env, h, c) != Ideal(env, h.log, c) <==>
        Ideal(env, h.log, c) == NoReason && live != [] && Tokens(live) + h.drift + c.tokens > c.tpmLimit)
  {
  }

  /** It does happen: 60 tokens at 0, 40 at 1 under a limit of 100; a rejected 80 at 60000 evicts the 60; then 50 more is refused. */
  lemma {:induction false} DriftRejectsWhatFits() returns (env: Env, tr: seq<Check>, c: Check)
    ensures ValidEnv(env) && Ordered(tr) && Before(tr, c.now)
    ensures ReasonFor(KeysAfter(env, tr), ArgsOf(env, c)) == Tpm
    ensures Ideal(env, Admissions(env, tr), c) == NoReason
  {
    hide Played, Judged, LogWith, DriftWith, After, Tokens, KeysAfter, Ideal, Admissions, ReasonFor;
    env := Env(false, 1);
    var c1, c2, c3 := Check(0, 10, 100, 60, 10), Check(1, 10, 100, 40, 10), Check(60_000, 10, 100, 80, 10);
    var e1, e2 := Entry(0, 60), Entry(1, 40);
    tr, c := [c1] + [c2] + [c3], Check(60_000, 10, 100, 50, 10);
    var h0, h1 := History([], 0, 0), History([] + [e1], 0, 0);
    var h2, h3 := History([] + [e1] + [e2], 1, 0), History([] + [e1] + [e2], 60_000, 60);
    PlayedNothing(env);
    TwoEntries(e1, e2);
    JudgedInParts(env, h0, c1, [], []);
    JudgedInParts(env, h1, c2, [] + [e1], [] + [e1]);
    JudgedInParts(env, h2, c3, [] + [e1] + [e2], [] + [e2]);
    JudgedInParts(env, h3, c, [] + [e2], [] + [e2]);
    assert [c1] == [] + [c1];
    PlayedStep(env, [], c1);
    PlayedStep(env, [c1], c2);
    PlayedStep(env, [c1] + [c2], c3);
    VerdictRefinesHistory(env, tr, c);
    AdmissionsAreTheLog(env, tr);
  }

  lemma PlayedNothing(env: Env)
    ensures Played(env, []) == History([], 0, 0)
  {
  }

  lemma PlayedStep(env: Env, tr: seq<Check>, c: Check)
    ensures var h := Played(env, tr);
      Played(env, tr + [c]) == History(LogWith(env, h, c), c.now, DriftWith(env, h, c))
  {
    hide LogWith, DriftWith;
    assert Init(tr + [c]) == tr;
  }

  /** A step without bursts, from the window as the last check left it and as this one finds it. */
  lemma JudgedInParts(env: Env, h: History, c: Check, before: seq<Entry>, live: seq<Entry>)
    requires !env.burstEnabled
    requires After(h.log, h.since - ONE_MINUTE_MS) == before && After(h.log, c.now - ONE_MINUTE_MS) == live
    ensures var sum := if live == [] then 0 else Tokens(live) + h.drift;
      var reason := if |live| >= c.rpmLimit then Rpm else if sum + c.tokens > c.tpmLimit then Tpm else NoReason;
      var gone := Tokens(before) - Tokens(live);
      && Judged(env, h, c) == reason
      && LogWith(env, h, c) == (if reason == NoReason then h.log + [Entry(c.now, c.tokens)] else h.log)
      && DriftWith(env, h, c) == (if live == [] then 0 else if reason == NoReason || gone < 0 then h.drift else h.drift + gone)
      && (Ideal(env, h.log, c) == NoReason <==> |live| < c.rpmLimit && Tokens(live) + c.tokens <= c.tpmLimit)
  {
    hide After, Tokens;
  }

  lemma TwoEntries(e1: Entry, e2: Entry)
    requires e1 == Entry(0, 60) && e2 == Entry(1, 40)
    ensures forall cut :: cut < 0 ==> After([], cut) == [] && After([] + [e1], cut) == [] + [e1]
    ensures forall cut :: cut < 0 ==> After([] + [e1] + [e2], cut) == [] + [e1] + [e2]
    ensures After([] + [e1] + [e2], 0) == [] + [e2]
    ensures Tokens([]) == 0 && Tokens([] + [e1]) == 60 && Tokens([] + [e2]) == 40 && Tokens([] + [e1] + [e2]) == 100
  {
    hide After;
    forall cut | cut <= 0
      ensures After([], cut) == [] && After([] + [e1], cut) == (if cut < 0 then [] + [e1] else [])
      ensures After([] + [e1] + [e2], cut) == (if cut < 0 then [] + [e1] + [e2] else [] + [e2])
    {
      AfterNothing([], cut);
      AfterAppend([], e1, cut);
      AfterAppend([] + [e1], e2, cut);
    }
    TokensAppend([], e1);
    TokensAppend([], e2);
    TokensAppend([] + [e1], e2);
  }

  // ----- sliding-window safety -----

  /** The entries with a timestamp in (t - 60000, t]. */
  function Window(log: seq<Entry>, t: int): seq<Entry> {
    After(UpTo(log, t), t - ONE_MINUTE_MS)
  }

  lemma {:induction false} WindowWithin(log: seq<Entry>, t: int, cut: int)
    requires cut <= t - ONE_MINUTE_MS
    ensures |Window(log, t)| <= |After(log, cut)| && Tokens(Window(log, t)) <= Tokens(After(log, cut))
  {
    if log != [] {
      var rest, e := log[..|log| - 1], log[|log| - 1];
      WindowWithin(rest, t, cut);
      AfterAppend(UpTo(rest, t), e, t - ONE_MINUTE_MS);
      TokensAppend(After(rest, t - ONE_MINUTE_MS), e);
      TokensAppend(After(rest, cut), e);
      TokensAppend(Window(rest, t), e);
    }
  }

  lemma WindowAppend(log: seq<Entry>, e: Entry, t: int)
    ensures Window(log + [e], t) == Window(log, t) + if t - ONE_MINUTE_MS < e.ts <= t then [e] else []
  {
    assert (log + [e])[..|log|] == log;
    AfterAppend(UpTo(log, t), e, t - ONE_MINUTE_MS);
  }

  ghost predicate LimitsWithin(tr: seq<Check>, rpm: int, tpm: int) {
    forall k :: 0 <= k < |tr| ==> tr[k].rpmLimit <= rpm && tr[k].tpmLimit <= tpm
  }

  ghost predicate WindowSafe(log: seq<Entry>, t: int, rpm: nat, tpm: nat) {
    |Window(log, t)| <= rpm && Tokens(Window(log, t)) <= tpm
  }

  lemma {:induction false} StepIsSafe(env: Env, h: History, c: Check, rpm: nat, tpm: nat, t: int)
    requires h.since <= c.now && c.rpmLimit <= rpm && c.tpmLimit <= tpm
    requires WindowSafe(h.log, t, rpm, tpm)
    ensures WindowSafe(LogWith(env, h, c), t, rpm, tpm)
  {
    var e := Entry(c.now, c.tokens);
    WindowAppend(h.log, e, t);
    if t - ONE_MINUTE_MS < c.now <= t {
      WindowWithin(h.log, t, c.now - ONE_MINUTE_MS);
      TokensAppend(Window(h.log, t), e);
    }
  }

  /**
   * Over any run whose checks never use limits above `rpm` and `tpm`, and for every instant t,
   * the requests admitted in (t - 60000, t] number at most `rpm` and their tokens sum to at most `tpm`.
   */
  lemma {:induction false} SlidingWindowIsSafe(env: Env, tr: seq<Check>, rpm: nat, tpm: nat, t: int)
    requires ValidEnv(env) && Ordered(tr) && LimitsWithin(tr, rpm, tpm)
    ensures |Window(Admissions(env, tr), t)| <= rpm
    ensures Tokens(Window(Admissions(env, tr), t)) <= tpm
  {
    AdmissionsAreTheLog(env, tr);
    LogIsSafe(env, tr, rpm, tpm, t);
  }

  lemma {:induction false} LogIsSafe(env: Env, tr: seq<Check>, rpm: nat, tpm: nat, t: int)
    requires Ordered(tr) && LimitsWithin(tr, rpm, tpm)
    ensures WindowSafe(Played(env, tr).log, t, rpm, tpm)
  {
    if tr != [] {
      LogIsSafe(env, Init(tr), rpm, tpm, t);
      SinceIsLast(env, Init(tr), Last(tr).now);
      StepIsSafe(env, Played(env, Init(tr)), Last(tr), rpm, tpm, t);
    }
  }

  // ----- the burst limit -----

  /** What `BurstLimitAtLeast` guarantees of every check the limiter makes. */
  ghost predicate ValidCheck(c: Check) {
    c.rpmLimit >= 0 ==> c.burstLimit >= c.rpmLimit
  }

  /** With a burst window of at most a minute the burst limit never decides, even if limits change mid-run. */
  lemma {:induction false} BurstCannotBind(env: Env, tr: seq<Check>, c: Check)
    requires ValidEnv(env) && Ordered(tr) && Before(tr, c.now) && env.burstWindowMs <= ONE_MINUTE_MS
    requires ValidCheck(c)
    ensures ReasonFor(KeysAfter(env, tr), ArgsOf(env, c)) != Burst
  {
    VerdictRefinesHistory(env, tr, c);
    BurstIsNoLarger(env, Played(env, tr), c);
  }

  lemma {:induction false} BurstIsNoLarger(env: Env, h: History, c: Check)
    requires env.burstWindowMs <= ONE_MINUTE_MS && ValidCheck(c)
    ensures Judged(env, h, c) != Burst
  {
    hide After;
    LaterCutKeepsLess(h.log, c.now - ONE_MINUTE_MS, c.now - env.burstWindowMs);
  }

  /** `n` free requests, all at time 0. */
  function Volley(n: nat, c: Check): (tr: seq<Check>)
    ensures |tr| == n && forall k :: 0 <= k < n ==> tr[k] == c
  {
    seq(n, _ => c)
  }

  lemma {:induction false} VolleyIsAdmitted(env: Env, n: nat, c: Check)
    requires ValidEnv(env) && c.now == 0 && c.tokens == 0 && c.tpmLimit >= 0
    requires n <= c.rpmLimit && n <= c.burstLimit
    ensures Played(env, Volley(n, c)) == History(seq(n, _ => Entry(0, 0)), 0, 0)
  {
    if n > 0 {
      assert Init(Volley(n, c)) == Volley(n - 1, c);
      VolleyIsAdmitted(env, n - 1, c);
      FreeRequestIsAdmitted(env, Played(env, Volley(n - 1, c)), c);
      assert seq(n, _ => Entry(0, 0)) == seq(n - 1, _ => Entry(0, 0)) + [Entry(0, 0)];
    }
  }

  lemma {:induction false} FreeRequestIsAdmitted(env: Env, h: History, c: Check)
    requires ValidEnv(env) && c.now == 0 && c.tokens == 0 && c.tpmLimit >= 0 && h.drift == 0
    requires |h.log| < c.rpmLimit && |h.log| < c.burstLimit
    requires forall k :: 0 <= k < |h.log| ==> h.log[k] == Entry(0, 0)
    ensures LogWith(env, h, c) == h.log + [Entry(0, 0)] && DriftWith(env, h, c) == 0
  {
    FreeTokens(h.log);
    AfterEverything(h.log, -ONE_MINUTE_MS);
    AfterEverything(h.log, -env.burstWindowMs);
  }

  lemma {:induction false} FreeTokens(s: seq<Entry>)
    requires forall k :: 0 <= k < |s| ==> s[k].tokens == 0
    ensures Tokens(s) == 0
  {
    if s != [] {
      FreeTokens(s[..|s| - 1]);
    }
  }

  lemma {:induction false} AfterEverything(s: seq<Entry>, cut: int)
    requires forall k :: 0 <= k < |s| ==> s[k].ts > cut
    ensures After(s, cut) == s
  {
    if s != [] {
      AfterEverything(s[..|s| - 1], cut);
    }
  }

  /** The check carries the burst limit that the settings give its request limit. */
  ghost predicate MadeUnder(cfg: Settings, c: Check) {
    c.burstLimit == BurstLimit(cfg, c.rpmLimit)
  }

  ghost predicate BurstReachable(cfg: Settings) {
    exists tr: seq<Check>, c: Check ::
      Ordered(tr) && Before(tr, c.now) && (forall k :: 0 <= k < |tr| ==> MadeUnder(cfg, tr[k])) && MadeUnder(cfg, c)
      && ReasonFor(KeysAfter(EnvOf(cfg), tr), ArgsOf(EnvOf(cfg), c)) == Burst
  }

  /** A 'burst' rejection can happen in some run iff bursts are enabled and their window exceeds a minute. */
  lemma {:induction false} BurstBindsExactly(cfg: Settings)
    requires cfg.burstMultiplier >= 1.0 && cfg.burstWindowMs >= 1
    ensures BurstReachable(cfg) <==> cfg.burstEnabled && cfg.burstWindowMs > ONE_MINUTE_MS
  {
    if cfg.burstEnabled && cfg.burstWindowMs > ONE_MINUTE_MS {
      var tr, c := BurstWitness(cfg);
    } else {
      forall tr: seq<Check>, c: Check | Ordered(tr) && Before(tr, c.now) && MadeUnder(cfg, c)
        ensures ReasonFor(KeysAfter(EnvOf(cfg), tr), ArgsOf(EnvOf(cfg), c)) != Burst
      {
        if cfg.burstWindowMs <= ONE_MINUTE_MS {
          if c.rpmLimit >= 0 {
            BurstLimitAtLeast(cfg, c.rpmLimit);
          }
          BurstCannotBind(EnvOf(cfg), tr, c);
        }
      }
    }
  }

  /** The run: `n` admissions under a limit of `n`, then, a minute later, one check under a limit of 1. */
  lemma {:induction false} BurstWitness(cfg: Settings) returns (tr: seq<Check>, c: Check)
    requires cfg.burstMultiplier >= 1.0 && cfg.burstEnabled && cfg.burstWindowMs > ONE_MINUTE_MS
    ensures Ordered(tr) && Before(tr, c.now) && (forall k :: 0 <= k < |tr| ==> MadeUnder(cfg, tr[k]))
    ensures MadeUnder(cfg, c) && ReasonFor(KeysAfter(EnvOf(cfg), tr), ArgsOf(EnvOf(cfg), c)) == Burst
  {
    BurstLimitAtLeast(cfg, 1);
    var env, n := EnvOf(cfg), BurstLimit(cfg, 1);
    BurstLimitAtLeast(cfg, n);
    var free := Check(0, n, 0, 0, BurstLimit(cfg, n));
    tr, c := Volley(n, free), Check(ONE_MINUTE_MS, 1, 0, 0, n);
    VolleyIsAdmitted(env, n, free);
    VerdictRefinesHistory(env, tr, c);
    OldVolleyBinds(env, Played(env, tr), c);
  }

  lemma {:induction false} OldVolleyBinds(env: Env, h: History, c: Check)
    requires env.burstEnabled && env.burstWindowMs > ONE_MINUTE_MS
    requires c == Check(ONE_MINUTE_MS, 1, 0, 0, |h.log|) && forall k :: 0 <= k < |h.log| ==> h.log[k] == Entry(0, 0)
    ensures Judged(env, h, c) == Burst
  {
    AfterNothing(h.log, 0);
    AfterEverything(h.log, ONE_MINUTE_MS - env.burstWindowMs);
  }

  // ----- Retry-After and bounded lockout -----

  lemma {:induction false} FirstLeaves(s: seq<Entry>, cut: int)
    requires s != [] && s[0].ts <= cut
    ensures |After(s, cut)| < |s|
  {
    if |s| > 1 {
      FirstLeaves(s[..|s| - 1], cut);
    }
  }

  lemma {:induction false} KeptIsNewer(s: seq<Entry>, cut: int)
    ensures forall k :: 0 <= k < |After(s, cut)| ==> After(s, cut)[k].ts > cut
  {
    if s != [] {
      KeptIsNewer(s[..|s| - 1], cut);
    }
  }

  /** The waiting time covers what is left of the window, to the second. */
  lemma CeilSecondsCovers(ms: int)
    ensures 1000 * CeilSeconds(ms) >= ms > 1000 * (CeilSeconds(ms) - 1)
  {
  }

  /** An 'rpm' rejection reads its waiting time from the live window, which a limit >= 1 keeps non-empty. */
  lemma {:induction false} RejectedRpm(env: Env, k: Keys, h: History, c: Check)
    requires Refines(env, k, h) && h.since <= c.now && c.rpmLimit >= 1 && Judged(env, h, c) == Rpm
    ensures var live, secs := After(h.log, c.now - ONE_MINUTE_MS), ReplyTo(env, k, c).retryAfterSec;
      && live != []
      && live[0].ts + ONE_MINUTE_MS <= c.now + 1000 * secs
      && 1 <= secs <= 60
  {
    hide After;
    VerdictRefines(env, k, h, c);
    var live := After(h.log, c.now - ONE_MINUTE_MS);
    assert After(k.rpm.At(c.now), c.now - ONE_MINUTE_MS) == live;
    KeptIsNewer(h.log, c.now - ONE_MINUTE_MS);
    KeptIsOlder(h.log, c.now - ONE_MINUTE_MS, Entry(c.now, 0));
    CeilSecondsCovers(live[0].ts + ONE_MINUTE_MS - c.now);
    assert ReplyTo(env, k, c).retryAfterSec == RetryAfter(live, c.now, ONE_MINUTE_MS);
  }

  /** The reply a check gets. */
  function ReplyTo(env: Env, k: Keys, c: Check): Reply {
    ReplyFor(ReasonFor(k, ArgsOf(env, c)), Checked(k, ArgsOf(env, c)), ArgsOf(env, c))
  }

  /** After a check the request set holds exactly the history's last window, this request included if it was admitted. */
  lemma {:induction false} RpmSetAfterCheck(env: Env, k: Keys, h: History, c: Check)
    requires ValidEnv(env) && Refines(env, k, h) && h.since <= c.now
    ensures Checked(k, ArgsOf(env, c)).rpm.entries == After(LogWith(env, h, c), c.now - ONE_MINUTE_MS)
    ensures Checked(k, ArgsOf(env, c)).tpm.entries == After(LogWith(env, h, c), c.now - ONE_MINUTE_MS)
  {
    hide After;
    VerdictRefines(env, k, h, c);
    if Judged(env, h, c) == NoReason {
      AdmissionTracks(k.rpm, h.log, Entry(c.now, c.tokens), ONE_MINUTE_MS, h.since);
      AdmissionTracks(k.tpm, h.log, Entry(c.now, c.tokens), ONE_MINUTE_MS, h.since);
    } else {
      EvictionTracks(k.rpm, h.log, ONE_MINUTE_MS, h.since, c.now);
      EvictionTracks(k.tpm, h.log, ONE_MINUTE_MS, h.since, c.now);
    }
  }

  /**
   * The headers, from the history alone: `remaining` is the limit minus the admissions of the last
   * minute, this one included, and never negative; `reset` is when the oldest of them leaves the
   * window; a 'tpm' rejection waits for that same oldest admission.
   */
  lemma {:induction false} HeadersFromHistory(env: Env, tr: seq<Check>, c: Check)
    requires ValidEnv(env) && Ordered(tr) && Before(tr, c.now)
    ensures var reply, window := ReplyTo(env, KeysAfter(env, tr), c),
        After(LogWith(env, Played(env, tr), c), c.now - ONE_MINUTE_MS);
      && reply.limit == c.rpmLimit
      && reply.remaining == (if c.rpmLimit > |window| then c.rpmLimit - |window| else 0)
      && reply.resetUnixSec == CeilSeconds((if window == [] then c.now else window[0].ts) + ONE_MINUTE_MS)
      && (reply.reason == Tpm ==> reply.retryAfterSec == RetryAfter(window, c.now, ONE_MINUTE_MS))
  {
    hide After, LogWith, Checked, Played, KeysAfter, RetryAfter, CeilSeconds;
    EveryRunRefines(env, tr);
    SinceIsLast(env, tr, c.now);
    RpmSetAfterCheck(env, KeysAfter(env, tr), Played(env, tr), c);
  }

  /** Under limits of at most `rpm` no later window holds more than `rpm` of the run's admissions. */
  lemma {:induction false} RpmCountBounded(env: Env, tr: seq<Check>, rpm: nat, t: int)
    requires Ordered(tr) && Before(tr, t) && forall k :: 0 <= k < |tr| ==> tr[k].rpmLimit <= rpm
    ensures |After(Log(env, tr), t - ONE_MINUTE_MS)| <= rpm
  {
    if tr != [] {
      RpmCountBounded(env, Init(tr), rpm, Last(tr).now);
      RpmStep(env, Played(env, Init(tr)), Last(tr), rpm, t);
    }
  }

  lemma {:induction false} RpmStep(env: Env, h: History, c: Check, rpm: nat, t: int)
    requires c.now <= t && c.rpmLimit <= rpm && |After(h.log, c.now - ONE_MINUTE_MS)| <= rpm
    ensures |After(LogWith(env, h, c), t - ONE_MINUTE_MS)| <= rpm
  {
    LaterCutKeepsLess(h.log, c.now - ONE_MINUTE_MS, t - ONE_MINUTE_MS);
    AfterAppend(h.log, Entry(c.now, c.tokens), t - ONE_MINUTE_MS);
  }

  /**
   * Under a fixed limit, an 'rpm' rejection tells the caller to wait 1..60 seconds, and a check
   * that much later, with nothing admitted meanwhile, is not rejected for 'rpm'.
   */
  lemma {:induction false} RetryAfterIsSound(env: Env, tr: seq<Check>, c: Check, later: seq<Check>, c': Check)
    requires ValidEnv(env) && Ordered(tr) && Before(tr, c.now)
    requires ReasonFor(KeysAfter(env, tr), ArgsOf(env, c)) == Rpm
    requires c.rpmLimit >= 1 && c'.rpmLimit == c.rpmLimit && forall k :: 0 <= k < |tr| ==> tr[k].rpmLimit <= c.rpmLimit
    requires tr + [c] <= later && Ordered(later) && Before(later, c'.now) && Log(env, later) == Log(env, tr)
    requires c'.now >= c.now + 1000 * ReplyTo(env, KeysAfter(env, tr), c).retryAfterSec
    ensures 1 <= ReplyTo(env, KeysAfter(env, tr), c).retryAfterSec <= 60
    ensures ReasonFor(KeysAfter(env, later), ArgsOf(env, c')) != Rpm
  {
    hide After, Played, KeysAfter;
    EveryRunRefines(env, tr);
    EveryRunRefines(env, later);
    SinceIsLast(env, tr, c.now);
    SinceIsLast(env, later, c'.now);
    RpmCountBounded(env, tr, c.rpmLimit, c.now);
    WaitingHelps(env, KeysAfter(env, tr), Played(env, tr), c, KeysAfter(env, later), Played(env, later), c');
  }

  lemma {:induction false} WaitingHelps(
      env: Env, k: Keys, h: History, c: Check, k': Keys, h': History, c': Check)
    requires Refines(env, k, h) && h.since <= c.now && Refines(env, k', h') && h'.since <= c'.now && h'.log == h.log
    requires c'.rpmLimit == c.rpmLimit >= 1 && |After(h.log, c.now - ONE_MINUTE_MS)| <= c.rpmLimit
    requires ReasonFor(k, ArgsOf(env, c)) == Rpm && c'.now >= c.now + 1000 * ReplyTo(env, k, c).retryAfterSec
    ensures 1 <= ReplyTo(env, k, c).retryAfterSec <= 60
    ensures ReasonFor(k', ArgsOf(env, c')) != Rpm
  {
    hide After, Refines, ReplyTo, Judged, ReasonFor;
    VerdictRefines(env, k, h, c);
    RejectedRpm(env, k, h, c);
    OldestGone(h.log, c.now, c'.now);
    VerdictRefines(env, k', h', c');
    FewerIsNotRpm(env, h', c');
  }

  lemma FewerIsNotRpm(env: Env, h: History, c: Check)
    requires |After(h.log, c.now - ONE_MINUTE_MS)| < c.rpmLimit
    ensures Judged(env, h, c) != Rpm
  {
  }

  lemma {:induction false} OldestGone(log: seq<Entry>, now: int, later: int)
    requires now <= later && After(log, now - ONE_MINUTE_MS) != []
    requires After(log, now - ONE_MINUTE_MS)[0].ts <= later - ONE_MINUTE_MS
    ensures |After(log, later - ONE_MINUTE_MS)| < |After(log, now - ONE_MINUTE_MS)|
  {
    AfterAfter(log, now - ONE_MINUTE_MS, later - ONE_MINUTE_MS);
    FirstLeaves(After(log, now - ONE_MINUTE_MS), later - ONE_MINUTE_MS);
  }

  /** After a minute without admissions every request within the token limit is allowed, whatever the drift. */
  lemma {:induction false} LockoutIsBounded(env: Env, tr: seq<Check>, c: Check)
    requires ValidEnv(env) && env.burstWindowMs <= ONE_MINUTE_MS && Ordered(tr) && Before(tr, c.now)
    requires Newest(Played(env, tr).log, c.now - ONE_MINUTE_MS)
    requires ValidCheck(c) && c.rpmLimit >= 1 && c.tokens <= c.tpmLimit
    ensures ReasonFor(KeysAfter(env, tr), ArgsOf(env, c)) == NoReason
  {
    VerdictRefinesHistory(env, tr, c);
    EmptyWindowAdmits(env, Played(env, tr), c);
  }

  lemma {:induction false} EmptyWindowAdmits(env: Env, h: History, c: Check)
    requires env.burstWindowMs <= ONE_MINUTE_MS
    requires Newest(h.log, c.now - ONE_MINUTE_MS)
    requires ValidCheck(c) && c.rpmLimit >= 1 && c.tokens <= c.tpmLimit
    ensures Judged(env, h, c) == NoReason
  {
    AfterNothing(h.log, c.now - ONE_MINUTE_MS);
    LaterCutKeepsLess(h.log, c.now - ONE_MINUTE_MS, c.now - env.burstWindowMs);
  }
}
