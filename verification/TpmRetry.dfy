/** What the waiting time of a 'tpm' rejection is worth. */
module TpmRetry {
  import opened RateLimiter
  import opened RateLimiterRuns

  /** A 'tpm' rejection reads its waiting time from the live window. */
  lemma {:induction false} RejectedTpm(env: Env, k: Keys, h: History, c: Check)
    requires Refines(env, k, h) && h.since <= c.now && Judged(env, h, c) == Tpm
    ensures ReplyTo(env, k, c).retryAfterSec == RetryAfter(After(h.log, c.now - ONE_MINUTE_MS), c.now, ONE_MINUTE_MS)
  {
    hide After, Judged, RetryAfter;
    VerdictRefines(env, k, h, c);
    assert After(k.tpm.At(c.now), c.now - ONE_MINUTE_MS) == After(h.log, c.now - ONE_MINUTE_MS);
  }

  /** The waiting time is 1 to 60 seconds and covers the stay of the oldest entry. */
  lemma {:induction false} WaitCoversOldest(log: seq<Entry>, now: nat)
    requires Newest(log, now)
    ensures var live := After(log, now - ONE_MINUTE_MS);
      var secs := RetryAfter(live, now, ONE_MINUTE_MS);
      1 <= secs <= 60 && (live != [] ==> live[0].ts + ONE_MINUTE_MS <= now + 1000 * secs)
  {
    hide After;
    var live := After(log, now - ONE_MINUTE_MS);
    KeptIsNewer(log, now - ONE_MINUTE_MS);
    KeptIsOlder(log, now - ONE_MINUTE_MS, Entry(now, 0));
    if live != [] {
      CeilSecondsCovers(live[0].ts + ONE_MINUTE_MS - now);
    }
  }

  /** The tokens a check at `now` finds taken, after a run. */
  function Taken(env: Env, tr: seq<Check>, now: int): nat {
    SeenSum(Played(env, tr), now)
  }

  /**
   * A 'tpm' rejection under fixed limits says 1 to 60 seconds. If the same request comes back that
   * much later, with nothing admitted meanwhile, at least one more admission has left the window,
   * and the request is allowed exactly if it fits beside the tokens still in the window and the
   * drift; otherwise it is again rejected for 'tpm'.
   */
  lemma {:induction false} RetryAfterTpmExactly(env: Env, tr: seq<Check>, c: Check, later: seq<Check>, c': Check)
    requires ValidEnv(env) && Ordered(tr) && Before(tr, c.now)
    requires ReasonFor(KeysAfter(env, tr), ArgsOf(env, c)) == Tpm
    requires c' == c.(now := c'.now)
    requires tr + [c] <= later && Ordered(later) && Before(later, c'.now) && Log(env, later) == Log(env, tr)
    requires c'.now >= c.now + 1000 * ReplyTo(env, KeysAfter(env, tr), c).retryAfterSec
    ensures 1 <= ReplyTo(env, KeysAfter(env, tr), c).retryAfterSec <= 60
    ensures var live, live' := After(Log(env, tr), c.now - ONE_MINUTE_MS), After(Log(env, tr), c'.now - ONE_MINUTE_MS);
      live != [] ==> |live'| < |live|
    ensures ReasonFor(KeysAfter(env, later), ArgsOf(env, c')) ==
      if Taken(env, later, c'.now) + c.tokens <= c.tpmLimit then NoReason else Tpm
  {
    hide After, Played, KeysAfter, ReplyTo, Refines, ReasonFor, Judged, RetryAfter, SeenSum, Newest;
    EveryRunRefines(env, tr);
    EveryRunRefines(env, later);
    SinceIsLast(env, tr, c.now);
    SinceIsLast(env, later, c'.now);
    WaitingForTokens(env, KeysAfter(env, tr), Played(env, tr), c, KeysAfter(env, later), Played(env, later), c');
  }

  lemma {:induction false} WaitingForTokens(
      env: Env, k: Keys, h: History, c: Check, k': Keys, h': History, c': Check)
    requires Refines(env, k, h) && h.since <= c.now && Refines(env, k', h') && h'.since <= c'.now && h'.log == h.log
    requires c' == c.(now := c'.now) && ReasonFor(k, ArgsOf(env, c)) == Tpm
    requires c'.now >= c.now + 1000 * ReplyTo(env, k, c).retryAfterSec
    ensures 1 <= ReplyTo(env, k, c).retryAfterSec <= 60
    ensures var live, live' := After(h.log, c.now - ONE_MINUTE_MS), After(h.log, c'.now - ONE_MINUTE_MS);
      live != [] ==> |live'| < |live|
    ensures ReasonFor(k', ArgsOf(env, c')) == if SeenSum(h', c'.now) + c.tokens <= c.tpmLimit then NoReason else Tpm
  {
    hide After, ReplyTo, ReasonFor, Judged, RetryAfter, SeenSum, Refines, Newest;
    VerdictRefines(env, k, h, c);
    RejectedTpm(env, k, h, c);
    LogIsPast(env, k, h, c.now);
    WaitCoversOldest(h.log, c.now);
    if After(h.log, c.now - ONE_MINUTE_MS) != [] {
      OldestGone(h.log, c.now, c'.now);
    }
    VerdictRefines(env, k', h', c');
    OnlyTokensDecide(env, h, c, h', c');
  }

  lemma LogIsPast(env: Env, k: Keys, h: History, now: int)
    requires Refines(env, k, h) && h.since <= now
    ensures Newest(h.log, now)
  {
  }

  /** Requests and bursts that did not stand in the way before do not do so later. */
  lemma OnlyTokensDecide(env: Env, h: History, c: Check, h': History, c': Check)
    requires Judged(env, h, c) == Tpm && h'.log == h.log && c' == c.(now := c'.now) && c.now <= c'.now
    ensures Judged(env, h', c') == if SeenSum(h', c'.now) + c.tokens <= c.tpmLimit then NoReason else Tpm
  {
    hide After, SeenSum;
    LaterCutKeepsLess(h.log, c.now - ONE_MINUTE_MS, c'.now - ONE_MINUTE_MS);
    LaterCutKeepsLess(h.log, c.now - env.burstWindowMs, c'.now - env.burstWindowMs);
  }

  // ----- a wait that is not enough -----

  lemma SixtyThenForty(e1: Entry, e2: Entry)
    requires e1 == Entry(0, 60) && e2 == Entry(50_000, 40)
    ensures forall cut :: cut < 0 ==> After([], cut) == [] && After([] + [e1], cut) == [] + [e1]
    ensures forall cut :: cut < 0 ==> After([] + [e1] + [e2], cut) == [] + [e1] + [e2]
    ensures forall cut :: 0 <= cut < 50_000 ==> After([] + [e1] + [e2], cut) == [] + [e2]
    ensures Tokens([]) == 0 && Tokens([] + [e1]) == 60 && Tokens([] + [e2]) == 40 && Tokens([] + [e1] + [e2]) == 100
  {
    hide After;
    forall cut: int | cut < 50_000
      ensures After([], cut) == [] && After([] + [e1], cut) == (if cut < 0 then [] + [e1] else [])
      ensures After([] + [e1] + [e2], cut) == (if cut < 0 then [] + [e1] + [e2] else [] + [e2])
    {
      AfterNothing([], cut);
      AfterAppend([], e1, cut);
      AfterAppend([] + [e1], e2, cut);
    }
    TokensAppend([], e1);
    TokensAppend([], e2);
    TokensAppend([] + [e1], e2);
  }

  /** The history of the run, and the verdicts on a request of 80 at two times after it. */
  lemma SixtyFortyHistory(env: Env, c1: Check, c2: Check, c: Check, c': Check)
    requires env == Env(false, 1)
    requires c1 == Check(0, 10, 100, 60, 10) && c2 == Check(50_000, 10, 100, 40, 10)
    requires c == Check(50_001, 10, 100, 80, 10) && c' == Check(60_001, 10, 100, 80, 10)
    ensures var tr, log := [c1] + [c2], [] + [Entry(0, 60)] + [Entry(50_000, 40)];
      && Played(env, tr) == History(log, 50_000, 0) && Judged(env, Played(env, tr), c) == Tpm
      && Played(env, tr + [c]).log == log && Judged(env, Played(env, tr + [c]), c') == Tpm
      && After(log, c.now - ONE_MINUTE_MS) == log
  {
    hide Played, Judged, LogWith, DriftWith, After, Tokens;
    var e1, e2 := Entry(0, 60), Entry(50_000, 40);
    var h1, h2 := History([] + [e1], 0, 0), History([] + [e1] + [e2], 50_000, 0);
    PlayedNothing(env);
    SixtyThenForty(e1, e2);
    JudgedInParts(env, History([], 0, 0), c1, [], []);
    JudgedInParts(env, h1, c2, [] + [e1], [] + [e1]);
    JudgedInParts(env, h2, c, [] + [e1] + [e2], [] + [e1] + [e2]);
    JudgedInParts(env, h2.(since := 50_001), c', [] + [e1] + [e2], [] + [e2]);
    assert [c1] == [] + [c1];
    PlayedStep(env, [], c1);
    PlayedStep(env, [c1], c2);
    PlayedStep(env, [c1] + [c2], c);
  }

  /**
   * 60 tokens at 0 and 40 at 50000 under a limit of 100: a request of 80 at 50001 is told to wait
   * ten seconds, until the 60 have left, and is then rejected again beside the 40.
   */
  lemma {:induction false} RetryAfterTpmMayFail()
      returns (env: Env, tr: seq<Check>, c: Check, later: seq<Check>, c': Check)
    ensures ValidEnv(env) && Ordered(tr) && Before(tr, c.now) && c' == c.(now := c'.now) && c.tokens <= c.tpmLimit
    ensures ReasonFor(KeysAfter(env, tr), ArgsOf(env, c)) == Tpm
    ensures later == tr + [c] && Ordered(later) && Before(later, c'.now) && Log(env, later) == Log(env, tr)
    ensures c'.now == c.now + 1000 * ReplyTo(env, KeysAfter(env, tr), c).retryAfterSec
    ensures ReasonFor(KeysAfter(env, later), ArgsOf(env, c')) == Tpm
  {
    hide Played, Judged, After, KeysAfter, ReasonFor, ReplyTo, Refines;
    env := Env(false, 1);
    var c1, c2 := Check(0, 10, 100, 60, 10), Check(50_000, 10, 100, 40, 10);
    tr, c := [c1] + [c2], Check(50_001, 10, 100, 80, 10);
    later, c' := tr + [c], Check(60_001, 10, 100, 80, 10);
    SixtyFortyHistory(env, c1, c2, c, c');
    EveryRunRefines(env, tr);
    VerdictRefinesHistory(env, tr, c);
    VerdictRefinesHistory(env, later, c');
    RejectedTpm(env, KeysAfter(env, tr), Played(env, tr), c);
  }
}
