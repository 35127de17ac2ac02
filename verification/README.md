# Gateway verification

A Dafny model of the parts of the LLM gateway where a wrong step is hardest to see: the scripts that
coordinate replicas through Redis, the failover loop above them, and the translations between
provider formats.

**Shared-state traffic control.** Each Redis Lua script is one indivisible step on a few keys with
expiry times; a key is present iff the time is before its expiry, and there is one clock that never
goes back. Each script is a method of a class whose fields are the keys, tied by its contract to a
function on values; whole runs are sequences of such steps by any number of replicas.

- `WeightedRoundRobin.dfy`: the smooth weighted round robin script, its bounds at every prefix of
  a run and its exactness over full cycles, for any argument orders, ties and pauses.
- `CircuitBreaker.dfy`, `CircuitBreakerRuns.dfy`, `ProbeSlots.dfy`, `Stragglers.dfy`: the five operations
  of the breaker, when over whole runs it opens, stays shut, closes and recovers, where its probe
  slots are, and what calls from before an outage do to it.
- `RateLimiter.dfy`, `RateLimiterRuns.dfy`, `LimiterReplies.dfy`, `TpmRetry.dfy`, `FixedBursts.dfy`: the
  limiter's script over its trimmed sets and running sum, refined against a limiter that keeps the whole
  admission history; what every reply must say, what its waiting times are worth, and when its burst
  limit can decide.
- `LeastConnections.dfy`, `Failover.dfy`, `ConcurrentSlots.dfy`: the in-flight counters, the failover
  loop of one request, and any interleaving of any number of those loops over the counters.
- `GatewayRuns.dfy`: those interleavings with every provider behind its breaker.

**Translation and text.**

- `SseStream.dfy`, `SseFrames.dfy`, `SseStandard.dfy`: the incremental event-stream parser against a
  one-pass parse, the round trip with the serialiser, and the parser against the standard.
- `AnthropicStream.dfy`, `AnthropicText.dfy`: the event-stream normaliser against the non-streaming translator.
- `TurnMerging.dfy`, `ChatRequests.dfy`: chat messages into strictly alternating turns, for the
  Anthropic and the Gemini adapter.
- `CanonicalJson.dfy`, `JsonPrinting.dfy`, `CacheKey.dfy`: the canonical serialisation behind the
  response cache's key.
- `Shared.dfy`: options, clamping, and a Redis counter with a time to live.

## Where the code and its comments part

The model follows the code. These are the places where that matters:

- The breaker's failure window (src/circuit-breaker/index.ts:152-153) is refreshed by every failure, so
  it limits the gap between successive failures, not the span of the whole row. `LongRowOpens` is
  a row longer than the window that opens the breaker; `WindowBoundsSpanExactly` says which
  configurations have none.
- "Max concurrent probe requests" (src/config/index.ts:127-128) is not a bound on the probes in flight: a
  call admitted while CLOSED that reports during HALF_OPEN frees a probe's slot
  (`StragglerOverAdmits` gives a run under every configuration), and so does an expired lease.
  `ExactUnlessDisturbed` says exactly which events part the counter from the probes in flight, and
  `OverAdmitsExactly` that new requests can pass the bound at a moment exactly if it is then parted.
- HALF_OPEN is said to close after successThreshold consecutive probe successes
  (src/circuit-breaker/index.ts:20). Any success counts: in `StragglersClose` the breaker closes, under every
  configuration, while no probe of the episode has reported.
- A 'tpm' rejection's Retry-After (src/rate-limiter/index.ts:136-152) waits for the oldest admission only, which
  may free too little: `RetryAfterTpmExactly` and, for a run where it does, `RetryAfterTpmMayFail`.
- The token sum is stored only by admitting checks (src/rate-limiter/index.ts:84-91, 113-118), so a
  rejecting check that evicts members leaves it too high. `StoredSumLaw` gives the exact excess,
  `WrongOnlyThroughDrift` says exactly when that changes a verdict, and `DriftRejectsWhatFits` is a run
  where it does.
- The burst limit is said to absorb spikes (src/rate-limiter/index.ts:10-13). It never decides unless
  its window is longer than a minute: `BurstBindsExactly`. Under a request limit that never changes it
  must also be below the limit times the minutes of that window: `FixedBurstBindsExactly`.
- The cache key is meant to hold every field that can change the output (src/cache/index.ts:61-63). It
  takes `max_tokens` before `max_completion_tokens` while the Anthropic adapter takes them the other
  way round, so two requests with one key can ask for different limits. `LimitCollision` gives such a
  partner for every request that sets a limit; `SameKeySameLimitExactly` says which pairs are safe. The
  limit is not the only such field: the request schema lets unknown parameters through
  (src/types/openai.ts:137) and the OpenAI adapter sends all of them (src/providers/openai.ts:104-118), while
  the key holds the eleven of `CacheKey.KEYS` and no other.
- The stream parser emits an event the stream ended without closing, and an event with a name but no
  data; section 9.2.6 of the WHATWG HTML Living Standard discards both (`AgreesWithStandardExactly`). It
  also does not end a line at a carriage return before another character than a newline, where the
  standard does: `LinesAgreeExactly`, and `LoneCarriageReturn` for a text that loses a message so.
- A tool called without arguments is streamed with arguments "" (src/providers/anthropic.ts:394-399), while
  the non-streaming response has "{}" (src/providers/anthropic.ts:306): `ArgumentsOfCall`.

## Model

| member | source | states |
|---|---|---|
| WeightedRoundRobin.WrrKey.RunScript | src/loadbalancer/strategies/weighted-round-robin.ts:41-64 | from the stored weights, or zeros once their five minutes are over, every listed weight is raised by its own, the first greatest wins and pays the total, nothing else moves and the lease is renewed |
| WeightedRoundRobin.WrrKey.Select | src/loadbalancer/strategies/weighted-round-robin.ts:74-82 | such a turn on clamped, truncated weights; always one of the candidates; an empty list is an error that changes nothing |
| WeightedRoundRobin.Serve | src/loadbalancer/strategies/weighted-round-robin.ts:41-82 | a key that serves a whole run goes through the states the fairness theorems speak of, and of its last choices each id was the one as often as they count |
| WeightedRoundRobin.LeadIsFirstMaximum | src/loadbalancer/strategies/weighted-round-robin.ts:52-57 | the winner is the first listed candidate whose raised weight is greatest |
| WeightedRoundRobin.TurnKeepsBalance | src/loadbalancer/strategies/weighted-round-robin.ts:45-62 | a selection keeps: weights sum to zero, each is what it is owed minus what it was paid, none has fallen to minus the total |
| WeightedRoundRobin.FairAtEveryPrefix | src/loadbalancer/strategies/weighted-round-robin.ts:45-62 | after k selections k*w - (n-1)*(T-1) <= T*picks < k*w + T for every candidate, in every run; a zero weight is never picked while T > 0 |
| WeightedRoundRobin.FullCycleIsExact | src/loadbalancer/strategies/weighted-round-robin.ts:4-18 | after m*T selections each provider has been picked exactly m*w times and every current weight is back to zero |
| WeightedRoundRobin.AllZeroPicksFirst | src/loadbalancer/strategies/weighted-round-robin.ts:54-57 | with only zero weights the first listed candidate is picked every time |
| CircuitBreaker.BreakerKeys.Acquire | src/circuit-breaker/index.ts:60-91 | admission: always when CLOSED, after the timeout when OPEN (entering HALF_OPEN with one leased slot), while slots are free when HALF_OPEN |
| CircuitBreaker.BreakerKeys.RecordSuccess | src/circuit-breaker/index.ts:96-116 | counts a HALF_OPEN success and closes or returns a slot; clears failures when CLOSED; nothing when OPEN |
| CircuitBreaker.BreakerKeys.Release | src/circuit-breaker/index.ts:122-131 | gives back a HALF_OPEN slot, never below zero; nothing in other states |
| CircuitBreaker.BreakerKeys.RecordFailure | src/circuit-breaker/index.ts:136-160 | reopens from HALF_OPEN, counts and perhaps opens from CLOSED, leaves an OPEN breaker and its timer alone |
| CircuitBreaker.BreakerKeys.Reset | src/circuit-breaker/index.ts:286-289 | deletes all five keys |
| CircuitBreakerRuns.EveryReachableStateIsSound | src/circuit-breaker/index.ts:17-22 | what holds of the keys in each state after every run: counters in range, timers not in the future, no leftovers |
| CircuitBreakerRuns.OpensExactlyAtThreshold | src/circuit-breaker/index.ts:152-159 | a CLOSED breaker opens on a step iff it is the failureThreshold-th failure in a row, each within the window of the one before, with no success or reset between; CLOSED implies fewer |
| CircuitBreakerRuns.LongRowOpens | src/circuit-breaker/index.ts:152-153 | for every threshold of at least 3 and window of at least 2 ms, a run whose opening row does not lie within one window |
| CircuitBreakerRuns.WindowBoundsSpanExactly | src/circuit-breaker/index.ts:152-159 | every opening row of every run lies within one window iff the threshold is at most 2 or the window is 1 ms |
| CircuitBreakerRuns.StaysOpen | src/circuit-breaker/index.ts:68-77 | from the opening step until the timeout, absent reset, the breaker stays OPEN and its timer does not move, whatever reports arrive |
| CircuitBreakerRuns.LockoutIsExact | src/circuit-breaker/index.ts:68-77 | such a breaker refuses every acquire before opening time plus timeout and admits the first one from then on, as the first probe of a fresh episode |
| CircuitBreakerRuns.OneOpeningPerOutage | src/circuit-breaker/index.ts:10-12 | two opening steps have a reset or an acquire after the timeout between them, so racing replicas open it once |
| CircuitBreakerRuns.OpeningStep | src/circuit-breaker/index.ts:146-158 | every OPEN state has an opening step after which the breaker was OPEN throughout |
| CircuitBreakerRuns.HalfOpenLeavesExactly | src/circuit-breaker/index.ts:99-105 | HALF_OPEN closes exactly at the successThreshold-th success of its episode (or a reset), leaving no counter, and opens exactly at a failure |
| CircuitBreakerRuns.EveryAcquire | src/circuit-breaker/index.ts:60-91 | in every run an acquire is told the state it leaves, is allowed and changes nothing when CLOSED, and otherwise is allowed iff the timeout has passed or a slot is free |
| CircuitBreakerRuns.HalfOpenAdmitsExactly | src/circuit-breaker/index.ts:78-89 | HALF_OPEN admits iff a slot is free or the timeout has passed since the episode's last admission |
| CircuitBreakerRuns.NeverWedges | src/circuit-breaker/index.ts:82-84 | in every reachable state an acquire made after timeoutMs of silence is allowed |
| CircuitBreakerRuns.RoundMakesProgress | src/circuit-breaker/index.ts:99-110 | an admitted request that succeeds lowers the rounds still needed by one and leaves a slot free at any later time |
| CircuitBreakerRuns.AlwaysCanRecover | src/circuit-breaker/index.ts:60-116 | after silence, rounds of acquire and success are all admitted and reach CLOSED after exactly the rounds still needed, at most successThreshold |
| ProbeSlots.SlotsAreConserved | src/circuit-breaker/index.ts:69-89 | in each HALF_OPEN episode admissions = counter + slots returned + slots forgiven by lease expiry, and 0 <= counter <= maxProbes |
| ProbeSlots.InFlightLaw | src/circuit-breaker/index.ts:99-110 | probes in flight + own reports that freed nothing = counter + slots forgiven + slots freed by strangers |
| ProbeSlots.InFlightMeaning | src/circuit-breaker/index.ts:69-89 | the ledger's probes in flight are the calls the episode admitted that have not reported since |
| ProbeSlots.CounterIsExact | src/circuit-breaker/index.ts:78-89 | if only the episode's own probes report and nothing comes after the lease, the counter is at every point the number of probes in flight, so at most maxProbes run at once |
| ProbeSlots.ExactUnlessDisturbed | src/circuit-breaker/index.ts:80-87 | the counter is exact throughout an episode iff, while it is positive, no call reports that is not an unreported probe of the episode and no event comes timeoutMs or more after the last admission (except the report of the only probe) |
| ProbeSlots.LedgerExactness | src/circuit-breaker/index.ts:106-109 | with nothing forgiven and nothing freed by strangers every own report frees its slot and the counter is exact; otherwise the probes in flight exceed maxProbes by no more than those totals |
| ProbeSlots.CounterNeverOver | src/circuit-breaker/index.ts:78-110 | in every half-open run the counter is at most the number of probes in flight |
| ProbeSlots.OverAdmitsExactly | src/circuit-breaker/index.ts:78-89 | new requests acquiring at a moment of an episode can bring more than maxProbes probes into flight iff the counter read then is not the number of probes in flight |
| Stragglers.StragglerOverAdmits | src/circuit-breaker/index.ts:122-131 | under every configuration a run, with each request acquiring and reporting at most once, in which a released straggler lets more than maxProbes probes run at once |
| Stragglers.StragglersClose | src/circuit-breaker/index.ts:99-105 | under every configuration such a run that closes HALF_OPEN by successes of stragglers while every probe of the episode is still in flight |
| RateLimiter.LimiterKeys.TakeSum | src/rate-limiter/index.ts:83-93 | the running sum after taking off expired members one by one, never negative, zero for an empty window |
| RateLimiter.LimiterKeys.RunScript | src/rate-limiter/index.ts:60-155 | evict, measure, decide and record as one step; only an admitting check adds members and stores the sum |
| RateLimiter.LimiterKeys.Check | src/rate-limiter/index.ts:184-224 | the script's arguments from settings and limits; with limiting disabled every request is allowed and no key is touched |
| LimiterReplies.Serve | src/rate-limiter/index.ts:60-223 | for any calls in time order on one key: each is allowed iff it is below the request limit over the requests allowed in the last minute, below the burst limit over those of the burst window, and its tokens fit; the reason is the first that fails; remaining, reset and the least sufficient wait follow from the same windows |
| LimiterReplies.ReplyIsRight | src/rate-limiter/index.ts:95-154 | the same for one check that finds keys in step with a history, and the request enters the history iff it is allowed |
| RateLimiterRuns.CutDivides | src/rate-limiter/index.ts:72-91 | eviction keeps exactly the members with a score above the cut |
| RateLimiterRuns.CallsAreChecks | src/rate-limiter/index.ts:200-223 | a call of `check` is a check of the run model with minute windows and the settings' burst limit |
| RateLimiterRuns.StepRefines | src/rate-limiter/index.ts:72-124 | a check on the four keys is a check of the limiter that keeps the whole history: same verdict, sets equal to its windows, sum equal to its window's tokens plus drift |
| RateLimiterRuns.VerdictRefinesHistory | src/rate-limiter/index.ts:72-111 | in every run the verdict is the one counted from the complete admission history, across key expiry and changing limits |
| RateLimiterRuns.AdmissionsAreTheLog | src/rate-limiter/index.ts:113-124 | what the keys admit in a run is exactly that history |
| RateLimiterRuns.StoredSumLaw | src/rate-limiter/index.ts:83-93 | stored sum = sum of live members + tokens evicted by rejecting checks since the window was last seen empty |
| RateLimiterRuns.NoDriftWithoutRejectingEviction | src/rate-limiter/index.ts:84-91 | in runs where no rejecting check evicts, the stored sum is exact |
| RateLimiterRuns.WrongOnlyThroughDrift | src/rate-limiter/index.ts:100-111 | the limiter never admits what the true sums reject, and rejects more exactly when the drift tips a non-empty window over |
| RateLimiterRuns.DriftRejectsWhatFits | src/rate-limiter/index.ts:108-118 | a run in which the drift refuses a request that fits |
| RateLimiterRuns.SlidingWindowIsSafe | src/rate-limiter/index.ts:5-13 | over any run and for every instant t, admissions in (t - 60000, t] number at most the request limit and their tokens sum to at most the token limit |
| RateLimiterRuns.BurstCannotBind | src/rate-limiter/index.ts:95-107 | with a multiplier of at least 1 and a burst window of at most a minute no check is rejected for 'burst', even if limits change mid-run |
| RateLimiterRuns.BurstLimitAtLeast | src/rate-limiter/index.ts:201 | the burst limit is no smaller than the request limit |
| RateLimiterRuns.BurstBindsExactly | src/rate-limiter/index.ts:95-107 | a 'burst' rejection is reachable iff bursts are enabled with a window longer than a minute |
| FixedBursts.FixedBurstBindsExactly | src/rate-limiter/index.ts:95-107 | under a request limit that never changes a 'burst' rejection is reachable iff bursts are enabled, the limit is at least 1 and the burst limit is below the limit times the burst window in minutes, rounded up |
| RateLimiterRuns.HeadersFromHistory | src/rate-limiter/index.ts:126-154 | remaining, reset and the 'tpm' waiting time from the history's last minute |
| RateLimiterRuns.RetryAfterIsSound | src/rate-limiter/index.ts:136-152 | an 'rpm' rejection under a fixed limit says 1 to 60 seconds, and a check that much later with no admissions between is not rejected for 'rpm' |
| TpmRetry.RetryAfterTpmExactly | src/rate-limiter/index.ts:136-152 | a 'tpm' rejection says 1 to 60 seconds; the same request that much later, with no admissions between, finds at least one admission gone and is allowed iff it fits beside the tokens still live and the drift |
| TpmRetry.RetryAfterTpmMayFail | src/rate-limiter/index.ts:136-152 | a run in which a request that fits the limit waits as told and is rejected again |
| RateLimiterRuns.LockoutIsBounded | src/rate-limiter/index.ts:92-93 | after a minute without admissions every request within the token limit is allowed, whatever the drift |
| LeastConnections.ConnectionCounters.Select | src/loadbalancer/strategies/least-connections.ts:36-51 | scan for the least gauge and count one request on it in one step, renewing its lease |
| LeastConnections.ConnectionCounters.Release | src/loadbalancer/strategies/least-connections.ts:53-59 | one request less, never below zero |
| LeastConnections.ChosenIsFirstLeast | src/loadbalancer/strategies/least-connections.ts:41-47 | the choice is the first candidate whose gauge is least |
| Failover.RunFailover | src/services/router.ts:448-505 | the loop ends, what it does is an execution of its step relation, and each selection, admission and call result in it is what balancer, breaker and provider answer at that point |
| Failover.TraceTellsOutcome | src/services/router.ts:462-504 | in every run an admission leads to one call and a refusal to none, a value is recorded as success, a retryable failure as failure, a client error hands the probe back, and each turn ends by returning its slot; the outcome is read off the last turn and the number of retryable failures |
| Failover.RunsAreVisits | src/services/router.ts:457-504 | the loop's runs are exactly the series of whole visits: select, acquire, then skip or call, one report, one release |
| Failover.FailoverContract | src/services/router.ts:457-504 | each candidate selected at most once and released as often; each allowed acquire reported exactly once; failoverCount = retryable failures before the success; AllProvidersFailed only if every candidate was skipped or failed retryably |
| ConcurrentSlots.StepChange | src/services/router.ts:457-503 | how one step of one loop, or the passing of time, moves one provider's gauge and the requests holding it |
| ConcurrentSlots.GaugeNeverOverCounts | src/loadbalancer/strategies/least-connections.ts:10-14 | in every interleaving, lapsed counters included, a gauge is between zero and the number of requests holding the provider |
| ConcurrentSlots.SlotsAreConserved | src/services/router.ts:469-502 | in every interleaving without lapse each counter is exactly the number of requests holding that provider |
| ConcurrentSlots.ConservedExactlyWithoutLapse | src/loadbalancer/strategies/least-connections.ts:48-49 | that equality holds at every point of a run iff no positive counter lapses in it |
| ConcurrentSlots.ConservedExactlyInTime | src/loadbalancer/strategies/least-connections.ts:48-49 | the same condition in times: no clock tick reaches the last selection of a provider plus the lease while the provider is held |
| ConcurrentSlots.FloorNeverFires | src/loadbalancer/strategies/least-connections.ts:53-59 | a release never meets a counter at zero |
| ConcurrentSlots.NothingLeaks | src/services/router.ts:499-502 | when no request holds a slot every counter is zero |
| ConcurrentSlots.SelectsLeastLoaded | src/loadbalancer/strategies/least-connections.ts:4-8 | a selection gives a provider that the fewest requests hold at that moment |
| ConcurrentSlots.ContractHoldsConcurrently | src/services/router.ts:448-505 | each finished request of any interleaving kept the failover contract: slots and reports paired, failoverCount and AllProvidersFailed as promised, and every action leading to the right next one |
| GatewayRuns.LoopsAreAccountable | src/services/router.ts:462-496 | in every interleaving a provider's breaker sees a run in time order in which each request acquires at most once and only an admitted request reports, once; the calls still to report are those now in progress |
| GatewayRuns.EveryAdmissionReported | src/services/router.ts:478-497 | when every request is done, every admission at every breaker has been reported |
| GatewayRuns.ProbesOfTheGateway | src/services/router.ts:462-496 | in the running system the probes in flight are requests now calling the provider and satisfy the law of the probe slots and its exactness condition |
| GatewayRuns.BreakersMoveExactly | src/services/router.ts:462-496 | in the running system a closed breaker opens iff a loop records the failure that completes the row, a half-open one opens iff a loop records a failure and closes iff a loop records the last success needed or an operator clears it, and an open one moves only for an admitted acquire or an operator |
| GatewayRuns.CallsAreCounted | src/services/router.ts:459-503 | every call whose report is due holds its provider's slot, so without lapse the gauge is at least their number |
| SseStream.ParseStream | src/utils/stream.ts:39-109 | the events of the reads are those of a one-pass, line-by-line parse of the whole text, however it is cut; after each read those of the complete lines so far have been emitted |
| SseStream.CompleteConcat | src/utils/stream.ts:80-91 | processing one text and then the rest of it with more is processing both at once |
| SseStream.EmittedEarly | src/utils/stream.ts:5-8 | the events of the complete lines read so far open the events of every continuation |
| SseStream.FrameWeighs | src/utils/stream.ts:57-72 | a frame never yields more data than its payload, and less if the payload has a newline or a final carriage return |
| SseStream.FramesRoundTrip | src/utils/stream.ts:220-222 | parsing concatenated frames gives back the payloads, in order, iff no payload has a newline or a final carriage return |
| SseFrames.StreamRoundTrip | src/utils/stream.ts:220-225 | any serialised values and the [DONE] frame, cut anywhere, are parsed back as their JSON texts, which read as the values, and [DONE] |
| SseStandard.AgreesWithStandardExactly | src/utils/stream.ts:46-105 | where no carriage return stands before another character than a newline, the events are the messages of section 9.2.6 of the WHATWG HTML Living Standard iff no event is closed with a name but no data and none is left open; otherwise there are more |
| SseStandard.TwoLibertiesExactly | src/utils/stream.ts:46-105 | on the same texts, all events are the standard's messages if a named event without data were dispatched and the end of the text were a blank line |
| SseStandard.SameField | src/utils/stream.ts:122-134 | a line's field and value are what the standard says: up to and after the first colon, less one leading space |
| SseStandard.LinesAgreeExactly | src/utils/stream.ts:57-84 | for every text the code's lines are the standard's iff no carriage return stands before another character than a newline; each one that does adds a line to the standard's |
| SseStandard.LoneCarriageReturn | src/utils/stream.ts:118-120 | a text with lone carriage returns that the standard parses to a message and the code to none |
| AnthropicStream.NormaliseStream | src/providers/anthropic.ts:340-456 | the chunks are those of the events before the first terminal one, plus finish and usage at message_stop; an error event fails the stream |
| AnthropicStream.FragmentsGoToTheirCall | src/providers/anthropic.ts:384-418 | in any stream a fragment goes to the call last opened under its block index, else to the first; calls are numbered as they open |
| AnthropicStream.RoleComesOnce | src/providers/anthropic.ts:369-383 | the role is announced exactly once if a message_start comes, and not otherwise |
| AnthropicStream.FinishReasonMeans | src/providers/anthropic.ts:463-477 | which stop reasons, and tool use, give which finish reason |
| AnthropicStream.ContentMeans | src/providers/anthropic.ts:297-309 | the response's content is null iff no block has a text, else all texts in a row |
| AnthropicStream.CallsMean | src/providers/anthropic.ts:302-308 | the response's calls are the tool uses with id and name, in order, with their input or the empty object |
| AnthropicStream.TranslateResponse | src/providers/anthropic.ts:293-336 | text joined or null, tool calls with id and name in order, finish reason and usage |
| AnthropicStream.EventKeepsStep | src/providers/anthropic.ts:369-454 | one event keeps a client in step with the tools, usage and stop reason of the message spelled out so far, and with its text if the text is not interleaved |
| AnthropicStream.StreamAgreesWithResponse | src/providers/anthropic.ts:293-456 | for every well-formed stream the accumulated chunks hold the translator's text, tool ids, names and order, the same argument values, finish reason and usage |
| AnthropicStream.AgreementExactly | src/providers/anthropic.ts:293-456 | for every stream that opens blocks in order: usage always agrees; calls agree iff every tool block opens with id and name; the finish reason agrees iff some call has both, or there is none, or the stop reason decides alone |
| AnthropicText.TextAgreesExactly | src/providers/anthropic.ts:299-309 | the text agrees, whatever texts the stream carries, iff text blocks start empty and their deltas come in block order |
| AnthropicText.InterleavedTextDiffers | src/providers/anthropic.ts:403-408 | any stream with a text delta for an earlier block after one for a later block, given two texts on which the paths differ |
| AnthropicText.NonEmptyHeadDiffers | src/providers/anthropic.ts:384-401 | a stream with a text block that does not start empty never gives the response's text |
| AnthropicStream.ArgumentsOfCall | src/providers/anthropic.ts:300-309 | a call's streamed arguments are its fragments and the response's their value printed, so a call without fragments has "" against the printed empty object |
| AnthropicStream.EachCallGetsItsFragments | src/providers/anthropic.ts:384-418 | each tool index collects exactly its own block's JSON fragments, even when tool blocks interleave |
| TurnMerging.PushKeepsNormal | src/providers/anthropic.ts:196-206 | a push keeps turns alternating and non-empty and adds exactly its pairs at the end |
| TurnMerging.NormalFormIsUnique | src/providers/anthropic.ts:9-11 | no two different lists of alternating, non-empty turns hold the same (role, block) pairs |
| ChatRequests.ToAnthropic | src/providers/anthropic.ts:192-245 | the messages alternate and none is empty; user turns hold the user messages' text and images and the tool messages' ids and texts, assistant turns the assistant messages' text and calls, all in the request's order; the system parts are the system messages' whole texts |
| ChatRequests.OnlyGrouping | src/providers/anthropic.ts:196-206 | no other grouping of the request's pairs alternates without empty turns |
| ChatRequests.ToolNames | src/providers/gemini.ts:163-170 | the id-to-name map holds, for each id, the name of the last assistant call with it |
| ChatRequests.LastNameMeaning | src/providers/gemini.ts:160-170 | that name belongs to a call after which no call has the same id; no name iff no call has the id |
| ChatRequests.ToGemini | src/providers/gemini.ts:157-223 | the same laws for the Gemini contents, every function response under the name of the last call with its id, else the id |
| CanonicalJson.SortKeepsMeaning | src/cache/index.ts:203-216 | sorting sorts every object and changes nothing but key order |
| CanonicalJson.SortedIsUnique | src/cache/index.ts:195-198 | a value sorted at every depth is determined by its meaning |
| JsonPrinting.ReadsBack | src/cache/index.ts:199-201 | a reader of the JSON grammar (RFC 8259 sections 3 to 7) reads every printed value back, whatever may follow it |
| JsonPrinting.PrintIsUnambiguous | src/cache/index.ts:199-201 | no value's JSON text, up to what may follow a value, is also another's: printing is injective (RFC 8259 section 2) |
| JsonPrinting.PrintIsPlain | src/utils/stream.ts:220-222 | JSON text has no control character |
| CacheKey.CanonicalIsExact | src/cache/index.ts:199-216 | two values serialise the same iff they are equal up to object key order at every depth, array order kept |
| CacheKey.SameKeyExactly | src/cache/index.ts:60-78 | two requests share a key iff model, messages, top_p, the limit, seed, stop, n, both penalties, logit_bias and response_format agree, up to object key order and with absent as null |
| CacheKey.KeyFixesLimitExactly | src/cache/index.ts:61-68 | the key fixes a request's Anthropic output limit, against all requests sharing the key, iff the request gives no limit at all |
| CacheKey.SameKeySameLimitExactly | src/cache/index.ts:68 | two requests with one key ask Anthropic for the same limit iff neither gives the two fields different values, or both do and give the same `max_completion_tokens` |
| CacheKey.DefaultDecidesLast | src/providers/anthropic.ts:247-251 | the Anthropic limit is `max_completion_tokens`, else `max_tokens`, else the model's default |
| CacheKey.LimitCollision | src/providers/anthropic.ts:247-251 | every request that gives a limit shares its key with one that asks for another |

## Left out

- Redis outages, NOSCRIPT reloads, eviction under memory pressure and the random picks used then: every script is taken to run and answer.
- Clock skew between replicas and Redis: one clock that never goes back.
- HTTP calls, timeouts and abort signals: a call is an arbitrary result.
- The streaming generator above the failover loop and its token estimates: they add no shared state.
- The latency strategy's penalty on failure: a no-op for least connections, the strategy whose slots are modelled.
- Random, round-robin and latency-based strategies, the cost tracker, the Cohere and Mistral adapters, PostgreSQL and the admin routes: they would add only easier members.
- The cache's get, set, flush and statistics: thin calls on a key-value store; only the key is modelled.
- UTF-8 decoding: the stream parser works on characters after decoding.
- JSON parsing of stream events: the normaliser starts from decoded events; one that is empty, not an object or of no known kind is `Ignored`.
- Data-URL matching of images: an image block keeps its URL.
- Tool arguments in requests stay the text they arrive as; the adapters parse it into an object.
- SHA-256, random ids and set fingerprints: taken as injective and fresh.
- JavaScript number printing and locale comparison: a number is its printed token, and key comparison is any total order (which also covers integer-like keys printing first).
- StreamAgreesWithResponse: covers streams whose text blocks are not interleaved and start empty and whose tool blocks carry id and name, because outside these the two paths can give different results (`AgreementExactly` and `TextAgreesExactly` say when).
- AgreesWithStandardExactly: asks that no carriage return stands before another character than a newline; with one that does the two cut different lines (`LinesAgreeExactly`), and whether their messages still agree is not stated.
- ReadsBack: the reader takes no white space between tokens, which printing never adds, and no surrogate escapes.
