# OpenWorld kernel: a verified model

A Dafny model of the parts of the OpenWorld proxy kernel whose guarantees are about whole runs
or whole inputs: traffic accounting, the circuit breaker with its retry loop, the token bucket,
connection admission, the wire and text codecs, and calendar arithmetic.
`dafny verify dfyconfig.toml` checks everything.

## How the model is built

Objects that the source updates in place are classes. Each method is proved to perform one step
of a pure state machine (`Step` in each module), and the laws are proved about every run of that
machine, or about every interleaving of its small steps where the source gives up its lock
between writes. Parsers and printers are functions; loops of the source are methods proved equal
to them.

| part | files |
|---|---|
| connection tracker | `Tracker`, `TrackerLaws`, `TrackerIdle`, `TrackerReset`, `TrackerWrites`, `ConnectionTracker`, `LatencyRing`, `MapSum` |
| circuit breaker, retry, dispatch | `Breaker`, `BreakerLaws`, `BreakerReset`, `BreakerRegistry`, `Retry`, `Dispatch` |
| rate and connection limits | `TokenBucket`, `TokenRaces`, `Admission` |
| share links | `Utf8`, `Text`, `UrlCoding`, `Vless`, `VlessLaws`, `VlessExact`, `VlessLinks` |
| certificates and dates | `Der`, `X509`, `CertTime`, `Calendar` |
| relay frames, addresses, replayed streams | `Derp`, `Socks5`, `PrefixedStream` |

Time, the outcome of connection attempts, the network and the order in which a hash table is
visited are parameters, so the laws hold for all of them. Clocks are monotone and count whole
milliseconds.

## Where the code falls short of the obvious property

Each of these is proved with its exact condition, the races and overflows also with an input that
shows them.

- `CircuitBreaker::reset` holds the state lock for the first of its four writes only. A failure
  streak completed by what runs in the gaps leaves the breaker open without an opening time. It
  then refuses every request until the next reset (`BreakerReset`).
- `reset_traffic` clears in three writes, and archiving an entry adds in three writes. An archive
  with its total on one side of a reset's clear and its record on the other leaves them apart
  until the next reset (`TrackerWrites`). Connections tracked between the writes of a reset lose
  their count (`TrackerReset`).
- A token-bucket refill loads and stores the tokens under a lock that consumers do not take. A
  subtraction between load and store is lost and its tokens are granted again. Consumers that
  read the same bucket can also overspend it (`TokenRaces`).
- The token bucket overflows 64 signed bits for rates close to 2^63 and then grants nothing. A
  rate of 2^63 or more blocks all traffic.
- The expired flag of a certificate is raised one full day after the expiry, because the
  difference is divided by 86400 with rounding towards zero.
- A VLESS link gives back a configuration only if it is canonical: ASCII tag, identifier and
  address clear of the separators, values without `&` that percent decoding leaves alone
  (`VlessExact`).
- A relay frame comes back only if its payload has at most 2^20 bytes; a SOCKS5 domain only if it
  has at most 255 bytes.
- With jitter, delays shrink past the maximum delay: 11475 ms, then 11040 ms with the shipped
  delays. The shipped limit of three retries stays below that range, where delays grow.

## Model

| member | source | states |
|---|---|---|
| `ConnectionTracker.ConnectionTracker.Track` | src/app/tracker.rs:87-146 | tracking gives the connection a fresh guard and fresh counters shared with its entry, counts it for its outbound, and leaves all other guards' counters in place |
| `ConnectionTracker.ConnectionTracker.Close` | src/app/tracker.rs:187-189 | close removes the entry, archives nothing, and says whether there was one |
| `ConnectionTracker.ConnectionTracker.CloseAll` | src/app/tracker.rs:301-306 | close-all empties the table and returns how many entries it had |
| `ConnectionTracker.ConnectionTracker.ResetTraffic` | src/app/tracker.rs:215-221 | reset clears totals and per-outbound records and leaves connections alone |
| `ConnectionTracker.ConnectionTracker.ArchiveEntry` | src/app/tracker.rs:232-238 | one entry's bytes move to the totals and to its own outbound, and the entry goes |
| `ConnectionTracker.ConnectionTracker.SweepIdle` | src/app/tracker.rs:195-210 | the in-place retain loop archives exactly the idle entries, whatever the visiting order; `TrackerIdle.SweepKeepsExactly` says which those are |
| `ConnectionTracker.ConnectionTracker.CloseIdle` | src/app/tracker.rs:192-212 | the sweep returns the number of idle entries and leaves the machine's swept state, of which `TrackerIdle` and `TrackerLaws` speak |
| `ConnectionTracker.ConnectionTracker.Snapshot` | src/app/tracker.rs:172-179 | a snapshot shows the archived totals and the number of live entries |
| `ConnectionTracker.ConnectionGuard.AddUpload` | src/app/tracker.rs:324-340 | a guard's upload reaches the shared counter even after the entry is gone, and refreshes the activity time |
| `ConnectionTracker.ConnectionGuard.AddDownload` | src/app/tracker.rs:324-340 | the same for downloads |
| `ConnectionTracker.ConnectionGuard.Drop` | src/app/tracker.rs:343-358 | dropping a guard archives its entry only if the table lock was free and the entry is still there |
| `ConnectionTracker.TwoConnections` | src/app/tracker.rs:87-146 | with two connections side by side, the first guard survives the tracking of the second, and only the dropped connection shows in the totals |
| `TrackerLaws.StepConserves` | src/app/tracker.rs:187-221 | one operation: gain of an account = bytes reported - bytes forfeited |
| `TrackerLaws.Conservation` | src/app/tracker.rs:87-358 | in every run, for the tracker and for each outbound, reported = archived + live + forfeited, in both directions |
| `TrackerLaws.NothingForfeited` | src/app/tracker.rs:187-221 | only close, close-all, reset and a report on a removed entry lose bytes |
| `TrackerLaws.ArchivedOnce` | src/app/tracker.rs:192-212 | no connection is archived twice in any run, by whichever of the racing paths |
| `TrackerLaws.GoneStaysGone` | src/app/tracker.rs:343-358 | a removed connection never comes back into the table |
| `TrackerLaws.CounterIsReports` | src/app/tracker.rs:324-340 | a connection's counter is the sum of what its guard reported |
| `TrackerLaws.OutboundsAddUp` | src/app/tracker.rs:116-119 | in every run the totals are the sums of the per-outbound records, and the connection counts add up to the tracks since the last reset |
| `TrackerWrites.BooksHold` | src/app/tracker.rs:200-238 | at every write of every interleaving of archives, tracks and any number of resets, a total holds what was added since its last clear, and the records what was added since theirs |
| `TrackerWrites.TornExactly` | src/app/tracker.rs:200-238 | with all archives and resets finished, a total and its records agree exactly if no archive with bytes has its two writes on different sides of the last clears of their places |
| `TrackerWrites.ResetInsideArchive` | src/app/tracker.rs:350-356 | a reset that runs between an archive's writes leaves the upload on the outbound and in no total |
| `TrackerWrites.BetweenClearsExactly` | src/app/tracker.rs:215-221 | if no clear interrupts an archive, they agree exactly if no archive with bytes falls between the two last clears |
| `TrackerWrites.ArchiveIsThreeWrites` | src/app/tracker.rs:350-356 | the atomic archive is these three writes |
| `TrackerWrites.CountsHold` | src/app/tracker.rs:116-119 | at every write the connection counts add up to the connections counted since the last clear of the records |
| `TrackerReset.RacingReset` | src/app/tracker.rs:215-221 | with whole operations of any kind in the two gaps of a reset, totals and outbounds agree afterwards exactly when nothing was archived upwards in either gap or downwards in the second |
| `TrackerReset.CountsStayBehind` | src/app/tracker.rs:215-221 | throughout the reset-free run after it the connection counts stay behind by exactly the connections tracked in the gaps |
| `TrackerReset.DropTearsReset` | src/app/tracker.rs:343-358 | a connection with uploaded bytes that ends in the first gap leaves them in the total and in no outbound record |
| `TrackerReset.GapStays` | src/app/tracker.rs:215-221 | what a disturbed reset leaves apart stays exactly that far apart until the next reset |
| `TrackerLaws.CountersStayBelow` | src/app/tracker.rs:324-340 | no counter, total or outbound record reaches 2^64 before 2^64 bytes were reported, so 64-bit counters are exact |
| `TrackerLaws.SweepArchivesIdle` | src/app/tracker.rs:192-212 | a sweep takes exactly the idle entries out of the table, and every account gains exactly the bytes on its idle entries |
| `TrackerLaws.SweepArchivesAll` | src/app/tracker.rs:192-212 | once every entry is idle a sweep archives all that is left, entries orphaned by a lost lock race included |
| `TrackerLaws.SweepOrderIrrelevant` | src/app/tracker.rs:195-210 | any two visiting orders of a sweep give the same state |
| `TrackerIdle.ActivityIsLastTouch` | src/app/tracker.rs:324-340 | in every run the activity time of a connection is the time at which it was tracked or last reported bytes |
| `TrackerIdle.SweepKeepsExactly` | src/app/tracker.rs:192-212 | in every run an entry survives a sweep iff the time since its connection was tracked or last reported is within the limit |
| `LatencyRing.LatencyRing.RecordLatency` | src/app/tracker.rs:255-262 | the ring always is the last 2048 latencies of the history |
| `LatencyRing.LatencyRing.Percentiles` | src/app/tracker.rs:281-298 | each percentile is a recorded latency of the right rank, and p50 <= p95 <= p99 |
| `LatencyRing.RankOf` | src/app/tracker.rs:291-294 | the index is the integer nearest to (n - 1) * p |
| `LatencyRing.RankInRange` | src/app/tracker.rs:291-297 | indices grow with the percentile and stay inside the ring |
| `LatencyRing.RankIsUnique` | src/app/tracker.rs:281-298 | a rank determines the value, so the percentiles are fixed by the history alone |
| `LatencyRing.RankInSorted` | src/app/tracker.rs:290-297 | in any sorted permutation the value at index k has rank k in the original |
| `Breaker.CircuitBreaker.constructor` | src/app/resilience.rs:123-132 | a new breaker is closed with zero counts and no opening time |
| `Breaker.CircuitBreaker.Allow` | src/app/resilience.rs:143-167 | admission, and the change to half-open once the open duration has passed; `BreakerLaws.AdmittedExactly` gives the moment from the history |
| `Breaker.CircuitBreaker.Success` | src/app/resilience.rs:170-188 | a success clears the streak, or counts towards closing while half-open |
| `Breaker.CircuitBreaker.Failure` | src/app/resilience.rs:191-218 | a failure counts, and opens at the threshold or while half-open |
| `Breaker.CircuitBreaker.Reset` | src/app/resilience.rs:229-234 | an undisturbed reset gives the initial state |
| `BreakerLaws.FieldsAreHistory` | src/app/resilience.rs:143-218 | at every point of every run each field is a function of the events so far: the failure streak, the successes since opening, the last opening |
| `BreakerLaws.OpensExactly` | src/app/resilience.rs:191-218 | the breaker opens exactly at a failure that completes the streak or answers a probe |
| `BreakerLaws.StaysOpen` | src/app/resilience.rs:143-167 | after an opening it stays open until the open duration has passed |
| `BreakerLaws.NoEarlyProbe` | src/app/resilience.rs:143-167 | no request is admitted within the open duration of an opening |
| `BreakerLaws.AdmittedExactly` | src/app/resilience.rs:143-167 | in every run a request is refused iff the breaker is open and the open duration since the last opening has not passed; an admitted one turns an open breaker half-open and changes no other |
| `BreakerLaws.OpeningsAreSpaced` | src/app/resilience.rs:143-218 | k further openings take at least k open durations |
| `BreakerLaws.RecoveryNeedsSuccesses` | src/app/resilience.rs:170-188 | from open to closed there is a half-open phase without failure with exactly the required successes |
| `BreakerReset.StuckForever` | src/app/resilience.rs:143-167 | an open breaker without opening time refuses every request in every reset-free continuation |
| `BreakerReset.ResetWithoutFailures` | src/app/resilience.rs:229-234 | a reset interleaved with any admissions and successes still gives the initial state |
| `BreakerReset.ResetSticksExactly` | src/app/resilience.rs:229-234 | with any events in the three gaps a reset leaves the breaker stuck only if a failure in a gap completes a streak, and exactly then if no probe can follow within the reset |
| `BreakerReset.DefaultBreakerSticks` | src/app/resilience.rs:229-234 | with the default thresholds a concrete interleaving refuses all later requests |
| `Retry.DelayBounds` | src/app/resilience.rs:29-42 | every delay is between the capped exponential and a quarter above it |
| `Retry.CappedExactly` | src/app/resilience.rs:29-42 | before jitter the first delay is the base delay, each next one doubles up to the maximum, and after sixteen doublings it stays |
| `Retry.DelaysGrow` | src/app/resilience.rs:29-42 | without jitter the delays never shrink |
| `Retry.JitteredDelaysGrow` | src/app/resilience.rs:29-42 | with jitter they grow until the maximum is reached |
| `Retry.ShippedDelaysGrow` | src/app/resilience.rs:17-26 | the delays of the shipped policy grow through all its retries |
| `Retry.JitterOrderExactly` | src/app/resilience.rs:29-42 | two jittered delays are in order for every hash exactly when the most jitter on the first does not pass the second |
| `Retry.DelaysShrink` | src/app/resilience.rs:44-48 | with the source's hash and the shipped delays attempt 9 waits 11475 ms and attempt 10 waits 11040 ms |
| `Retry.RetryWithBackoff` | src/app/resilience.rs:51-84 | the loop returns the first success or the last error, makes no further call, always has an error to return, and sleeps between attempts only |
| `Retry.RetrySleepBounded` | src/app/resilience.rs:51-84 | a whole loop sleeps at most max_retries * 5/4 of the maximum delay |
| `Retry.SleepIsGeometric` | src/app/resilience.rs:51-84 | below the maximum delay n failed attempts sleep base * (2^n - 1) without jitter, and at most a quarter more with it |
| `Dispatch.Dispatch` | src/app/dispatcher.rs:328-361 | a dispatch makes no attempt iff the breaker refuses, else retries, and records the outcome once: a success if it connected, a failure if not |
| `Dispatch.DispatchesAreRuns` | src/app/dispatcher.rs:328-361 | every run of dispatches is a reset-free run of the breaker on their requests and outcomes, so all breaker laws hold of dispatches |
| `Dispatch.AlwaysConnected` | src/app/dispatcher.rs:328-361 | an outbound that always connects keeps its breaker as new and is never refused |
| `Dispatch.AdmissionsBounded` | src/app/dispatcher.rs:328-361 | for an outbound that never connects, every admission beyond the threshold waited out one open duration |
| `Dispatch.AttemptsBounded` | src/app/dispatcher.rs:328-361 | attempts up to time T after the first opening <= (max_retries + 1) * (threshold + T / open duration) |
| `BreakerRegistry.Registry.BreakerFor` | src/app/dispatcher.rs:62-76 | a known tag's breaker is returned untouched, an unknown tag gets a new default one |
| `BreakerRegistry.NeverReplaced` | src/app/dispatcher.rs:62-76 | over every interleaving of callers a stored breaker is never replaced |
| `BreakerRegistry.SameTagSameBreaker` | src/app/dispatcher.rs:62-76 | two callers hold the same breaker iff they asked for the same tag |
| `BreakerRegistry.LateCallersNeverMiss` | src/app/dispatcher.rs:62-76 | a caller that arrives once its tag is stored is served by the read lock alone, in every interleaving |
| `BreakerRegistry.OneBreakerPerTag` | src/app/dispatcher.rs:62-76 | exactly one breaker is created per tag |
| `TokenBucket.RateLimiter.constructor` | src/common/traffic.rs:17-25 | the bucket starts full, with the rate converted to 64 signed bits |
| `TokenBucket.RateLimiter.RefillBucket` | src/common/traffic.rs:45-60 | a refill adds whole tokens up to the maximum and moves the clock only if it added some |
| `TokenBucket.RateLimiter.Consume` | src/common/traffic.rs:28-37 | a call grants what is asked and available after the refill, and takes it off |
| `TokenBucket.RateLimiter.Available` | src/common/traffic.rs:40-43 | a query refills and shows the tokens, never below zero |
| `TokenBucket.SpendingIsCovered` | src/common/traffic.rs:28-60 | over any stretch of any run, tokens granted are covered by the credit before it and what accrued, wrap-around included |
| `TokenBucket.WindowBound` | src/common/traffic.rs:28-60 | in any window between two calls 1000 * (granted - maximum) < length * rate + 1000 |
| `TokenBucket.CreationBound` | src/common/traffic.rs:17-60 | from creation, granted + left <= maximum + floor(elapsed * rate / 1000) |
| `TokenBucket.InRangeExactly` | src/common/traffic.rs:45-60 | through a run 0 <= tokens <= maximum holds exactly as long as no refill's sum leaves 64 signed bits |
| `TokenBucket.TokensStayNonNegative` | src/common/traffic.rs:45-60 | for every rate up to 0.999 * 2^63 tokens stay between zero and the maximum in every run |
| `TokenBucket.FastestRateOverflows` | src/common/traffic.rs:45-60 | a concrete rate and call for which a full bucket overflows and grants nothing |
| `TokenBucket.HugeRateBlocks` | src/common/traffic.rs:17-25 | with a rate of 2^63 or more no run is ever granted a token |
| `TokenRaces.AloneIsAtomic` | src/common/traffic.rs:28-60 | the separate loads and stores of an undisturbed caller amount to the atomic call |
| `TokenRaces.RunBalance` | src/common/traffic.rs:28-60 | in every interleaving of any number of callers, granted + left + cut off by the maximum + about to be overwritten = maximum + gained + subtracted inside refills + 2^64 for each wrapped subtraction outside |
| `TokenRaces.RacesExactly` | src/common/traffic.rs:28-60 | between refills, callers have stayed within maximum and gains exactly if no more was subtracted inside refills (or wrapped) than the maximum cut off |
| `TokenRaces.RacedBound` | src/common/traffic.rs:28-60 | the bound from creation in every interleaving, raised by what was subtracted inside refills and lowered by what the maximum cut off |
| `TokenRaces.LostUpdate` | src/common/traffic.rs:53-58 | what a refill overwrites at its store is exactly what was granted since its load |
| `TokenRaces.StoreKeepsBound` | src/common/traffic.rs:53-58 | a store keeps the bucket within its gain exactly if no more was granted since the load than the maximum cuts off |
| `TokenRaces.UndisturbedBound` | src/common/traffic.rs:28-60 | in every interleaving without a subtraction inside a refill the bound of atomic calls holds |
| `TokenRaces.SpentTwice` | src/common/traffic.rs:28-60 | a concrete interleaving grants 2000 tokens from a bucket of 1000 within a millisecond, and the bucket never goes below zero |
| `TokenRaces.RacingCallers` | src/common/traffic.rs:30-35 | any number of callers that read the same bucket stay within it exactly when their requests fit, at most one asks, or it is empty |
| `TokenBucket.FullExactly` | src/common/traffic.rs:45-60 | the exact condition under which a refill leaves the bucket full |
| `TokenBucket.FullAfterASecond` | src/common/traffic.rs:45-60 | a bucket left alone for a second is full |
| `Admission.ConnectionLimiter.TryAcquire` | src/common/traffic.rs:74-104 | a slot is given iff fewer than the maximum are active |
| `Admission.ConnectionLimiter.DropGuard` | src/common/traffic.rs:111-115 | dropping a guard gives its slot back |
| `Admission.AlwaysBalanced` | src/app/inbound_manager.rs:270-343 | in every interleaving of any number of connections and inbounds, every permit is with a semaphore or one connection, and every count is right |
| `Admission.NeverBlocked` | src/app/inbound_manager.rs:270-343 | no connection is ever unable to take its next step, so no count goes below zero; `Admission.StepsMoveOn` says that the step leads on |
| `Admission.CapsHold` | src/app/inbound_manager.rs:270-343 | at every small step active + available <= maximum, and running tasks stay within both caps |
| `Admission.ExactAtRest` | src/common/traffic.rs:74-115 | at rest active + available = maximum, and active is the number of running tasks |
| `Admission.NoSlotLeaks` | src/app/inbound_manager.rs:270-343 | when all connections are gone, refused ones included, every limiter is as new |
| `Admission.RefusedOnlyWhenFull` | src/app/inbound_manager.rs:270-343 | a connection is refused only by a limiter whose permits are all held by connections |
| `Admission.OwnStepsBalance` | src/app/inbound_manager.rs:270-343 | in every interleaving a connection's own steps have changed every limiter by exactly what it holds at the moment |
| `Admission.RefusalReturnsSlot` | src/app/inbound_manager.rs:270-343 | a connection that is gone, refused by its inbound or not, has given back all it took, whatever the others did meanwhile; `Admission.SlotIsBackSoon` says when it is gone |
| `Admission.StepsMoveOn` | src/app/inbound_manager.rs:270-343 | in every interleaving each own step of a connection brings it closer to being gone, and no step of another holds it back |
| `Admission.SlotIsBackSoon` | src/common/traffic.rs:111-115 | a connection whose guards are being dropped is gone, with nothing left on any limiter, after two more steps of its own |
| `Admission.RunsUnlessTurnedAway` | src/app/inbound_manager.rs:270-343 | a connection on its way out either ran its task or was turned away by a full limiter |
| `Utf8.DecodeEncode` | src/config/subscription.rs:990-1013 | UTF-8 decoding undoes encoding |
| `Utf8.EncodeDecode` | src/common/addr.rs:111 | valid UTF-8 has one reading and one writing |
| `Utf8.RefusedExactly` | src/common/addr.rs:111 | bytes are refused iff they are the encoding of no text |
| `Utf8.KnownTexts` | src/common/addr.rs:111 | a character of each length has the bytes that section 7 of RFC 3629 gives it |
| `UrlCoding.DecodeBytesLoop` | src/config/subscription.rs:990-1013 | the byte loop decodes percent pairs and refuses broken ones |
| `UrlCoding.DecodesToLowBytes` | src/config/subscription.rs:1391-1399 | decoding the encoder's output gives the low byte of every character |
| `UrlCoding.TagRoundTrip` | src/config/subscription.rs:1391-1399 | a tag survives encoding and decoding iff it is ASCII |
| `UrlCoding.KeptExactly` | src/config/subscription.rs:990-1013 | decoding never lengthens a text, and leaves it alone iff it has no percent sign or is not percent code |
| `UrlCoding.AnyStyleBack` | src/config/subscription.rs:990-1013 | percent code is read back whichever way each byte was written: plain, plus sign for a space, hex digits in either case, or a sign for a leading zero |
| `Vless.ParseQueryParams` | src/config/subscription.rs:1016-1029 | the query loop builds the map in which the last of equal keys wins and pieces without `=` are skipped |
| `Vless.EncodeVlessUri` | src/config/subscription.rs:1215-1261 | the printer's pushes give the link text of the configuration |
| `VlessExact.QueryExactly` | src/config/subscription.rs:1016-1029 | parameters come back as printed iff no value holds `&` or is percent code |
| `VlessLaws.OneParamBack` | src/config/subscription.rs:929-967 | every printed parameter comes back under its own key, and no other key appears |
| `VlessLaws.CleanHeadBack` | src/config/subscription.rs:972-987 | identifier, host and port are split apart again, bare IPv6 addresses included |
| `VlessLaws.UncleanHeadLost` | src/config/subscription.rs:972-987 | an identifier with `@`, or an address with `?` or a leading bracket, does not come back |
| `VlessLaws.PrintParse` | src/config/subscription.rs:234-280 | a printed link is parsed into the tag, head and query printed, whatever the parameters; without `&` in them that is the normal form of the configuration |
| `VlessLaws.IdentityBackExactly` | src/config/subscription.rs:120-125 | identifier and address come back iff they keep clear of the separators |
| `VlessExact.LastCutIsShort` | src/config/subscription.rs:1016-1029 | the last value that holds `&` comes back shorter |
| `VlessExact.RoundTripExactly` | src/config/subscription.rs:1215-1261 | for every configuration, parse(print(c)) = c iff c is canonical |
| `VlessLinks.BracketedBack` | src/config/subscription.rs:972-987 | a bracketed host comes back without its brackets, with its port |
| `VlessLinks.BracketedLink` | src/config/subscription.rs:234-280 | a whole link with a bracketed host gives identifier, host, port, parameters and tag |
| `VlessLinks.UntaggedLink` | src/config/subscription.rs:234-237 | a link without a tag is named vless and otherwise parsed from its head |
| `VlessLinks.ValueBack` | src/config/subscription.rs:1016-1029 | of any clear parameters with distinct keys, every key gives the value written for it, and no other key gives one |
| `VlessLinks.ParamsDecide` | src/config/subscription.rs:929-967 | what such parameters make of a link: the service name counts for grpc only, the server name falls back to sni, transport and TLS are absent for the plain types |
| `VlessLinks.SpaceAround` | src/config/subscription.rs:120-125 | white space around a link changes nothing |
| `VlessLinks.PlusSign` | src/config/subscription.rs:246 | a port may carry one plus sign |
| `VlessLaws.NonAsciiTagLost` | src/config/subscription.rs:1391-1399 | a non-ASCII tag never comes back |
| `Calendar.UnixDaysToDate` | src/app/access_log.rs:319-361 | every day count gives a valid date, the only one whose day number is that count, so the two loops are inverse both ways; `Calendar.DayNumberFormula` gives that number in closed form |
| `Calendar.SecondsOf` | src/app/cert.rs:271-292 | the year and month loops compute the day number of the date, for which `Calendar.DayNumberFormula` has the closed form, and add the time of day |
| `Calendar.DaysOrderDates` | src/app/cert.rs:271-292 | day numbers order valid dates as the calendar does, and equal numbers mean equal dates |
| `Calendar.YearLoopFormula` | src/app/cert.rs:274-276 | the year loop equals the closed formula with its leap-day terms |
| `Calendar.DayNumberFormula` | src/app/cert.rs:271-292 | the day number of every date in closed form, with years counted from March, so the table of month lengths is that of the Gregorian calendar |
| `Calendar.NextDayIsNext` | src/app/access_log.rs:319-361 | the next day has the next number, over every end of a month or a year |
| `Der.ReadLengthLoop` | src/app/cert.rs:195-217 | the length loop reads short and long form, up to four length bytes |
| `Der.ReadElement` | src/app/cert.rs:169-184 | on any bytes a read element lies inside them and takes at least two |
| `Der.ReadElementBack` | src/app/cert.rs:169-184 | a minimally encoded element is read back, whatever follows, iff its content is below 2^32 bytes |
| `Der.ReadSequenceBack` | src/app/cert.rs:187-192 | the same for sequences: iff the content is below 2^32 bytes and the tag is that of a sequence |
| `Der.KnownLengths` | src/app/cert.rs:195-217 | the length examples of section 8.1.3 of ITU-T X.690 are read as given there |
| `X509.ExtractSubject` | src/app/cert.rs:300-326 | the loop over names finds the first common name, and ends on any bytes |
| `X509.FindValidity` | src/app/cert.rs:109-125 | the position moves past version, serial number, algorithm and issuer |
| `X509.ParseValidity` | src/app/cert.rs:101-147 | the walk with a moving position equals the walk by remaining bytes, on any bytes |
| `X509.NamesBack` | src/app/cert.rs:300-326 | the first common name of every encoded list of names is found |
| `X509.WalkBack` | src/app/cert.rs:101-147 | for every well-formed certificate, with or without version, the walk returns exactly its two times and first common name |
| `CertTime.UtcTimeBack` | src/app/cert.rs:233-271 | a two-digit-year time of 1950 to 2049 is read back |
| `CertTime.GeneralizedTimeBack` | src/app/cert.rs:233-271 | a four-digit-year time is read back |
| `CertTime.EpochOrdersMoments` | src/app/cert.rs:271-292 | epoch seconds order moments as calendar and clock do |
| `CertTime.FirstSecond` | src/app/cert.rs:271-292 | the first second of 1970 is second 0 |
| `CertTime.EpochCountsSeconds` | src/app/cert.rs:271-292 | the next second of every moment has the next number |
| `CertTime.CheckExpiry` | src/app/cert.rs:101-165 | the way from certificate bytes to days left and expired flag, on any bytes |
| `CertTime.DaysLeftExactly` | src/app/cert.rs:149-165 | the days left are the whole days until the expiry, or since it with a minus sign |
| `CertTime.CertificateExpiry` | src/app/cert.rs:149-165 | the flag computed from the bytes of a well-formed certificate that ends at m is raised iff now >= m + 86400 |
| `Derp.CodesAreExact` | src/derp/protocol.rs:90-113 | type codes and frame types answer to each other, unknown codes to none |
| `Derp.Writer.Write` | src/derp/protocol.rs:130-144 | a write appends type, 32-bit big-endian length and payload |
| `Derp.Reader.Read` | src/derp/protocol.rs:147-172 | a read takes one frame off the stream or gives the error the bytes call for |
| `Derp.ReadWritten` | src/derp/protocol.rs:130-172 | a written frame is read back, whatever follows, iff its payload has at most 2^20 bytes |
| `Derp.OnlyWritten` | src/derp/protocol.rs:147-172 | every successful read took exactly the bytes a write of that frame sends |
| `Derp.ReadsExactly` | src/derp/protocol.rs:147-172 | a read succeeds iff the stream begins with the bytes of a frame of allowed size |
| `Derp.AnswersAreFinal` | src/derp/protocol.rs:147-172 | more bytes change only an end-of-stream answer; after a whole header they complete the frame iff they reach its announced length |
| `Derp.RefusalsExactly` | src/derp/protocol.rs:147-172 | a whole header is refused as unknown iff no frame type has its code, whatever the length, and as too large iff its type is known and the length above 2^20 |
| `Derp.LengthIsBigEndian` | src/derp/protocol.rs:147-172 | the length is in network order |
| `Derp.KnownFrame` | src/derp/protocol.rs:130-144 | the bytes of a ping |
| `Derp.OversizedRefused` | src/derp/protocol.rs:158-164 | a payload above 2^20 and below 2^32 bytes is refused with its size |
| `Derp.StreamBack` | src/derp/protocol.rs:130-172 | frames written one after another are read back as that list, whatever follows |
| `Derp.StreamForth` | src/derp/protocol.rs:147-172 | on any bytes, the frames read are a prefix of them, and reading fails right behind it |
| `Derp.WrittenOneWay` | src/derp/protocol.rs:130-144 | different lists of frames have different bytes |
| `Derp.CutStream` | src/derp/protocol.rs:147-172 | a stream cut at any byte yields exactly the frames that arrived whole, then an end-of-stream error |
| `Socks5.EncodeSocks5` | src/common/addr.rs:62-81 | encoding appends type, address and port to the buffer |
| `Socks5.RoundTrip` | src/common/addr.rs:86-128 | parse(encode(a) + rest) = (a, length of encode(a)) iff a's domain has at most 255 bytes |
| `Socks5.OnlyWritten` | src/common/addr.rs:86-128 | every successful parse took exactly the encoding of the address it returns |
| `Socks5.ParsesExactly` | src/common/addr.rs:86-128 | a parse succeeds iff the data begins with the encoding of some address |
| `Socks5.RefusalsExactly` | src/common/addr.rs:86-128 | data is refused for its type iff that is none of the three, and as no text iff a complete domain is the encoding of no text |
| `Socks5.PortIsBigEndian` | src/common/addr.rs:62-81 | the port is in network order |
| `Socks5.KnownAddresses` | src/common/addr.rs:62-81 | the bytes of an address of each of the three types |
| `Socks5.PrefixFree` | src/common/addr.rs:62-81 | no encoding is a prefix of another |
| `Socks5.CutAddress` | src/common/addr.rs:86-128 | an encoding cut anywhere is refused as insufficient |
| `Socks5.RowsReadOneWay` | src/common/addr.rs:62-128 | a concatenation of addresses decodes in one way |
| `Socks5.ReadersAgree` | src/common/addr.rs:163-187 | reading the parts separately gives the address the parser gives |
| `Socks5.PartsParsed` | src/common/addr.rs:163-187 | parts of the right length give an address that the parser reads back with the same parts |
| `PrefixedStream.Replay.constructor` | src/common/stream.rs:34-41 | a new stream will deliver the prefix, then the rest |
| `PrefixedStream.Replay.Read` | src/common/stream.rs:44-59 | a poll delivers from the prefix first, and moves bytes in order |
| `PrefixedStream.PeekIsInvisible` | src/app/dispatcher.rs:197-216 | peeking and putting back changes nothing for later readers, however often it is done |
| `PrefixedStream.EmptyMeansEnd` | src/common/stream.rs:44-59 | with room, an empty read means prefix and connection are both used up |
| `PrefixedStream.NothingLost` | src/app/dispatcher.rs:197-216 | over any run of reads and peeks, bytes delivered followed by bytes remaining is the original stream |
| `PrefixedStream.EndMeansAll` | src/common/stream.rs:44-59 | a reader that sees the end has received the whole stream |
| `PrefixedStream.AllDeliveredInTime` | src/common/stream.rs:44-59 | after as many answered reads as there are bytes, all of them have been delivered |

## Left out

- Route and error statistics, the connection list and the descriptive fields of a connection: plain records beside the accounting.
- Interleavings inside one tracker method, other than those of the totals and the outbound records: each method is one step.
- TrackerLaws.Conservation: counters are naturals; `TrackerLaws.CountersStayBelow` shows 64-bit counters agree until 2^64 bytes are reported. Wrap-around of the id counter is not modelled.
- TrackerLaws.OutboundsAddUp: the 32-bit connection count of an outbound is a natural, so this half holds below 2^32 tracks.
- Sorting inside `Percentiles`: a function that sorts stands for the library sort. The floating-point index is taken as the rounded exact product, which it is for at most 2048 values.
- TokenBucket.FullAfterASecond: stated for waiting times whose product with the rate does not overflow; `FullExactly` covers the others.
- TokenBucket.WindowBound: calls are atomic; `TokenRaces` has the exact balance when they are not. Arithmetic wraps as in a release build.
- TokenRaces.UndisturbedBound: asks that no subtraction leaves 64 signed bits; `RunBalance` covers those that do.
- BreakerReset.ResetSticksExactly: a second reset inside the gaps is not modelled, nor a write of the reset that falls inside another operation: the last three writes take no state lock, so the code can also reach Open with zero failures and an opening time.
- Calendar.SecondsOf: a month above 13 (out-of-range table index) and day 0 (underflow) are excluded.
- Dates before 1970, for which the year loop adds nothing, and time texts that are not ASCII.
- X509.WalkBack: the common name is kept as bytes; its lossy conversion to text is not modelled.
- The PEM envelope and its base64.
- The timestamp formatter of the access log, which adds an offset the date loop already counts.
- VLESS fields that are neither printed nor derived by the parser, and all other link schemes: several printers do not print what their parser reads.
- Error texts: a refused link, certificate or address is only known to be refused, frames and SOCKS5 addresses also why.
- Payload layouts inside relay frames.
- IPv6 flow information and scope.
- Writes, flush and shutdown of a replayed stream, which pass straight through.
- Routing, DNS, UDP, groups, TLS, the HTTP and C interfaces, persistence and configuration of the kernel.
- Poisoned locks, real clocks, sockets and task scheduling.
