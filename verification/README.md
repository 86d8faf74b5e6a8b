# Verified model of av-scanner's limiter and scan verdicts

av-scanner scans uploaded files for authenticated Kubernetes service accounts. Two parts of it make promises over
whole runs, and this project models both in Dafny and proves those promises.

**The per-account limiter and its hot reload.** Every account has a concurrency limit and a token bucket, kept in a
map that is filled on first use and pruned by reloads and releases. `Limiter.dfy` is the shared object itself: states,
buckets and one-shot release closures as objects, updated in place. Each of its methods is proved to do one step of the
value-level limiter in `LimiterSpec.dfy`, which is proved to be a product of independent one-account machines
(`AccountMachine.dfy`, on top of `TokenBucket.dfy` and `RateConfig.dfy`). The promises are proved of the one-account
machine (`AccountRuns.dfy`; `AccountDebt.dfy` and `RateChanges.dfy` for how far into debt an account can get at one rate
and through many, with the divisor arithmetic in `Divisors.dfy`) and carried back to the whole limiter (`LimiterRates.dfy`, up to the Retry-After header).
`Middleware.dfy` adds the requests that hold the slots and the 429 response; `Allowlist.dfy` adds the file, its validation, and the two publications of one load,
interleaved with requests.

**The detection cache and the verdict built on it.** `DetectionCache.dfy` is a machine of all goroutines that use the
cache, one step per critical section; `DetectionCacheObject.dfy` is the object, including the retry loop of `Wait`.
`LogParsing.dfy` gives the two regular expressions the leftmost-first meaning they have in Go; `Drivers.dfy` turns log
lines and tool output into detections and verdicts; `Scanner.dfy` is `Scan`, and all scans at once together with the
log watcher.

Conventions. One token is 60·10^9 units, and a rate of R requests per minute adds R units per nanosecond, so the bucket
is exact. Delays are truncated to whole nanoseconds, as `time.Duration` is. `golang.org/x/time/rate` v0.12.0 is not part
of the repository: `TokenBucket.dfy` and the class `Bucket` state what is assumed of it. Clock readings, tool results,
log lines, file contents and the interleaving of goroutines are inputs. The clock is assumed not to run backwards.

## Where the code differs from its documents, or needs a condition nobody checks

- The sliding-window bound of burst + R·minutes admissions is exceeded for rates whose token spacing is not a whole
  number of nanoseconds, because delays are truncated. The exact excess is known: R − gcd(R, 60·10^9) units (less than
  one nanosecond's accrual) cover every window between any two instants of every run, whatever is reloaded before it,
  and nothing smaller does (`AccountDebt.SlackIsLeast`, `LimiterRates.AccountSlackIsLeast`). So the bound holds as
  documented exactly when R divides 60·10^9 (`AccountDebt.BoundWithoutSlackIff`).
- The Retry-After header is not always 1 to 60. Let reloads give an account any rates of a set, any number of times and
  in any order, and let g be the greatest common divisor of those rates and 60·10^9. The most the account can ever owe
  is its greatest rate less g (`LimiterRates.OwesNoMoreIff`), so the header is always 1 to 60 exactly when, for all
  positive rates R and r of the set, R − g <= (r − 1)·(60·10^9 + 1) (`LimiterRates.HeadersAlwaysFitIff`). For rates up to
  60·10^9 that is: 1 is not in the set, or nothing else but 0 is (`LimiterRates.HeadersAlwaysFitAtUsualRates`). Rates 3,
  2 and then 1 give 61 (`LimiterRates.ThreeRates`), although each of them divides 60·10^9. For one change of rate, from
  R to r, the condition is R − gcd(R, 60·10^9) <= (r − 1)·(60·10^9 + 1) (`LimiterRates.HeadersFitIff`).
- Retry-After is not exact for an account that is off the allowlist while its scans run: when the last of them finishes,
  its bucket is dropped with what it owed, and its next request is admitted at once. While no reload changes its limits
  or listing, that is the only way to be admitted early (`LimiterRates.AdmittedEarlyIff`;
  `LimiterRates.UnlistedAccountIsAdmittedEarly` is such a run). Waiting as long as the header says suffices for every
  account.
- internal/drivers/trendmicro.go:214 says a detection is never masked by an error. An undecodable result masks exit codes
  1 and 3, which mean malware was found: it is answered with an error before the exit code is read (lines 199-203).
  `Drivers.InfectedExitCodeIff` gives the inputs and the exact condition. The scan then waits for a real-time detection.
- Trend Micro's log lines cannot report every file: the pattern of internal/drivers/trendmicro.go:23 never captures a path
  with a closing parenthesis (`Drivers.ParenthesisIsNeverReported`), and white space around a path is cut. The uploaded
  name decides the extension (internal/scanner/scanner.go:217-220), so for a name such as `x.a)` or one that ends in a
  space no real-time detection reaches the scan: without a manual verdict it fails, and is never answered clean.
  `Drivers.LoggedPathIsCached` says exactly which paths are cached as printed.
- Nothing checks an engine's timeout against the cache's ttl. `DetectionCache.BudgetFitsExpiry` says exactly when
  detections outlive a scan's budget.
- docs/superpowers/specs/2026-10-08-per-account-rate-limits-design.md:74-75 takes the slot first and gives it back on a
  rate rejection; the code takes it after both checks (internal/ratelimit/limiter.go:87-101), and so does the model.
- The repository's README.md:42 gives an older formula for the real-time wait; the model follows internal/scanner/scanner.go:114-120.
- Bounded memory needs validation: for unvalidated limits `LimiterSpec.StrandedIff` says exactly when an idle entry of
  an unlisted account is left behind.

## Model

| member | source | states |
|---|---|---|
| RateConfig.For | internal/ratelimit/config.go:30-46 | each field is what the account's override sets, or else the default's; an account without an override gets the default |
| RateConfig.OverridesReplaceFields | internal/ratelimit/config.go:30-46 | the limits in force, field by field; without a configuration all three are 0, which limits nothing |
| RateConfig.Validate | internal/ratelimit/config.go:49-69 | accepts exactly the configurations in which every possible account name has no negative limit and no rate without a burst; an error names limits that are wrong |
| TokenBucket.RefillSplits | internal/ratelimit/limiter.go:135-136 | refilling in two steps is refilling in one: the cap neither loses nor creates tokens |
| TokenBucket.RejectedAskOnlyAdvances | internal/ratelimit/limiter.go:93-98 | reserve-then-cancel at one instant is a pure passage of time |
| TokenBucket.GrantedAskTakesOneToken | internal/ratelimit/limiter.go:92-99 | a grant takes one token, and never leaves a debt of a nanosecond's accrual or more |
| TokenBucket.ParametersKeepEarnings | internal/ratelimit/limiter.go:135-136 | a new rate or burst keeps what is there, cut to a new burst, and a new rate counts from then on |
| TokenBucket.CancelGivesBack | internal/ratelimit/limiter.go:95 | a cancelled reservation gives back its token less what accrues up to the latest one |
| AccountMachine.AdmittedIff | internal/ratelimit/limiter.go:87-106 | a request is refused for concurrency exactly when all slots of the cap are taken, and else admitted exactly when there is no rate or a token is there or less than a nanosecond away; what an admission costs |
| AccountMachine.RateChangeKeepsEarnings | internal/ratelimit/limiter.go:121-137 | what applyRate does to a bucket: a rate change keeps what the old rate earned and earns at the new rate; off and on again starts a full bucket |
| AccountMachine.FirstAskRejectedIff | internal/ratelimit/limiter.go:73-99 | the first Acquire on fresh state is rejected exactly for a rate with a burst below one |
| AccountMachine.StepKeepsCellInv | internal/ratelimit/limiter.go:50-137 | every step keeps counts non-negative, buckets equal to the configured rate and burst, and no idle entry of an unlisted account |
| AccountMachine.SameCellStep | internal/ratelimit/limiter.go:50-137 | states that cannot be told apart now give equal outcomes and stay so |
| AccountMachine.QuietEventIsInvisible | internal/ratelimit/limiter.go:57-99 | a rejection, or a reload that leaves the account's limits and listing as they are, neither refills nor drains its bucket |
| AccountRuns.QuietEventsAreInvisible | internal/ratelimit/limiter.go:50-106 | erasing any rejections and unchanged reloads from a run changes no other outcome of the account |
| AccountRuns.ReloadEffect | internal/ratelimit/limiter.go:50-64 | any reload drops an account's state exactly when it is off the list and idle, keeps its count, and keeps what its bucket had earned or owed, up to the new burst, to earn at the new rate; a bucket that is new starts full |
| AccountRuns.WindowBound | internal/ratelimit/limiter.go:92-99 | between any two instants, from any good state, at most burst + R·minutes admissions and R − gcd(R, 60·10^9) units |
| AccountDebt.SlackIsLeast | internal/ratelimit/limiter.go:92-99 | over every window of every run from a blank account, the bound holds with a given slack exactly when the slack is at least R − gcd(R, 60·10^9) |
| AccountDebt.BoundWithoutSlackIff | internal/ratelimit/limiter.go:92-99 | the documented bound holds in every window of every run exactly when R divides 60·10^9 |
| AccountDebt.FurthestRun | internal/ratelimit/limiter.go:92-99 | a run of a new account that gets that many admissions and ends that deep in debt, at every rate and burst |
| AccountDebt.RunOwes | internal/ratelimit/limiter.go:92-137 | over any run whose rates and amounts are whole numbers of g units, the account owes at most its greatest rate less g, in whole numbers of g units, whatever is reloaded |
| RateChanges.Steer | internal/ratelimit/limiter.go:121-137 | reloads and requests can move what an account has by any multiple of the common divisor of its rates and 60·10^9, up to whole tokens |
| RateChanges.DeepestRun | internal/ratelimit/limiter.go:92-137 | for any rate of any set, a run of a new account through the rates of the set that ends owing that rate less the common divisor |
| AccountRuns.RetryAfterIsExact | internal/ratelimit/limiter.go:93-98 | until another admission or reload, every request before now + delay is refused for exactly the remaining time, and admitted from then on if a slot is free; except that an account off the list whose last work has finished has no state, exactly then, and is admitted at once (for a delay below the library's largest duration) |
| AccountRuns.CapHolds | internal/ratelimit/limiter.go:82-90 | through reloads that keep a cap, the count stays within the larger of the cap and the count when it was set |
| LimiterSpec.RunIsProduct | internal/ratelimit/limiter.go:50-137 | in any run, an account's state and outcomes are those of its own machine on its own events |
| LimiterSpec.AccountsDoNotInterfere | internal/ratelimit/limiter.go:50-137 | limiters that differ in other accounts, tickets and history decide alike for an account that starts alike and sees the same events |
| LimiterSpec.StepKeepsCount | internal/ratelimit/limiter.go:101-117 | in-flight counts and the published gauge equal the number of unreleased tickets after every call, including repeated releases |
| LimiterSpec.RunKeepsLimiterInv | internal/ratelimit/limiter.go:50-137 | every reachable state satisfies the accounting and every account's invariant |
| LimiterSpec.AcquireEffect | internal/ratelimit/limiter.go:68-106 | refused for concurrency exactly when as many tickets as the cap are unreleased, else admitted exactly when there is no rate or a token is there or less than a nanosecond away; a refusal takes no ticket, and no other account is touched |
| LimiterSpec.ReleaseEffect | internal/ratelimit/limiter.go:108-117 | a release gives one slot back and keeps the bucket; the state goes exactly with the last slot of an account that a published list leaves out |
| LimiterSpec.UpdateEffect | internal/ratelimit/limiter.go:50-64 | an update keeps an account's state exactly when it is on the new list or has unreleased tickets; its count stays, and its bucket keeps what it had earned or owed, up to the new burst, and earns at the new rate |
| LimiterSpec.BoundedMemory | internal/ratelimit/limiter.go:57-62 | from a new limiter, every account with state is listed or has that many unreleased tickets, more than none |
| LimiterSpec.StrandedIff | internal/ratelimit/limiter.go:73-97 | without validation, one Acquire strands an idle entry exactly for a rate with a burst below one |
| LimiterSpec.BucketsAgreeWithConfig | internal/ratelimit/limiter.go:121-137 | after any calls, validated or not, an account's bucket exists exactly when the current configuration gives it a rate, with that rate and burst |
| LimiterSpec.ReservationsAreOk | internal/ratelimit/limiter.go:93-94 | with validated configurations no reservation is refused outright, on an account's bucket or on the one its first Acquire creates, and every rate rejection reports the reservation's own wait, which is positive |
| LimiterSpec.DrainedAccountIsIdle | internal/ratelimit/limiter.go:108-117 | once an account's tickets are released its count is zero, and an unlisted account has no state |
| LimiterSpec.AccountWindow | internal/ratelimit/limiter.go:92-99 | the rate bound for one account of the shared limiter, from any good state, whatever the other accounts do |
| LimiterSpec.OverrideWindow | internal/ratelimit/config.go:30-46 | the rate bound of an account with an override is that of the override's own rate and burst, whatever the defaults are or become |
| LimiterSpec.AccountCap | internal/ratelimit/limiter.go:82-90 | the cap, counted in unreleased tickets, for one account of the shared limiter |
| LimiterSpec.AccountRetryAfter | internal/ratelimit/limiter.go:93-98 | the same for any account of the shared limiter, its work counted in unreleased tickets |
| LimiterSpec.QuietCallsAreInvisible | internal/ratelimit/limiter.go:50-106 | erasing every rejected call and every unchanged reload keeps all other outcomes, ticket numbers and counts, for all accounts at once |
| LimiterSpec.AccountQuietCallsAreInvisible | internal/ratelimit/limiter.go:50-106 | erasing one account's rejections and the reloads that change nothing for it keeps its other outcomes, whatever the other accounts, their reloads and their tickets do in either run |
| LimiterRates.AccountSlackIsLeast | internal/ratelimit/limiter.go:92-99 | for each account of a shared limiter, over every window of every run since its creation, the least slack is R − gcd(R, 60·10^9) |
| LimiterRates.AccountBoundWithoutSlackIff | internal/ratelimit/limiter.go:92-99 | for each account of a shared limiter, the documented bound holds in every window exactly when R divides 60·10^9 |
| LimiterRates.DelayIsBounded | internal/ratelimit/limiter.go:93-97 | from a new limiter on, a delay is at most what a token and the debt of the highest rate so far take at the rate in force |
| LimiterRates.RetryAfterIsExactFromStart | internal/ratelimit/limiter.go:93-98 | from a new limiter on, every delay is exact, with that one exception (rates below the largest duration less 60·10^9) |
| LimiterRates.AdmittedEarlyIff | internal/ratelimit/limiter.go:108-117 | a request before the delay is over is admitted exactly when the account is by then off the list with all its tickets released |
| LimiterRates.UnlistedAccountIsAdmittedEarly | internal/ratelimit/limiter.go:108-117 | an illustration: such a run |
| LimiterRates.HeaderWithinMinuteFrom | internal/ratelimit/middleware.go:41-45 | from any good state, whatever is reloaded, the header is 1 to 60 when the account owes less than the highest rate, and that debt is covered at the rate in force, as it always is at a constant rate |
| LimiterRates.HeaderWithinMinute | internal/ratelimit/middleware.go:41-45 | the same for every run of a new limiter, in terms of its configured rates alone |
| LimiterRates.OwesNoMoreIff | internal/ratelimit/limiter.go:92-137 | over all runs of a new limiter whose updates give the account rates of a set, it never owes more than a given amount exactly when no rate of the set less the common divisor does |
| LimiterRates.HeadersAlwaysFitIff | internal/ratelimit/middleware.go:41-45 | over all such runs, with any number of reloads, every header is 1 to 60 exactly when every rate R and r of the set satisfy R − g <= (r − 1)·(60·10^9 + 1), for the common divisor g |
| LimiterRates.HeadersAlwaysFitAtUsualRates | internal/ratelimit/middleware.go:41-45 | for rates up to 60·10^9, that is exactly: no rate of 1, or none but 1 and 0 |
| LimiterRates.ThreeRates | internal/ratelimit/middleware.go:41-45 | an illustration: a run through rates 3, 2 and 1 whose header is 61 |
| LimiterRates.HeadersFitIff | internal/ratelimit/middleware.go:41-45 | the case of at most one change of rate: over all runs at rate R and then, after a reload, at rate r, every header is 1 to 60 exactly when R − gcd(R, 60·10^9) <= (r − 1)·(60·10^9 + 1) |
| LimiterRates.HeadersFitAtUsualRates | internal/ratelimit/middleware.go:41-45 | for at most one change of rate, from R up to 60·10^9, that is exactly r >= 2 or R divides 60·10^9 |
| Limiter.Bucket.CancelAt | internal/ratelimit/limiter.go:95 | gives the token back, less what later reservations used, and moves the latest event back exactly when the cancelled reservation was the latest and the one before it is not past |
| Limiter.AccountState.ApplyRate | internal/ratelimit/limiter.go:121-137 | creates, removes or re-parameterises the bucket in place |
| Limiter.AccountState.TryEnter | internal/ratelimit/limiter.go:87-101 | both checks in order: refused for concurrency exactly when the count has reached the cap; the slot is taken only after both pass |
| Limiter.Limiter.Acquire | internal/ratelimit/limiter.go:68-106 | the object does the value-level step, keeps the accounting, refuses for concurrency exactly when the unreleased tickets have reached the cap, and hands out a new ticket exactly on admission |
| Limiter.Limiter.Release | internal/ratelimit/limiter.go:105-117 | the first call of a closure returns the slot, further calls change nothing; the invariant it keeps says its captured state is the one in the map |
| Limiter.Limiter.Update | internal/ratelimit/limiter.go:50-64 | every entry is dropped or re-rated, in any iteration order, as the value-level step whose effect LimiterSpec.UpdateEffect states, and no unreleased ticket is orphaned |
| Limiter.Limiter.LiveTicketsStayInMap | internal/ratelimit/limiter.go:112-116 | an unreleased ticket's captured state is still the one in the map, so the identity guard holds |
| Limiter.Replay | internal/ratelimit/limiter.go:50-117 | any sequence of calls on the real objects has the outcomes and the final state of the value-level run |
| Middleware.WriteRejection | internal/ratelimit/middleware.go:41-60 | 429 (section 4 of RFC 6585) with its headers, reason and error text, and the least whole number of seconds, at least 1, that covers the delay (Retry-After, section 10.2.3 of RFC 9110) |
| Middleware.MessageTellsLimit | internal/ratelimit/middleware.go:47-53 | the error text tells which limit was met and its value: no two rejections of an account that differ in either share a text |
| Middleware.WaitingAsToldSuffices | internal/ratelimit/middleware.go:41-45 | a client that waits as long as the header says is not refused for its rate, whether its account is listed or not |
| Middleware.WaitingAsToldSufficesFromStart | internal/ratelimit/middleware.go:41-45 | the same in every run of a new limiter, with nothing assumed of the delay |
| Middleware.HeaderOverAMinute | internal/ratelimit/middleware.go:41-45 | an illustration: a run of four calls whose header is 61 |
| Middleware.ServerRunKeepsInv | internal/ratelimit/middleware.go:15-39 | every running handler holds its own unreleased ticket, and their number is the unreleased tickets' |
| Middleware.SlotHeldWhileRunning | internal/ratelimit/middleware.go:23-37 | from start-up, the in-flight count is the number of running handlers, and zero once all ended, by return or panic |
| Middleware.HandlersStayWithinCap | internal/ratelimit/middleware.go:23-37 | running handlers stay within the larger of a cap and their number when it was set |
| Middleware.Handle | internal/ratelimit/middleware.go:15-39 | an admitted request returns its own slot whether the next handler returns or panics, whatever else happened meanwhile; a refused one answers 429 and holds nothing; an empty identity is not limited |
| Middleware.HandleIsARun | internal/ratelimit/middleware.go:15-39 | Handle is a run of the machine of all requests: same limiter, and the request ends served, panicked, refused or unlimited alike |
| Allowlist.KeysAreDistinct | internal/auth/allowlist.go:96-101 | callers in namespaces without a slash never share a key |
| Allowlist.Allowlist.Load | internal/auth/allowlist.go:56-93 | succeeds exactly on files that parse and validate, publishes exactly their entries and limits, and otherwise changes nothing and says which step failed; warns of exactly the overrides off the list |
| Allowlist.AllowedExactlyTheNamed | internal/auth/allowlist.go:96-101 | after a load, a caller in a slash-free namespace is allowed exactly when some line of the file, cut at its first slash, names that caller; a line without a slash allows nobody |
| Allowlist.LoadIsThreeSteps | internal/auth/allowlist.go:56-93 | the three steps of a load, uninterrupted, end with the entries and limiter of Load's contract, or change nothing |
| Allowlist.ReloadsAreTransactional | internal/auth/allowlist.go:67-142 | over any file contents, with requests between the steps of a load, both views show published versions, differ only between the two publications and then by one, and the limiter stays in proved states |
| Allowlist.BootedSystemIsBounded | internal/auth/allowlist.go:83-89 | from start-up, memory is bounded whatever the files contained, and outside a half-done load the limiter uses the allowlist requests are checked against |
| Allowlist.FailedLoadChangesNothing | internal/auth/allowlist.go:56-81 | a failed load is invisible to every later event |
| DetectionCache.RunKeepsWorldInv | internal/cache/detection.go:46-127 | every interleaving of Add, Wait, Get and cleanup keeps the cache's invariant |
| DetectionCache.NoLostWakeUp | internal/cache/detection.go:46-76 | a blocked waiter whose path is in the cache can wake, and then takes that detection unless a rival comes first |
| DetectionCache.DeliveredAtMostOnce | internal/cache/detection.go:57-88 | no two consumers get the result of one Add, and each gets one for its own path |
| DetectionCache.EveryAddIsAccountedFor | internal/cache/detection.go:46-127 | every Add is resident, delivered for its path, overwritten by a later Add to its path, or expired more than ttl after it was made |
| DetectionCache.WaitIsPatientAndBounded | internal/cache/detection.go:57-76 | Wait gives up only at its deadline and checks at most once more than there were Adds meanwhile |
| DetectionCache.WaitIsARun | internal/cache/detection.go:57-76 | Wait's loop is a run of the machine: same store, same result, same number of checks, and a clock that does not run backwards when the inputs are in order |
| DetectionCache.WaitChecksAtMost | internal/cache/detection.go:60-75 | the measure of Wait's loop |
| DetectionCache.PresentIsReturnedAtOnce | internal/cache/detection.go:57-66 | a detection already there is returned by the first check, even with no time to wait |
| DetectionCache.GaveUpOnNothing | internal/cache/detection.go:57-76 | of its path, a wait that gave up leaves no detection in the cache from before its last check |
| DetectionCache.BudgetFitsExpiry | internal/cache/detection.go:117-127 | over all runs, no detection added since a scan began expires within its budget exactly when the budget is at most the ttl (or negative) |
| DetectionCacheObject.Cache.Add | internal/cache/detection.go:46-53 | stores, closes the open channel (never a closed one) and opens a new one |
| DetectionCacheObject.Cache.TakeOrWatch | internal/cache/detection.go:61-68 | Wait's critical section: take, or capture a channel that is still open |
| DetectionCacheObject.Cache.Get | internal/cache/detection.go:79-88 | returns and removes the entry of that path only |
| DetectionCacheObject.Cache.Cleanup | internal/cache/detection.go:117-127 | removes exactly the entries older than ttl, in any iteration order |
| DetectionCacheObject.Cache.Wait | internal/cache/detection.go:57-76 | the retry loop, with any interference while it blocks, returns what the machine's waiter returns |
| LogParsing.TmFindIsLeftmostFirst | internal/drivers/trendmicro.go:23 | finds something exactly when the pattern matches somewhere, and captures the group of the leftmost match, greedy spaces first |
| LogParsing.TmFindInvertsPrinting | internal/drivers/trendmicro.go:21-23 | parsing a printed detection gives exactly its path, whatever follows, if and only if the path is not empty, has no closing parenthesis, and no space in front unless it is all there is |
| LogParsing.ClamFrom | internal/drivers/clamav.go:20 | leftmost match, then longest first group, then longest spaces, then longest second group; none exactly when nothing matches |
| LogParsing.ClamFindInvertsPrinting | internal/drivers/clamav.go:19-20 | parsing a printed detection gives exactly its path and signature, even when the path contains ": ", if and only if the path is not empty and has no newline |
| Drivers.LoggedPathIsCached | internal/drivers/trendmicro.go:90-107 | a line reporting a file is cached as infected under exactly that file if and only if its path has no closing parenthesis and no white space around it (Trend Micro), or no newline (ClamAV) |
| Drivers.ParenthesisIsNeverReported | internal/drivers/trendmicro.go:90-107 | no log line whatsoever is read as reporting a path with a closing parenthesis |
| Drivers.TrimSpaceCutsOuterSpace | internal/drivers/trendmicro.go:93 | only white space is cut from a captured path, and all of it at both ends |
| Drivers.ProcessLogLine | internal/drivers/clamav.go:85-100 | adds to the cache exactly when the line matches, and only the detection the line reports |
| Drivers.WatchLog | internal/drivers/trendmicro.go:76-87 | every readable line is processed in order, wherever lost lines stand: as many Adds as lines with a detection, and for each path the detection and time of the last line for it, or what was there before |
| Drivers.ParseManualScanOutput | internal/drivers/trendmicro.go:184-237 | clean exactly when the scan definitively finished clean; infected exactly on evidence in a decoded result, which no error code or skipped file masks; an undecodable result is an error whatever the exit code |
| Drivers.InfectedExitCodeIff | internal/drivers/trendmicro.go:199-215 | with exit code 1 or 3 the answer is infected exactly when the result could be decoded; otherwise there is no manual verdict |
| Drivers.ClamManualScan | internal/drivers/clamav.go:147-168 | a FOUND line decides before the exit code, with the signature of the leftmost one, which is not empty; clean only with exit code 0 and no such line |
| Drivers.ManualVerdictIff | internal/scanner/scanner.go:99-109 | which tool runs give a manual verdict, and which: the tool ran to its end, and its result is clean or infected |
| Drivers.WatchRTS | internal/drivers/rts.go:19-45 | a signature exactly for a consumed infected detection of the file; there is no clean answer |
| Scanner.Scan | internal/scanner/scanner.go:85-179 | the manual verdict if there is one, else the real-time detection within exactly the rest of the budget, else an error that says whether the file is still there; the file is deleted exactly on a verdict |
| Scanner.ScanIsARun | internal/scanner/scanner.go:99-152 | Scan, with whatever others do to the cache while it runs, is a run of the machine of all scans: same answer, same store, and legal when its inputs are in the order of their times |
| Scanner.ScanVerdictHasItsEvidence | internal/scanner/scanner.go:99-152 | after any legal history, a real-time infection that Scan itself returns has a log line, before or during it, reporting this file with this signature; any other verdict is the engine's |
| Scanner.RunKeepsServiceInv | internal/scanner/scanner.go:99-152 | in every reachable state of all scans, log lines and cache users, every answer is justified |
| Scanner.CleanMeansScannedClean | internal/scanner/scanner.go:105-109 | a clean answer means the engine's own scan finished clean |
| Scanner.RealTimeInfectionHasItsLine | internal/scanner/scanner.go:120-129 | a real-time infection rests on a log line among the events of the run that reports this file with this signature, consumed by this scan alone |
| Scanner.FailureWaitsOutTheBudget | internal/scanner/scanner.go:110-151 | a scan fails only without a manual verdict, after waiting to max(start + budget, end of the manual scan), and with every detection of its file from before its last look gone to another call, replaced, or expired (after the budget, if the ttl covers it) |
| Scanner.WaitEndsWithBudget | internal/scanner/scanner.go:114-120 | in every reachable state a scan's wait is set to end exactly at max(start + budget, end of the manual scan), later only by what passed before the call, and nothing keeps a blocked call waiting from then on |
| Scanner.WatchLogIsARun | internal/drivers/trendmicro.go:76-107 | the log watcher's method does to the cache what its lines do as events of the machine |
| Scanner.DetectionReachesWaitingScan | internal/scanner/scanner.go:114-129 | a detection logged for a scan's file cannot expire within the budget; until then the scan has not failed, and while the detection is there, from the end of the manual scan on, the scan can go on to answer infected with it |
| Scanner.DeliveryIsCertainWithoutRace | internal/cache/detection.go:57-76 | unless a timer is taken over a channel already closed, a scan fails only if every detection of its file logged before it gave up went to another call, was replaced, or expired (after the budget, if the ttl covers it) |

## Left out

- HTTP, multipart parsing, YAML and JSON decoding, process execution, log tailing, fsnotify and TokenReview: their results are inputs.
- Floating-point error in the token bucket: the arithmetic is exact, apart from truncating delays to nanoseconds.
- Integer width: limits and times are unbounded; only the cap of a delay at the largest duration is kept.
- `golang.org/x/time/rate` beyond one-token reservations, and its own mutex, which the limiter's lock makes redundant.
- Sharing of one map between the allowlist and the limiter: neither writes it after publication, so it is a value here.
- Scheduling: a waiter or handler that may go on is shown able to, not that the scheduler runs it.
- Scanner.DetectionReachesWaitingScan: delivery is shown possible at every point, and certain (`Scanner.DeliveryIsCertainWithoutRace`) only in runs where the `select` in internal/cache/detection.go:70-74 never takes the timer over a channel already closed; the code allows both.
- Log messages, metric counters, JSON encoding, and the text of the scan errors: only whether the file still exists is kept of the last.
- `Scanner.New` and the choice of driver: the engine is a parameter.
- The mock driver, `Peek`, `Stop`, health and engine information: one-branch facts.
- A failing deletion of the uploaded file: its error is ignored by `Scan`, so the attempt is what the model records.
