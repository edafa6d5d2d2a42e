# dwd load control, modelled and proved

dwd generates load: a *profile* says how many requests per second to aim for at each
instant, a *rate-control loop* polls it every 10 ms and splits the target over the workers'
limit cells, every worker runs a *token bucket* on its cell and executes tasks (HTTP
requests, UDP datagrams, DPDK bursts), and *per-CPU counters* and a *logarithmic histogram*
record what happened. This project models that chain in Dafny and proves what it promises
over every profile tree, every clock, every interleaving of control events and worker
ticks, and every behaviour of the network or the network card.

| file | component | main results |
|---|---|---|
| `Common.dfy` | sums of counters; round-robin dealing | shares add up, differ by at most one |
| `Generators.dfy` | configuration and generator trees, one poll | |
| `LineProfile.dfy` | the straight line in i64 arithmetic | no overflow, shape, exact end miss |
| `ProfileTiming.dfy`, `Profiles.dfy` | Seq/Sum trees over whole runs | length window, permanence, peak |
| `ProfileMeaning.dfy` | what a configuration means, without state | every poll returns the meaning |
| `Suspension.dfy` | pause, resume, manual value | pausing is pure time erasure |
| `RateLoop.dfy` | rate loop and its control channel | limits follow the target, event order, no early exit |
| `LoopTargets.dfy` | what the rate loop stores | every stored target, exactly |
| `LoopTiming.dfy` | when the rate loop ends | no late exit |
| `TokenBucket.dfy` | shaper, worker turn | token conservation |
| `Pipeline.dfy` | all of it together | rate bounds over every schedule |
| `ExecutionTimes.dfy` | the same by the instant a task runs | window bound by execution |
| `Delivery.dfy` | steady workers | the target is delivered |
| `TxRing.dfy`, `DpdkWorker.dfy` | DPDK transmit ring | references never run out; statistics |
| `LatencyHistogram.dfy` | log histogram, merge, quantile | the selected bucket holds the ranked sample |
| `Metrics.dfy` | Prometheus histogram | what the series and the sum mean; where they are wrong |
| `Counters.dfy` | counters read while written | reads bracketed, never decreasing |
| `Producers.dfy` | cycling producer, job and packet spread | even dealing |
| `HttpWorker.dfy`, `CoroLoop.dfy`, `UdpWorker.dfy` | request accounting and socket quotas | balance, quota, socket count |

Code that updates fields step by step is a class or a loop here too, and each such method is
proved equal to a function of the old state; the lemmas are about those functions. Instants
in the profile modules are whole nanoseconds; the token bucket and the histogram use reals
where the code uses f64. Control calls, the clock, the network, the driver's choices and
random quota draws are parameters, universally quantified.

`Create`'s `None` stands for a configuration whose generator cannot be built: a line whose
duration is zero (or wraps to zero in i64 nanoseconds) divides by zero at
`dwd-core/src/generator.rs:358`, and a sine without a phase is an error.
`Profiles.LineBuilt` states when a line can be built.

## Where the code and its comments part

The model follows the code.

- The slope of a line is cut to whole requests per second per second, so `rps1` need not be
  reached: `LineProfile.LineEnd` gives the exact miss and when it is zero,
  `LineProfile.OneOverTwoSeconds` shows a line that stays at 0.
- `suspend` after `set` does nothing and keeps the manual value: `Suspension.SuspendSilences`
  states exactly when suspending brings the rate to zero, `Suspension.SuspendAfterSet` shows a
  history where it does not.
- A full control channel drops the newest event, not the waiting one, so a later event does
  not supersede an earlier one. `RateLoop.NewestWaits` states exactly when the newest one is
  left waiting, `RateLoop.ResumeLost` shows a lost one.
- The HTTP quota field is documented as reset with each new socket; it is not when a
  connection is lost to an error or a timeout. `HttpWorker.NewConnectionQuota` states exactly
  when a new connection has its full quota, for fixed and uniform quotas, `HttpWorker.LostConnectionShortensNext` shows a
  run where it does not.
- `record` puts a sample into the bucket that starts at its power of 1.5; the table above
  `quantile` and the export of the histogram take that power for the bucket's end.
  `Metrics.FirstPassExact` states exactly when the count under a bound is the number of samples
  up to it and `Metrics.ElevenCountedUnderTen` shows where it is not; `Metrics.FirstPassBrackets`
  and `Metrics.ExportedSumReadsLow` bound the error of the counts and of the sum.
- The export sums counts that are cumulative already. `Metrics.PrintedSeriesRight` states
  exactly when the printed series is nevertheless right, `Metrics.PrintedSeriesPassesTotal`
  exactly when it passes `+Inf`, and `Metrics.PrintedSeriesExceedsTotal` shows it above.
- The summary takes all timeouts off the requests, also those of requests never counted, so
  its unanswered figure hides broken requests. `HttpWorker.UnansweredExact` states exactly when
  it does not, `HttpWorker.BrokenHidden` shows a run where it does.
- A DPDK worker gives up all tokens it was offered as soon as one packet is sent
  (`DpdkWorker.Worker.Pass`). `TokenBucket.NothingWasted` states exactly when no token goes
  without a packet, `TokenBucket.FullBurstWastesRest` shows eight that do.

## Model

| member | source | states |
|---|---|---|
| `LineProfile.LineExact` | dwd-core/src/generator.rs:356-394 | in the documented range no i64 operation overflows and the value is the start plus or minus the truncated climb |
| `LineProfile.LineShape` | dwd-core/src/generator.rs:350-394 | a line starts at rps0, is monotone toward rps1 and stays between both |
| `LineProfile.LineEnd` | dwd-core/src/generator.rs:356-394 | for whole seconds the last value misses rps1 by exactly the rise modulo the seconds; it is hit if and only if that is 0 |
| `LineProfile.OneOverTwoSeconds` | dwd-core/src/generator.rs:356-394 | a line from 0 to 1 rps over 2 s ends at 0 |
| `Generators.CreateAll` | dwd-core/src/generator.rs:175-211 | the children are built, in order and one per configuration, if and only if each of them can be |
| `Generators.PollAllEach` | dwd-core/src/generator.rs:541-552 | a Sum polls each child exactly once and has no value exactly when no child has one |
| `Generators.PollOnward` | dwd-core/src/generator.rs:489-502 | a Seq reads its current child, or, when that has ended, what the next children started at this very instant read |
| `Profiles.ProfileDuration` | dwd-core/src/generator.rs:189-227 | the duration loops compute the sum over Seq and the maximum over Sum |
| `Profiles.CurrentAt` | dwd-core/src/generator.rs:381-394 | polling as the code runs it terminates on every tree and gives the specified reading and tree |
| `Profiles.CurrentSeq` | dwd-core/src/generator.rs:489-502 | the index-stepping recursion terminates (children left, then tree size) and equals the specified poll |
| `Profiles.CurrentSum` | dwd-core/src/generator.rs:541-552 | the accumulating loop equals the specified poll of all children |
| `Profiles.CreateRealizes` | dwd-core/src/generator.rs:174-211 | a created tree is a not yet started state of its configuration |
| `Profiles.ActivateRealizes` | dwd-core/src/generator.rs:467-472 | a started tree is still a state of its configuration |
| `ProfileMeaning.PollsMean` | dwd-core/src/generator.rs:356-552 | every poll of every created Const/Line/Sin/Seq/Sum tree returns exactly what the configuration and the poll times mean: closed forms at the leaves, the total over a Sum, and in a Seq each child started at the poll that found the one before it ended |
| `ProfileMeaning.LineReads` | dwd-core/src/generator.rs:381-394 | a poll of a line reads its closed form at the time since its start, up to the duration inclusive |
| `ProfileMeaning.LineRun` | dwd-core/src/generator.rs:350-394 | polls of a documented line begin at rps0, go monotonically toward rps1 and stay between |
| `ProfileMeaning.FirstEndedReads` | dwd-core/src/generator.rs:489-502 | from the poll that finds the first child ended on, a Seq reads as the Seq of the others started at that poll |
| `ProfileMeaning.SumReads` | dwd-core/src/generator.rs:541-552 | a Sum reads the total of what its children mean, modulo 2^64 |
| `Profiles.LineBuilt` | dwd-core/src/generator.rs:356-365 | a line can be built if and only if its nanoseconds are not a multiple of 2^64 |
| `Profiles.ConstReads` | dwd-core/src/generator.rs:356-394 | a constant reads its rate for every 64-bit rate and every duration |
| `Profiles.SumIsExact` | dwd-core/src/generator.rs:541-552 | a Sum reads exactly the total of its children while the peak fits 64 bits |
| `Profiles.SumIsTotal` | dwd-core/src/generator.rs:541-552 | a Sum reads the total of its children modulo 2^64, and has no value only with total 0 |
| `Profiles.PollBelowPeak` | dwd-core/src/generator.rs:381-552 | a poll keeps the tree a state of its configuration and never reads above the structural peak |
| `Profiles.RunBelowPeak` | dwd-core/src/generator.rs:381-552 | the same for every poll of every run |
| `Profiles.ExhaustionIsPermanent` | dwd-core/src/generator.rs:459-552 | once a poll returns none, every later poll does |
| `Profiles.ProfileLength` | dwd-core/src/generator.rs:189-552 | none is never read before the duration; with poll gaps up to d a value is never read later than duration plus d per leaf of the longest Seq chain |
| `Profiles.FirstExhaustedPoll` | dwd-core/src/generator.rs:489-552 | the first none falls between duration and duration plus d per leaf plus d after activation |
| `Profiles.ProfileEnds` | dwd-core/src/generator.rs:489-552 | polled past that window every profile has ended |
| `ProfileTiming.FirstPoll` | dwd-core/src/generator.rs:459-552 | what the first poll of a started tree leaves: a settled tree whose end is bounded from both sides |
| `ProfileTiming.NextPoll` | dwd-core/src/generator.rs:459-552 | what every later poll keeps: settled, earliest end not earlier, latest end not later |
| `ProfileTiming.HorizonSeparates` | dwd-core/src/generator.rs:381-552 | a settled tree has something left exactly up to its horizon |
| `Suspension.SuspendableGenerator.constructor` | dwd-core/src/generator.rs:271-278 | starts unsuspended, with no paused time and no manual value |
| `Suspension.SuspendableGenerator.Activate` | dwd-core/src/generator.rs:317-324 | starts the wrapped profile, nothing else changes |
| `Suspension.SuspendableGenerator.SuspendNow` | dwd-core/src/generator.rs:280-287 | no effect when paused already, else pauses now and forgets the manual value |
| `Suspension.SuspendableGenerator.ResumeNow` | dwd-core/src/generator.rs:289-294 | adds the pause to the paused time; no effect when not paused |
| `Suspension.SuspendableGenerator.SetValue` | dwd-core/src/generator.rs:296-309 | pauses or resumes, then stores the value |
| `Suspension.SuspendableGenerator.CurrentAt` | dwd-core/src/generator.rs:332-337 | manual value or 0 while paused, else the profile at now minus paused time |
| `Suspension.PausingErasesTime` | dwd-core/src/generator.rs:280-337 | for every history, unpaused polls return what the bare profile returns at the virtual times, which never go back; paused polls return the last value set, or 0, never none |
| `Suspension.TimeErasure` | dwd-core/src/generator.rs:258-337 | the wrapper's fields after any history in terms of that history alone |
| `Suspension.NoUnderflow` | dwd-core/src/generator.rs:335-335 | paused time never exceeds the time since activation, so the subtraction is safe |
| `Suspension.VirtualClockStep` | dwd-core/src/generator.rs:289-335 | the profile's clock runs at full speed unpaused and stands still paused |
| `Suspension.ProfilePollsClock` | dwd-core/src/generator.rs:332-337 | the virtual poll times are non-decreasing and not before activation |
| `Suspension.PausedProfileLength` | dwd-core/src/generator.rs:280-337 | none is read no earlier than duration plus paused time; a value, with the profile's own polls paced, no later than that plus the drift of an unpaused run |
| `Suspension.SuspendSilences` | dwd-core/src/generator.rs:280-287 | a poll after suspend reads 0 if and only if no value was in force by hand, or 0 was |
| `Suspension.SuspendAfterSet` | dwd-core/src/generator.rs:280-309 | set to 5 and suspended, the profile still reads 5 |
| `RateLoop.RateController.constructor` | dwd-core/src/engine.rs:246-248 | the profile is wrapped and activated; all limits are 0 |
| `RateLoop.RateController.StoreLimits` | dwd-core/src/engine.rs:262-272 | the limit cells get the round-robin shares of the target |
| `RateLoop.RateController.OneTurn` | dwd-core/src/engine.rs:250-274 | one turn: poll, stop check, at most one event, limits, mirror |
| `RateLoop.RateController.Deliver` | dwd-core/src/grpc/server.rs:83-86 | a non-blocking send into a one-slot channel |
| `RateLoop.RateController.Run` | dwd-core/src/engine.rs:239-282 | a whole run of the loop |
| `RateLoop.LimitsFollowMirror` | dwd-core/src/engine.rs:262-274 | after every turn, for any number of workers, the limits add up to the mirrored target and differ by at most 1, the first ones getting more |
| `RateLoop.StartFollowsMirror` | dwd-core/src/engine.rs:239-248 | the starting state has that property |
| `RateLoop.EventsInOrder` | dwd-core/src/engine.rs:254-260 | applied events are an order-preserving subsequence of those offered, each turn applies at most one, at most one waits and none after a turn that does not leave |
| `RateLoop.RunFlag` | dwd-core/src/engine.rs:250-281 | the run flag is down exactly when the loop has ended, for want of a value or by a stop |
| `LoopTargets.TurnTarget` | dwd-core/src/engine.rs:239-282 | every turn that does not leave stores the shares of exactly the target: the value set by hand or 0 while paused, else what the configuration means at the virtual poll times; a running loop leaves exactly when there is none |
| `LoopTargets.WrapperReadsTarget` | dwd-core/src/generator.rs:332-337 | a poll of the pausable profile reads that target |
| `RateLoop.NewestWaits` | dwd-core/src/grpc/server.rs:83-86 | the newest event is left waiting if and only if it equals the one that was there first |
| `RateLoop.ResumeLost` | dwd-core/src/grpc/server.rs:83-86 | a resume offered while a suspend waits is lost |
| `RateLoop.OfferFits` | dwd-core/src/grpc/server.rs:83-86 | a waiting event is never displaced; an empty channel takes the first of the events offered |
| `RateLoop.StoppedForGood` | dwd-core/src/engine.rs:250-281 | once the run flag is down it stays down and no later turn writes limits or applies events |
| `RateLoop.TargetsAllowed` | dwd-core/src/engine.rs:250-274 | whatever holds of 0, of all profile readings and of all values set by hand holds of every target |
| `RateLoop.TargetsConstant` | dwd-core/src/engine.rs:250-274 | under a constant profile v and no other value set by hand every target is v or 0 |
| `RateLoop.TargetsBounded` | dwd-core/src/engine.rs:250-274 | no target exceeds the profile's peak and the values set by hand |
| `RateLoop.MirrorsConstant` | dwd-core/src/engine.rs:250-274 | without control events a constant profile v is mirrored from the first turn until the loop ends |
| `RateLoop.LoopDrivesWrapper` | dwd-core/src/engine.rs:250-260 | the loop drives the pausable profile through exactly one history of timed operations |
| `RateLoop.LoopOpsClock` | dwd-core/src/engine.rs:250-260 | that history has a non-decreasing clock |
| `RateLoop.NoEarlyExit` | dwd-core/src/engine.rs:239-282 | unless stopped, the loop ends no earlier than duration plus all paused time after activation |
| `LoopTiming.NoLateExit` | dwd-core/src/engine.rs:239-282 | with turns at most d apart, an unpaused turn later than duration plus paused time plus 2d per leaf of the longest chain leaves the loop |
| `LoopTiming.LoopAttended` | dwd-core/src/engine.rs:250-278 | turns at most d apart make the profile's own polls at most 2d apart, across every pause |
| `LoopTiming.PausedStays` | dwd-core/src/engine.rs:250-281 | a paused loop ends only when it is stopped |
| `LoopTiming.PollsCanBeHidden` | dwd-core/src/generator.rs:280-337 | without the one-event-per-turn discipline, polls every nanosecond can all miss the profile for any length of time |
| `TokenBucket.Shaper.constructor` | dwd-core/src/shaper.rs:14-21 | an empty bucket at the current instant |
| `TokenBucket.Shaper.Tick` | dwd-core/src/shaper.rs:26-39 | refill, burst threshold, cap at one second's worth, whole tokens offered |
| `TokenBucket.Shaper.Consume` | dwd-core/src/shaper.rs:46-48 | takes the tokens out |
| `TokenBucket.RefillBounds` | dwd-core/src/shaper.rs:26-39 | the offer is the whole part of the bucket, which never exceeds the limit nor what was minted |
| `TokenBucket.RefillOutcome` | dwd-core/src/shaper.rs:26-39 | for every burst size: below it all is kept and nothing offered; otherwise exactly the surplus over one second's worth is lost, and an overflow leaves and offers exactly the limit |
| `TokenBucket.DropsSurplus` | dwd-core/src/shaper.rs:30-38 | a turn adds exactly max(0, tokens + minted - limit) to the dropped tokens |
| `TokenBucket.LateTurn` | dwd-core/src/engine/udp/engine.rs:147-162 | an uncapped worker that wakes a second late or more executes exactly its limit |
| `TokenBucket.CoroutineTurn` | dwd-core/src/engine/coro.rs:36-47 | a turn offered n tokens executes exactly min(n, 32) and leaves the rest |
| `TokenBucket.WorthIsProduct` | dwd-core/src/shaper.rs:31-31 | the tokens minted are limit times seconds |
| `TokenBucket.TokensConserved` | dwd-core/src/shaper.rs:26-48 | tokens never go negative; minted equals executed plus given up plus dropped plus remaining |
| `TokenBucket.NothingWasted` | dwd-core/src/worker/dpdk.rs:586-614 | no token is consumed without a task if and only if every DPDK pass sent nothing or a packet for each token offered |
| `TokenBucket.SocketsUseAll` | dwd-core/src/engine/coro.rs:34-49 | the UDP and coroutine loops always meet that condition |
| `TokenBucket.FullBurstWastesRest` | dwd-core/src/worker/dpdk.rs:588-613 | 40 tokens offered, 32 packets sent, 8 tokens gone |
| `TokenBucket.UncappedIsExact` | dwd-core/src/engine/udp/engine.rs:147-162 | the UDP loop has executed exactly the whole part of the tokens not dropped |
| `TokenBucket.NothingDropped` | dwd-core/src/shaper.rs:30-38 | tokens are dropped if and only if some refill exceeds one second's worth |
| `TokenBucket.SteadyIsExact` | dwd-core/src/shaper.rs:26-48 | a constant limit L and ticks at most d apart, L*d + 1 <= L: the uncapped loop has executed exactly floor(L * elapsed) |
| `CoroLoop.ShapedCoroWorker.constructor` | dwd-core/src/engine/coro.rs:25-27 | a new task and an empty bucket with burst size 0 |
| `CoroLoop.ShapedCoroWorker.Turn` | dwd-core/src/engine/coro.rs:36-47 | one turn executes and consumes at most 32 of the offered tokens |
| `CoroLoop.ShapedCoroWorker.Run` | dwd-core/src/engine/coro.rs:34-49 | a whole run executes what the token books release, and each of those ends as a response, a timeout or a socket error |
| `Pipeline.ConstantRate` | dwd-core/src/engine.rs:262-272 | constant target v (or 0): all workers together, whenever each of them starts, execute at most v*T tasks in the first T seconds, over every schedule |
| `Pipeline.WindowRate` | dwd-core/src/shaper.rs:26-48 | constant target v: at most v*(T+1) tasks in any window of length T of any run |
| `Pipeline.BoundedRate` | dwd-core/src/engine.rs:262-272 | targets up to V and n workers: at most (V+n-1)*T tasks in the first T seconds |
| `Pipeline.EndToEnd` | dwd-core/src/engine.rs:239-282 | the same from a configured profile with peak up to V, any control traffic with values up to V and any worker schedule |
| `Pipeline.ConstantEndToEnd` | dwd-core/src/engine.rs:239-282 | from a constant profile v, any pauses and no other value set by hand: at most v*T tasks in the first T seconds |
| `Pipeline.ConstantWindow` | dwd-core/src/engine.rs:239-282 | likewise at most v*(T+1) in any window of length T |
| `ExecutionTimes.WindowByExecution` | dwd-core/src/engine/udp/engine.rs:147-162 | constant target v: at most v*(T+2) tasks run in any window of length T, each counted at any instant between its tick and its worker's next one |
| `ExecutionTimes.WorkerRunsInWindow` | dwd-core/src/engine/coro.rs:34-49 | the same for one worker with limits up to L |
| `ExecutionTimes.WorkersKeepBooks` | dwd-core/src/shaper.rs:26-48 | in every interleaving each worker keeps exactly the token books of its own turns |
| `Delivery.ConstantDelivered` | dwd-core/src/engine.rs:239-282 | from a constant profile v left alone, n uncapped workers with close enough ticks execute at least v*T - n tasks in a window of length T |
| `Delivery.DeliveredRate` | dwd-core/src/engine/udp/engine.rs:147-162 | the same from any state with stored limits and drained buckets, while the target is v |
| `Delivery.WarmUp` | dwd-core/src/engine/udp/engine.rs:147-162 | uncapped runs leave less than a token per worker, and its share in every cell once stored |
| `Pipeline.ExecutedFromStart` | dwd-core/src/engine/coro.rs:34-49 | per-worker limits bound the tasks of all workers together |
| `Pipeline.ExecutedInWindow` | dwd-core/src/engine/udp/engine.rs:147-162 | the same for a window that opens in any reachable state |
| `Pipeline.ShareCeiling` | dwd-core/src/engine.rs:262-272 | no worker's share of a target up to V exceeds V/n rounded up |
| `TxRing.ReferencesNeverRunOut` | dwd-core/src/worker/dpdk.rs:580-608 | after every pass of every run each mbuf has a reference for every copy in flight, at least 1, and never more than 17408 |
| `TxRing.ReferencesInsideCall` | dwd-core/src/worker/dpdk.rs:580-600 | the same between any two completions inside a transmit call |
| `TxRing.RearmedOnTime` | dwd-core/src/worker/dpdk.rs:580-584 | the latest re-arming was at a multiple of mbufs*16384 packets, never more than one such span ago, so none is skipped; since then each count is 17408 less the completions of its mbuf |
| `TxRing.PassSends` | dwd-core/src/worker/dpdk.rs:586-608 | a pass sends exactly the least of what the driver takes, 32, the rest of the ring, the tokens and the room in the queue |
| `TxRing.BurstsArePasses` | dwd-core/src/stat/percpu.rs:302-308 | burst cell k-1 counts the passes that sent k packets, all cells together those that sent any |
| `TxRing.FullShareMatchesRun` | dwd-core/src/summary.rs:371-386 | the reported share of full bursts is that of the passes that sent 32 |
| `TxRing.BurstStopsAtWrap` | dwd-core/src/worker/dpdk.rs:588-591 | a burst that stays inside the ring cannot jump over a multiple of its size |
| `TxRing.StepKeepsArmed` | dwd-core/src/worker/dpdk.rs:580-614 | one pass keeps the books of references exact since the latest re-arming |
| `TxRing.StatisticsAgree` | dwd-core/src/worker/dpdk.rs:588-613 | after P packets: sends per mbuf, bytes in closed form, requests, and the size-weighted burst histogram, all equal to what P says |
| `TxRing.BurstStatsExact` | dwd-core/src/summary.rs:371-386 | average burst size times bursts is the number of packets; no report exactly when there are none |
| `TxRing.BurstReportMatchesRun` | dwd-core/src/stat/percpu.rs:302-308 | the summary's burst figures account for every packet sent in a run |
| `DpdkWorker.Worker.constructor` | dwd-core/src/worker/dpdk.rs:552-566 | a loaded ring, nothing sent |
| `DpdkWorker.Worker.RearmMbufs` | dwd-core/src/worker/dpdk.rs:580-584 | the in-place reset of the counts |
| `DpdkWorker.Worker.SizeOf` | dwd-core/src/worker/dpdk.rs:603-606 | the bytes of the accepted packets |
| `DpdkWorker.Worker.Enqueue` | dwd-core/src/worker/dpdk.rs:602-611 | cursor and counters after an accepted burst |
| `DpdkWorker.Worker.Pass` | dwd-core/src/worker/dpdk.rs:580-615 | one pass is one protocol step; all offered tokens go when anything was sent, none otherwise |
| `DpdkWorker.Worker.Run` | dwd-core/src/worker/dpdk.rs:568-617 | the loop is a run of the protocol, each pass gets the tokens its turn was offered, and the packets by which the wire grows are what the token books account for |
| `LatencyHistogram.BucketRange` | dwd-core/src/histogram.rs:24-29 | a bucket holds the samples from its power of 1.5 up to the next; the first starts at 0, the last is open |
| `LatencyHistogram.BucketMonotone` | dwd-core/src/histogram.rs:24-29 | larger samples never go to lower buckets |
| `LatencyHistogram.MinuteNeeds45` | dwd-core/src/histogram.rs:33-47 | 1.5^44 us < 60 s <= 1.5^45 us |
| `LatencyHistogram.PerCpuLogHistogram.constructor` | dwd-core/src/histogram.rs:33-47 | the loop builds exactly 45 empty buckets |
| `LatencyHistogram.PerCpuLogHistogram.Record` | dwd-core/src/histogram.rs:24-29 | the buckets stay the counts of all samples recorded |
| `LatencyHistogram.Merge` | dwd-core/src/stat/percpu.rs:98-111 | the resizing loops add rows of any lengths cell by cell |
| `LatencyHistogram.MergedIsCombined` | dwd-core/src/stat/percpu.rs:98-111 | merging per-CPU histograms gives the histogram of all samples |
| `LatencyHistogram.QuantileLoop` | dwd-core/src/histogram.rs:133-155 | the two loops compute the specified position for every q in [0, 1] and every snapshot |
| `LatencyHistogram.QuantileDefined` | dwd-core/src/histogram.rs:136-154 | for samples and q in (0, 1] a bucket that is not empty is selected and the pseudo-index lies in (idx, idx+1] |
| `LatencyHistogram.QuantileOutcome` | dwd-core/src/histogram.rs:136-154 | the marker appears if and only if there are no buckets; 0/0 if and only if the first bucket is empty and q or the total is 0 |
| `LatencyHistogram.QuantileMonotone` | dwd-core/src/histogram.rs:136-154 | higher quantiles are read at higher positions, also across bucket borders |
| `LatencyHistogram.QuantileLinear` | dwd-core/src/histogram.rs:141-149 | the position is as far into the selected bucket as q*n is into its samples |
| `LatencyHistogram.RankInBucket` | dwd-core/src/histogram.rs:133-155 | where the running count reaches q*n is the bucket of the sample of that rank |
| `LatencyHistogram.QuantileHitsRank` | dwd-core/src/histogram.rs:133-155 | for samples on any number of CPUs, the selected bucket is that of the ceil(q*n)-th smallest sample |
| `LatencyHistogram.QuantileWithinFactor` | dwd-core/src/histogram.rs:133-155 | the estimate is within a factor 1.5 of that sample: from above for samples of at least 1 us, from below unless clamped |
| `LatencyHistogram.PolygonIsPowf` | dwd-core/src/histogram.rs:147-149 | a strictly increasing function through the powers of 1.5, as assumed of `powf`, exists |
| `Metrics.EncodeHistogram` | dwd-core/src/api/metrics.rs:264-325 | the two passes: bucket counts, their running sums, total count and midpoint sum |
| `Metrics.AddToBuckets` | dwd-core/src/api/metrics.rs:293-298 | a count is added to exactly the buckets whose bound is large enough |
| `Metrics.SumOnceMore` | dwd-core/src/api/metrics.rs:309-319 | the printed series is the prefix sum of the bucket counts |
| `Metrics.BucketCountsCumulative` | dwd-core/src/api/metrics.rs:268-299 | bucket counts are non-decreasing and at most the total |
| `Metrics.FirstPassBrackets` | dwd-core/src/api/metrics.rs:268-299 | a bucket count is at least the samples within its bound and at most those below 1.5 times the bound |
| `Metrics.FirstPassExact` | dwd-core/src/api/metrics.rs:268-299 | a bucket count is the number of samples within its bound if and only if no sample lies above the bound in the log bucket the bound falls into; never less |
| `Metrics.SomeBucketHolds` | dwd-core/src/api/metrics.rs:282-298 | every bound from 1 us on falls into a log bucket |
| `Metrics.ElevenCountedUnderTen` | dwd-core/src/api/metrics.rs:282-298 | an 11 us sample is counted under le = 10 us |
| `Metrics.UpperIsLowerEdge` | dwd-core/src/api/metrics.rs:282-283 | no sample of a log bucket lies below the bound taken for its upper one |
| `Metrics.ExportedSumExact` | dwd-core/src/api/metrics.rs:282-288 | the exported sum is exactly 5/6 of the power of 1.5 below each sample, and 1/2 us for each sample in the first bucket |
| `Metrics.ExportedSumBounds` | dwd-core/src/api/metrics.rs:282-288 | for all samples the exported sum is at least half of them, clamped ones taken as the end of the last bucket, and at most 5/6, plus half a microsecond per sample of 0 |
| `Metrics.ExportedSumReadsLow` | dwd-core/src/api/metrics.rs:282-288 | for samples from 1 us to the end of the last bucket the exported sum is between 1/2 and 5/6 of the true one, so right only without samples |
| `Metrics.PrintedSeriesRight` | dwd-core/src/api/metrics.rs:309-319 | the printed series equals the bucket counts if and only if no counted log bucket fits under the last bound but one |
| `Metrics.PrintedSeriesPassesTotal` | dwd-core/src/api/metrics.rs:309-320 | the printed series passes the total if and only if the repetitions of samples over the bounds outnumber the samples beyond every bound |
| `Metrics.LastPrinted` | dwd-core/src/api/metrics.rs:309-319 | the last printed count is the total less the samples beyond every bound plus those repetitions |
| `Metrics.PrintedSeriesExceedsTotal` | dwd-core/src/api/metrics.rs:309-320 | one sample of 2 us is printed as 20 under the last bound, above the total of 1 |
| `Counters.ReadsBetweenTotals` | dwd-core/src/stat/percpu.rs:69-79 | for every interleaving a scan, started at any time, reads between the true totals at its first and at its last read |
| `Counters.ScansNeverDecrease` | dwd-core/src/stat/percpu.rs:69-79 | later scans by one reader never read less |
| `Counters.CellsHoldBumps` | dwd-core/src/stat/percpu.rs:219-232 | every counter is the sum of its worker's increments, none lost or doubled |
| `Counters.StepBracketed` | dwd-core/src/stat/percpu.rs:219-232 | during a scan every increment and every read keeps the running sum between the two partial totals |
| `Producers.VecProduce.Next` | dwd-core/src/lib.rs:76-87 | the next item in cyclic order, by a wrapping counter |
| `Producers.DealtEvenly` | dwd-core/src/lib.rs:80-86 | up to 2^64 calls each item has been handed out floor or ceil of calls/items times, which one depends on its position |
| `Producers.CycleSurvivesWrap` | dwd-core/src/lib.rs:82-83 | the cycle stays unbroken forever if and only if the item count divides 2^64 |
| `Producers.Spread` | dwd-core/src/engine/http/engine.rs:56-61 | the dealing loop gives every thread its round-robin share |
| `Producers.SpreadEven` | dwd-core/src/engine/http/engine.rs:56-61 | no job is lost, threads differ by at most one, all have work exactly when jobs >= threads |
| `RoundRobin.SharesTotal` | dwd-core/src/engine.rs:262-272 | shares by division and remainder add up to the whole |
| `RoundRobin.SharesEven` | dwd-core/src/engine.rs:262-272 | shares differ by at most one, earlier ones are not smaller |
| `RoundRobin.OccurrencesAreShares` | dwd-core/src/worker/dpdk.rs:594-608 | in ring order each place has had its share of any number of sends |
| `HttpWorker.CoroWorker.constructor` | dwd-core/src/engine/http/engine.rs:200-227 | no connection, a first quota drawn |
| `HttpWorker.CoroWorker.CurrSock` | dwd-core/src/engine/http/engine.rs:286-345 | the open connection is taken, or a new one counted and made, or neither |
| `HttpWorker.CoroWorker.ExecuteOnce` | dwd-core/src/engine/http/engine.rs:236-283 | one execute, errors and cancellation at every await included, with its latency recorded |
| `HttpWorker.CoroWorker.OnResponse` | dwd-core/src/stat/percpu.rs:239-253 | counters of one response by status class, and its latency in the histogram |
| `HttpWorker.CoroWorker.OnTimeout` | dwd-core/src/stat/percpu.rs:249-253 | one timeout more, and its latency in the histogram |
| `HttpWorker.ExecuteKeepsQuota` | dwd-core/src/engine/http/engine.rs:273-282 | a kept connection has quota left, and what it did plus what is left fits the quota |
| `HttpWorker.ConnectionQuota` | dwd-core/src/engine/http/engine.rs:147-293 | over every outcome sequence a connection completes at most max(1, N+deviation) responses |
| `HttpWorker.ExecuteBalances` | dwd-core/src/engine/http/engine.rs:236-283 | each execute adds exactly one to responses, timeouts or socket errors |
| `HttpWorker.ExecutesBalance` | dwd-core/src/engine/http/engine.rs:236-307 | over every run the three add up to the executes, responses plus timeouts latencies are recorded, responses <= requests <= executes |
| `HttpWorker.CountersByMoves` | dwd-core/src/engine/http/engine.rs:236-345 | requests, responses, timeouts, socket errors and created sockets are exactly the numbers of moves of their kind |
| `HttpWorker.CodesByMoves` | dwd-core/src/engine/http/engine.rs:264-271 | each status class is the number of completed responses with such a code; the recorded latencies are exactly those of responses and timeouts, in order |
| `HttpWorker.UnansweredExact` | dwd-core/src/summary.rs:196-197 | the unanswered figure is max(0, broken - early timeouts), so right if and only if there are none of the one or none of the other |
| `HttpWorker.BrokenHidden` | dwd-core/src/summary.rs:196-197 | a run with one broken request and an unanswered figure of 0 |
| `HttpWorker.DrawRange` | dwd-core/src/engine/http/engine.rs:147-166 | a uniform quota draws exactly the values from N-deviation to N+deviation within the word, a fixed one N |
| `HttpWorker.HistogramHoldsAnswers` | dwd-core/src/stat/percpu.rs:98-111 | the merged bucket rows of any number of workers add up to all responses plus all timeouts |
| `HttpWorker.UnansweredBySocketErrors` | dwd-core/src/summary.rs:196-197 | over drained runs of any number of workers the summary's unanswered count is at most the socket errors |
| `HttpWorker.LeftOfLease` | dwd-core/src/engine/http/engine.rs:147-283 | for every quota what is left is the value drawn last less the responses since that draw, whatever connections were lost |
| `HttpWorker.NewConnectionQuota` | dwd-core/src/engine/http/engine.rs:182-185 | for every quota, fixed or uniform, a connection starts with the full value drawn if and only if no response was completed since the draw |
| `HttpWorker.FixedQuotaCountsResponses` | dwd-core/src/engine/http/engine.rs:273-282 | with a fixed quota N what is left is N minus responses modulo N, full exactly at multiples of N |
| `HttpWorker.LostConnectionShortensNext` | dwd-core/src/engine/http/engine.rs:254-282 | an input where a lost connection shortens the next one |
| `UdpWorker.Worker.constructor` | dwd-core/src/engine/udp/engine.rs:117-139 | no socket, an empty bucket with burst size 0 |
| `UdpWorker.Worker.ExecuteOnce` | dwd-core/src/engine/udp/engine.rs:168-221 | one request over the current or a new socket |
| `UdpWorker.Worker.Turn` | dwd-core/src/engine/udp/engine.rs:149-158 | one turn executes and consumes all offered tokens |
| `UdpWorker.Worker.RunLoop` | dwd-core/src/engine/udp/engine.rs:147-162 | a whole run executes what the token books release, one network answer each |
| `UdpWorker.SocketQuota` | dwd-core/src/engine/udp/engine.rs:168-221 | every socket carries at most max(1, N) requests; requests add up over sockets; every execute is a request or a socket error |
| `UdpWorker.CountersByOutcome` | dwd-core/src/engine/udp/engine.rs:168-221 | requests are exactly the sends that succeeded, errors the failed connects and sends, sockets the connects that succeeded |
| `UdpWorker.SocketsCreated` | dwd-core/src/engine/udp/engine.rs:168-221 | without errors exactly ceil(requests / max(1, N)) sockets are created |

## Left out

- f64 rounding: tokens, seconds, powers of 1.5 and quantile positions are exact reals, the histogram index is the exact floor of the logarithm, and `powf` is any strictly increasing function that agrees with the powers at whole exponents; the final truncation of a quantile to whole microseconds is not modelled.
- `SinGenerator` and its phase search: the sine is an abstract leaf with a duration, a ceiling and an arbitrary wave.
- Heap identity of generator nodes: every node has one owner, so a tree is a value and polling returns the new tree; the loops over children are methods on that value.
- `Profiles.RunBelowPeak`: outside the documented range of a sloped line (63-bit rates, 10^9 apart at most, positive 63-bit duration) wrapped values are only bounded by the word size.
- `activate()` and `current()` reading the clock once per leaf: activation and polling use one instant for the whole tree, as `activate_at` and `current_at` do; the suspension wrapper is the only entry point of the rate loop and polls through `current_at`.
- The wasm32 arithmetic, `reduce`, YAML loading and `dyn` dispatch of `dwd-core/src/generator.rs`.
- `Pipeline.WindowRate`: counts a batch at the tick that released it, as do `Pipeline.ConstantWindow` and `Pipeline.ExecutedInWindow`; `ExecutionTimes.WindowByExecution` is the bound by the instants at which tasks run.
- `Delivery.ConstantDelivered`: about loops that execute all they are offered; how long a coroutine waits for its requests, and so how far 32 tasks per turn carry, is up to the network.
- `Suspension.PausedProfileLength`: its upper bound takes the pacing of the profile's own polls as given, since poll gaps alone do not imply it (`LoopTiming.PollsCanBeHidden`); for the rate loop `LoopTiming.NoLateExit` derives it.
- `Pipeline.EndToEnd`: stores of limits are any order of shares of targets the loop mirrored; the 10 ms pause between turns is not used.
- Overflow of 64-bit statistics counters and of the packet cursor, and the 64-bit range of token counts.
- Memory order and torn reads: a read or write of a counter or limit cell is one atomic step.
- The network card: the driver completes oldest packets first, only those given by earlier calls, one reference each, with at most 1024 in flight; received packets are discarded and not modelled.
- Byte counters and TCP retransmit statistics of the socket workers, and what requests contain.
- The raw HTTP/1 and HTTP/3 workers, TLS and QUIC: variants of the quota machine above with other transports.
- gRPC, TUI, Prometheus registry, text formatting, the once-a-second sampler and the remaining summary lines: display.
- EAL, port and queue setup, shutdown, neighbour lookup, pcap parsing: foreign calls.
- `dwd-backend`, command line, configuration files, packaging.
