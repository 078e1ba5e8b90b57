# Burn-in integrity model

The burn-in harness of the KubeMQ Kafka connector judges a broker by what its own counters say: which
sequences arrived, which were lost, what the transactions delivered, how fast and how late. This project
models the code behind those judgements and proves what the judgements mean.

| file | models |
|---|---|
| `Helpers.dfy` | what the other modules share: options, integer limits, sizes of sets, sums over maps |
| `Bitset.dfy`, `ProducerStates.dfy`, `Trackers.dfy` | the sequence tracker as it is written: 64-bit words shifted in place, one state object per producer, one map of producers |
| `SequenceTracking.dfy`, `TrackingLaws.dfy`, `DuplicateAnswers.dfy`, `TrackerRuns.dfy` | the same tracker on values, and the laws of its runs |
| `Murmur2.dfy` | the murmur2 hash and partitioner of the Go example, with known hashes of four keys (`ReferenceHashAbc`, `ReferenceHashFoobar`, `ReferenceHashTesttest`, `ReferenceHashPartition`) |
| `Verdicts.dfy`, `VerdictGates.dfy`, `VerdictPrograms.dfy` | the engine's verdict, the report's verdict and the reconciler; what each gate, check and field means, as inequalities |
| `Headers.dfy` | the record headers and the deduplication key |
| `Eos.dfy`, `EosWorkers.dfy` | the exactly-once worker against an abstract read-committed broker |
| `RateWindows.dfy` | the ring buffers behind the rates |
| `Lifecycle.dfy` | start, stop and the run loop with its finalizer |
| `MaxRegister.dfy` | the compare-and-swap maximum with its reset, and the gauge that the channels of a worker share |
| `SizeDistributions.dfy` | the weighted choice of a message size |
| `GroupLoss.dfy` | the attribution of losses to rebalances, call by call and with overlapping calls |

The tracker objects carry a ghost history of calls. Their methods say that the new state is the value-level
step of the old one, so every law about runs of values is a law about the objects. Each producer's window of
words is tied to a set of sequences: `SequenceTracking` keeps the sequences themselves where the code keeps
their offsets, which makes moving the watermark the same as dropping what it passed.

## What turned out false of the code

Each of these has a lemma that says exactly when it holds.

- A received sequence can be counted as lost. The arrival that makes the window slide is never marked, since
  its offset after the slide is exactly the window size and both places that would mark it are out of reach.
  `ReceivedIsSafeIff`: a received sequence is safe from every continuation exactly when it arrives at or below
  the watermark, inside the window, or so close to 2^64 that no later arrival can evict it.
- The pending losses are not all the missing sequences: a jump of more than twice the window plus one skips
  some without a trace. `SkipsNothingIff` and `NothingSkippedIff` give the exact distance.
- A duplicate answer can be wrong both ways (`AnswerIsWrongIff`): a new sequence is called a duplicate exactly
  when it lies below the first arrival or was skipped, and a repeated one is not exactly when all its arrivals
  triggered slides and it was not skipped since. So the duplicate count of a run is the number of repeats exactly
  when it has as many false duplicates as missed repeats (`DuplicateCountIsRightIff`). A run that starts at its
  least can miss repeats (`RepeatedTriggerIsMissed`), and errors can cancel (`WrongAnswersCanCancel`); inside the
  window no repeat is missed, and the count is right exactly when the first arrival is the least
  (`DuplicateCountIsExactIff`).
- The reconciled verdict is the engine's for every run exactly when the p99 threshold is positive and the
  memory threshold is at least 1 (`ReconciledIsEngineIff`); validation guarantees both.
- A run's done channel can be closed twice: a start accepted between the report of an error and the
  finalizer's lock hands the new channel to the old run. `ClosedTwiceIff` shows that this can happen exactly after
  such a start, and `RunClosesTwiceIff` that it has happened, once all loops are finished, in exactly the runs with
  one. In the program the second close panics; the model goes on.
- The lag gauge does not always mirror the register: the reset after the warm-up clears the register alone.
  `GaugeMirrorsIff`: with one channel, at every quiet moment, the gauge shows the register exactly when nothing
  was ever raised or something was after the last reset. Several channels set one gauge, each to its own value,
  so it shows the largest register at all quiet moments of all runs exactly when there is one channel and no
  reset (`GaugeMirrorsAlwaysIff`). A new run in the same process starts its registers at 0 and keeps the gauge,
  as a reset does.
- A weight can be negative, and then the choice of sizes is not the weighted one (`SelectionIsExactIff`). The
  message for a bad total says that it must be above 0, but the code only refuses a total of 0; with a negative
  one there is no draw, and drawing panics (`SelectionExistsIff`).
- The rebalance-loss counter is not the loss since the warm-up. It falls short by what was attributed before,
  because the reset clears the counter and not the attributed total (`CountsLossSinceResetIff`); and it can count
  a loss twice, because the churner and the stop of the producers reconcile without a lock
  (`OverlapCountsTwice`). `CountsOnceIff` has both, for every interleaving with resets: the counter is never below
  what exceeds the earlier losses, and equal to it exactly when no addition since the reset was stale, that is,
  based on less than had been added. `StaleIffOverlap`: stale additions come exactly from overlapping calls.
- Relaxing thresholds can fail a run that passed, exactly when it raises a latency threshold from 0 or less
  above 0, which switches its gate on (`RelaxingIsSafeIff`); validation rules that out.

## Reading the model

- Sequences are unsigned 64-bit integers, and the tracker's laws hold for all of them; the watermark's
  wrap-around before a first arrival of 0 is modelled. The verdict's counters are unsigned 64-bit integers too,
  with the wrap-around of their sums and the signed reading that the count gates use. Other counters are
  unbounded.
- Percentages, rates, latencies and durations are real numbers.
- What the exactly-once worker counts as sent is a multiple of 4 when no count is under way: the code adds the 4
  records one by one, and a reader in between sees fewer. The reset waits for the producers.
- A method that holds a mutex is one step. Maps are visited in any order.
- The reorder window is any positive number of sequences; validation asks for at least 100.
- The keys of the report's checks are pairs of a kind and a worker name instead of joined strings.
- The warnings of the verdicts are structured values instead of formatted text.

## Model

| member | source | states |
|---|---|---|
| Bitset.SetBit | burnin/tracker/tracker.go:229-234 | Setting a bit changes that bit of the multi-word set and no other, and nothing when the position is outside. |
| Bitset.GetBit | burnin/tracker/tracker.go:236-241 | The test answers whether the position is inside and its bit is set. |
| Bitset.ShiftLeft | burnin/tracker/tracker.go:243-250 | The in-place word loop moves every bit one position down across word boundaries and clears the top bit. |
| Bitset.SetOneBit | burnin/tracker/tracker.go:233-233 | Or-ing one mask into a word sets one bit and keeps the other 63. |
| Bitset.ShiftOneBit | burnin/tracker/tracker.go:245-248 | Bit j of a shifted word is bit j + 1 of the word, and the top bit is the lowest bit of the next word. |
| ProducerStates.ShiftRepresents | burnin/tracker/tracker.go:179-184 | Shifting the words down by one represents the same sequences seen from a watermark one higher. |
| ProducerStates.ProducerState.RecordFirst | burnin/tracker/tracker.go:53-65 | The first arrival becomes the watermark, also when the watermark below it wrapped around. |
| ProducerStates.ProducerState.AdvanceContiguous | burnin/tracker/tracker.go:179-184 | The loop ends at the end of the gap-free run above the watermark and the words still represent what is beyond it. |
| ProducerStates.ProducerState.SlideWindow | burnin/tracker/tracker.go:186-227 | The slide turns evicted unmarked sequences into pending losses and moves the watermark; neither place that marks the trigger is reachable. |
| ProducerStates.ProducerState.RecordNext | burnin/tracker/tracker.go:67-102 | A later arrival takes the state to that of the value-level step, with the same answers, and leaves the last report alone. |
| Trackers.Tracker.Record | burnin/tracker/tracker.go:49-103 | An arrival is answered as the producer's own history decides, and no other producer's state changes. |
| Trackers.Tracker.DetectGaps | burnin/tracker/tracker.go:107-123 | There is a delta for exactly the producers with more pending losses than they last reported, it is the difference, and every last report becomes the number of pending losses. |
| Trackers.Tracker.Reset | burnin/tracker/tracker.go:126-130 | A reset forgets all producers and the history. |
| Trackers.Tracker.SumOf | burnin/tracker/tracker.go:149-177 | Whatever the order of the map: the total received is the number of arrivals, the duplicates those answered as duplicates, the lost the sizes of the pending sets, the out of order the descents in each producer's arrivals. |
| Trackers.Tracker.WindowRefinement | burnin/tracker/tracker.go:49-103 | After any calls, bit i of a producer's words is set exactly when the sequence i past the next expected one was ever marked; bit 0 and the bits from the window size on are clear. |
| SequenceTracking.WatermarkEndsTheRun | burnin/tracker/tracker.go:179-184 | The advance stops at the first sequence that is not ahead and passes only sequences that are. |
| SequenceTracking.RunIsConsistent | burnin/tracker/tracker.go:49-103 | After every run the window is the marked sequences above the watermark, and every sequence from the first arrival to the watermark is marked, pending, recovered or skipped and only one of these. |
| TrackingLaws.DuplicateMeaning | burnin/tracker/tracker.go:75-98 | An arrival is a duplicate exactly when its sequence is below the first arrival or was marked, recovered or skipped; it recovers a loss exactly when it is pending. |
| TrackingLaws.PendingMeaning | burnin/tracker/tracker.go:80-83 | The pending losses are the sequences up to the watermark that are not marked, recovered or skipped, and the confirmed loss counts them. |
| TrackingLaws.PendingIsEvictedNotRecovered | burnin/tracker/tracker.go:201-215 | The pending losses are the evicted sequences not redelivered since, and no marked sequence is ever evicted. |
| TrackingLaws.SkipsNothingIff | burnin/tracker/tracker.go:196-199 | A slide skips nothing exactly when the arrival is at most 2w + 1 above the watermark. |
| TrackingLaws.NothingSkippedIff | burnin/tracker/tracker.go:196-220 | A run skips nothing exactly when none of its arrivals jumps further than that. |
| TrackingLaws.SlideTriggerIsForgotten | burnin/tracker/tracker.go:187-193 | The arrival that triggers a slide is neither marked nor pending and stays above the watermark; at offset exactly w nothing moves. |
| TrackingLaws.EveryArrivalIsSeen | burnin/tracker/tracker.go:67-73 | After every run the received count is the number of arrivals and the out-of-order count the number of positions that fall below the one before, so it alone depends on the order. |
| TrackingLaws.ArrivalsAreConserved | burnin/tracker/tracker.go:60-102 | Received is marked plus recovered plus duplicates plus slide triggers, with no sequence marked or recovered twice. |
| TrackingLaws.WatermarkIsConserved | burnin/tracker/tracker.go:196-220 | The distance from the first arrival to the watermark is marked plus lost plus recovered plus skipped. |
| TrackingLaws.SettledStaysSettled | burnin/tracker/tracker.go:75-87 | A sequence once marked, recovered or skipped is pending in no continuation. |
| TrackingLaws.SlideTriggerCanBeLost | burnin/tracker/tracker.go:186-227 | For every run whose last arrival triggered a slide there are two further arrivals after which that received sequence is pending as lost. |
| TrackingLaws.ReceivedIsSafeIff | burnin/tracker/tracker.go:75-102 | A received sequence is counted lost in no continuation exactly when it arrived at or below the watermark or inside the window, or lies within w + 1 of 2^64. |
| TrackingLaws.WindowLosesNothing | burnin/tracker/tracker.go:89-102 | A run that stays inside the window loses, recovers and skips nothing. |
| TrackingLaws.WindowMarksArrivals | burnin/tracker/tracker.go:95-102 | In such a run an arrival is a duplicate exactly when its sequence came before or is below the first arrival. |
| TrackingLaws.WindowIsExact | burnin/tracker/tracker.go:179-184 | In such a run the watermark ends the longest gap-free run from the first arrival and the window holds exactly the received sequences above it. |
| DuplicateAnswers.AnswerIsWrongIff | burnin/tracker/tracker.go:75-102 | A duplicate answer is wrong exactly for a new sequence below the first arrival or skipped, and for a repeated one whose arrivals all triggered slides and that was not skipped since. |
| DuplicateAnswers.DuplicatesAddUp | burnin/tracker/tracker.go:67-102 | After every run, received plus false duplicates is distinct plus duplicates plus missed repeats. |
| DuplicateAnswers.DuplicateCountIsRightIff | burnin/tracker/tracker.go:67-102 | After every run, received is distinct plus duplicates exactly when there are as many false duplicates as missed repeats. |
| DuplicateAnswers.RepeatedTriggerIsMissed | burnin/tracker/tracker.go:89-93 | For every window and start, the edge of the window arriving twice is no duplicate, though the run starts at its least. |
| DuplicateAnswers.WrongAnswersCanCancel | burnin/tracker/tracker.go:75-93 | A run that does not start at its least can have a right count, by one error of each kind. |
| DuplicateAnswers.DuplicateCountIsExactIff | burnin/tracker/tracker.go:75-98 | In a run that stays inside the window received is distinct plus duplicates exactly when the first arrival is the least. |
| DuplicateAnswers.OrderIndependence | burnin/tracker/tracker.go:67-102 | Two orders of the same arrivals that start at the least and stay inside the window end with the same watermark, window, received and duplicate counts. |
| TrackerRuns.ProducersAreIsolated | burnin/tracker/tracker.go:49-65 | In every interleaving a producer's state is that of its own arrivals alone. |
| TrackerRuns.AnswersAreIsolated | burnin/tracker/tracker.go:49-103 | So are its answers. |
| TrackerRuns.StreamedLossBounds | burnin/tracker/tracker.go:107-123 | The streamed deltas add up to at least the loss last reported, at most that plus the recovered sequences, and at most the sequences ever pending. |
| TrackerRuns.StreamedLossAfterDetect | burnin/tracker/tracker.go:107-123 | Right after a gap detection they add up to the confirmed loss when nothing was recovered. |
| TrackerRuns.TotalsAreSumsOfIsolatedRuns | burnin/tracker/tracker.go:149-177 | Every total is the sum over the producers, each run alone. |
| TrackerRuns.TotalReceivedIsArrivals | burnin/tracker/tracker.go:149-152 | The total received is the number of arrivals. |
| TrackerRuns.TotalDuplicatesIsAnswers | burnin/tracker/tracker.go:154-157 | The total of duplicates is the number of arrivals answered as duplicates, each by its producer's own history. |
| TrackerRuns.TotalLostIsPending | burnin/tracker/tracker.go:159-162 | The total lost is the sum of the sizes of the pending sets. |
| TrackerRuns.TotalOutOfOrderIsDescents | burnin/tracker/tracker.go:164-167 | The total out of order is the sum of the descents in each producer's arrivals. |
| Murmur2.ComputeHash | examples/go/produce/compression-and-keys/main.go:163-199 | The block loop, the fall-through tail and the final mixing compute the recursive block definition, with every index in range. |
| Murmur2.StartInFull | examples/go/produce/compression-and-keys/main.go:164-170 | The hash before the first block is the seed with the length folded in, as a 32-bit number. |
| Murmur2.BlockInFull | examples/go/produce/compression-and-keys/main.go:172-182 | What one block does to the hash, on the key's bytes with the multiplier and the shifts written out. |
| Murmur2.HashInFull | examples/go/produce/compression-and-keys/main.go:183-199 | What the last one to three bytes do: the byte two past the last block shifted by 16, the one before by 8, then the first, then the multiplier. |
| Murmur2.FinishInFull | examples/go/produce/compression-and-keys/main.go:195-197 | The final mixing, with its shifts and multiplier written out. |
| Murmur2.ComputePartition | examples/go/produce/compression-and-keys/main.go:156-160 | The partition is the hash without its sign bit modulo the number of partitions, and lies below it. |
| Murmur2.PartitionInFull | examples/go/produce/compression-and-keys/main.go:156-160 | The partition is the hash modulo their number, less 2^31 for a hash from there on. |
| Murmur2.MixBlockIsInvertible | examples/go/produce/compression-and-keys/main.go:177-179 | Mixing a block word loses nothing. |
| Murmur2.AbsorbSolves | examples/go/produce/compression-and-keys/main.go:180-181 | With the hash fixed, exactly one block word leads to a given hash. |
| Murmur2.BlocksAreInvertible | examples/go/produce/compression-and-keys/main.go:172-182 | With the key fixed, the block loop is a bijection of the hash it is entered with. |
| Murmur2.TailIsInvertible | examples/go/produce/compression-and-keys/main.go:183-194 | So is the tail. |
| Murmur2.FinishIsInvertible | examples/go/produce/compression-and-keys/main.go:195-197 | So is the final mixing. |
| Murmur2.HashDeterminesBlock | examples/go/produce/compression-and-keys/main.go:163-199 | For every key, block position and hash, exactly one word in that block gives the hash. |
| Murmur2.BlocksSeparate | examples/go/produce/compression-and-keys/main.go:172-182 | Two keys of one length that differ only in one aligned block have different hashes. |
| Murmur2.TailsSeparate | examples/go/produce/compression-and-keys/main.go:183-194 | Two keys of one length that differ only in the tail have different hashes. |
| Murmur2.EveryHashIsReached | examples/go/produce/compression-and-keys/main.go:163-199 | Every hash is reached by choosing the bytes of any one block. |
| Murmur2.EveryPartitionIsReached | examples/go/produce/compression-and-keys/main.go:156-160 | So is every partition. |
| VerdictPrograms.Engine.ComputeVerdict | burnin/engine/verdict.go:17-138 | Whatever the order of the snapshots, the verdict fails exactly when some worker is beyond the limit of some gate, it passes with warnings exactly when none is and memory grew by more than the factor, and there is one warning for each. |
| VerdictPrograms.GenerateVerdict | burnin/report/report.go:98-232 | Whatever the order of the workers, it stores the check of each kind for exactly the enabled workers to which the kind applies, with its value, limit and outcome, and those of corruption and memory; it fails exactly when a check that is not advisory fails. |
| VerdictPrograms.BuildSummary | burnin/main.go:204-259 | The summary holds exactly the enabled workers that have a snapshot and one of the six names, every field as the snapshot and the configuration have it, the loss in percent, the memory in megabytes and its growth. |
| VerdictPrograms.RunReport | burnin/main.go:178-273 | For any values of the separate reads there is a report exactly when snapshots were taken; it passes exactly when no stored check fails and no engine verdict does; its result and its warnings, the engine's among them when that changes the result, follow. |
| VerdictPrograms.EngineJudges | burnin/main.go:261-272 | With validated thresholds and the engine's verdict on the same snapshots, the engine overrides exactly to fail the report, the reconciled result is the engine's, and there are no warnings exactly when the result is PASSED. |
| VerdictGates.BreachedIffExceeded | burnin/engine/verdict.go:28-144 | For each of the fifteen gates the comparison of percentages is an inequality between counters, limits and durations. |
| VerdictGates.AllWarnedOnce | burnin/engine/verdict.go:22-119 | Each breach of a gate by a worker is warned of once, and nothing else is. |
| VerdictGates.CheckOfStated | burnin/report/report.go:99-198 | For each of the ten kinds, when a worker has the check, and its value, limit and outcome as an inequality. |
| VerdictGates.CorruptedAddsUp | burnin/report/report.go:201-211 | The total of corrupted messages is one worker's more than without it, modulo 2^64. |
| VerdictGates.SummarizeStated | burnin/main.go:185-259 | Every field of the summary by itself. |
| Verdicts.WarningsDoNotDependOnOrder | burnin/engine/verdict.go:28-119 | Visiting the workers in any order raises the same warnings. |
| Verdicts.FailingCheckBreachesGate | burnin/report/report.go:105-198 | A failing check of the report on a worker means a breached gate of the engine on that worker. |
| Verdicts.ReportFailureMeansEngineFailure | burnin/main.go:261-272 | A report that fails means an engine that fails, corruption and its wrapping total included. |
| Verdicts.MemoryAdvisoryAgreesIff | burnin/engine/verdict.go:121-133 | The two memory advisories agree for every baseline and peak exactly when the threshold is at least 1. |
| Verdicts.ReconciledIsEngineIff | burnin/main.go:261-272 | The reconciled result is the engine's for every run exactly when the p99 threshold is positive and the memory threshold at least 1. |
| Verdicts.ResidualsDoNotMatter | burnin/engine/verdict.go:98-105 | No residual changes the engine's or the report's result. |
| Verdicts.RelaxingKeepsPassing | burnin/engine/verdict.go:17-138 | Relaxing validated thresholds never turns a run that does not fail into one that does. |
| Verdicts.FailureIsWarned | burnin/engine/verdict.go:22-119 | An engine that fails has at least one warning. |
| Verdicts.RelaxingIsSafeIff | burnin/engine/verdict.go:17-144 | Among all relaxations, no set of snapshots turns from passing to failing exactly when no latency threshold goes from 0 or less to above 0. |
| Headers.ExtractMeta | burnin/worker/util.go:46-68 | Each field is that of the last header with its key that can be read, and empty when there is none; ok means that the producer id is not empty. |
| Headers.Readable | burnin/worker/util.go:56-63 | A sequence is read from exactly the decimal digits of an unsigned 64-bit number, a time also from a sign and the digits of a signed one. |
| Headers.StampRoundTrip | burnin/worker/util.go:34-68 | The producer id, sequence, hash and time are stamped under their four names and read back for every 64-bit value, whatever foreign headers follow. |
| Headers.HeaderValue | burnin/worker/transactions_eos.go:288-295 | The value is that of the first header with the key, or empty when no header has it. |
| Headers.DedupKeyIsInjective | burnin/worker/transactions_eos.go:171-171 | Two deduplication keys are equal exactly when both the producer and the sequence are, even when an id contains the separator. |
| Eos.StepKeepsInvariant | burnin/worker/transactions_eos.go:147-276 | Every step of producer, broker and consumer keeps the protocol invariant. |
| Eos.EndCountsWhatItCommits | burnin/worker/transactions_eos.go:249-271 | What an end of transaction counts as sent is exactly what the same step commits, so 0 or 4 records. |
| Eos.SeenIffDelivered | burnin/worker/transactions_eos.go:171-179 | A committed record's key was seen exactly when that record was delivered. |
| Eos.NoViolations | burnin/worker/transactions_eos.go:147-276 | In every run with failures and ambiguous commits no violation is recorded, and sent is a multiple of 4 and at most the committed records and the committed sequence. |
| Eos.ResidualCountsRepeats | burnin/worker/transactions_eos.go:147-180 | The residual, with what resets forgot, is the number of repeated deliveries, and what was received is the number of deliveries since the last reset. |
| Eos.ExactlyOnceDelivery | burnin/worker/transactions_eos.go:168-180 | When each committed record was delivered exactly once the residual is 0 and the seen set has at least as many keys as were sent. |
| EosWorkers.EosWorker.HandleRecord | burnin/worker/transactions_eos.go:147-181 | A delivered record counts as received, changes the other counters as its headers say, and leaves the producer and the broker as they were, so it fits between any two calls of the produce loop. |
| EosWorkers.EosWorker.CountRecord | burnin/worker/transactions_eos.go:147-181 | The same for any record at all: an aborted one adds one violation and no key, one without a producer nothing more, one whose key was seen one residual, any other its key. |
| EosWorkers.EosWorker.TakeAnswer | burnin/worker/transactions_eos.go:223-247 | A record that the limiter lets through takes the next number of its kind; what the broker appends is stamped with that number, the producer of the kind and the outcome, in aborting cycles too. |
| EosWorkers.EosWorker.RunCycle | burnin/worker/transactions_eos.go:190-276 | One turn of the produce loop takes exactly the protocol steps that its answers decide, counts 4 records as sent exactly in a committing cycle in which everything succeeded, and numbers records of its own kind only. |
| EosWorkers.EosWorker.IsSafe | burnin/worker/transactions_eos.go:35-48 | Whatever the object went through, it has recorded no violation. |
| RateWindows.OneMoreSlot | burnin/metrics/metrics.go:341-365 | The records since the (n+1)-th most recent tick are those since the n-th and those of the n-th slot back. |
| RateWindows.RecordsSinceTick | burnin/metrics/metrics.go:341-365 | The records since the n-th most recent tick are the records in what follows it. |
| RateWindows.RecordsSinceStart | burnin/metrics/metrics.go:341-365 | With fewer ticks they are all the records. |
| RateWindows.TickHolds | burnin/metrics/metrics.go:358-365 | The bucket a tick clears holds the oldest slot, and the other buckets hold the others. |
| RateWindows.SlidingRateWindow.Record | burnin/metrics/metrics.go:351-356 | The total stays the sum of the buckets and the records since the 30th most recent tick. |
| RateWindows.SlidingRateWindow.Advance | burnin/metrics/metrics.go:358-365 | So it does when a tick drops the oldest slot. |
| RateWindows.SlidingRateWindow.Rate | burnin/metrics/metrics.go:367-378 | The rate is the records since the 30th most recent tick per tick of the history, over at most 30 ticks, and 0 before the first. |
| RateWindows.PeakRateTracker.Advance | burnin/metrics/metrics.go:411-424 | The peak is a tenth of the largest sum held at a tick of the whole history. |
| RateWindows.PeakRateTracker.Peak | burnin/metrics/metrics.go:426-430 | Ten times the peak bounds the records since the 10th most recent tick at every tick, and some tick reached it unless it is 0. |
| RateWindows.PeakSumMeaning | burnin/metrics/metrics.go:411-430 | That largest sum bounds the records since the 10th most recent tick at every tick, and some tick reaches it. |
| Lifecycle.OneLiveRunClosedOnce | burnin/engine/engine.go:179-270 | With no start in the gap, at most one run loop is live before its finalizer and each channel is closed once, by its own run. |
| Lifecycle.AcceptedStartMeansNoLiveRun | burnin/engine/engine.go:181-185 | A start is accepted only when no run loop is live but for one that reported an error. |
| Lifecycle.StartIsAcceptedIff | burnin/engine/engine.go:181-208 | With no start in the gap, a start is accepted exactly when every run loop is past its finalizer or has reported an error; it adds one fresh run and changes no other. |
| Lifecycle.StopCancelsLatest | burnin/engine/engine.go:211-221 | A stop cancels the latest run and no other, while it starts or runs, and changes nothing else. |
| Lifecycle.EarlyReturnMeansCancelled | burnin/engine/engine.go:308-317 | A loop that returns without an error before it measures was cancelled. |
| Lifecycle.ErrorStaysUntilStart | burnin/engine/engine.go:246-256 | The engine is in the error state exactly when an error was reported since the last accepted start. |
| Lifecycle.StartInGapClosesTwice | burnin/engine/engine.go:258-306 | A start accepted in the gap can be followed by two closes of the new run's channel. |
| Lifecycle.ClosedTwiceIff | burnin/engine/engine.go:258-306 | After an accepted start some channel can be closed twice exactly when the start was accepted in the gap. |
| Lifecycle.RunClosesTwiceIff | burnin/engine/engine.go:179-270 | In every run with any number of starts, once all loops are finished, some channel was closed twice exactly when some start was accepted in the gap. |
| MaxRegister.RegisterIsMaximum | burnin/worker/worker.go:307-320 | After every interleaving of calls and resets the register is the maximum of its initial value, or 0 once reset, and the values of the calls that swapped or gave up since the last reset. |
| MaxRegister.FinishedCallsMakeMaximum | burnin/worker/worker.go:307-320 | With no reset, when all calls are finished it is the maximum of its initial value and theirs. |
| MaxRegister.CallsTerminate | burnin/worker/worker.go:310-319 | A call is finished once it had 2 v + 1 turns, and as many again for every reset, whatever the others do. |
| MaxRegister.GaugeMirrorsIff | burnin/worker/worker.go:309-320 | With one channel, at a quiet moment of any run, resets in the middle of calls included, the gauge shows the register exactly when no call ever raised it or one did after the last reset. |
| MaxRegister.GaugeMirrorsAlwaysIff | burnin/metrics/metrics.go:259-262 | The gauge shows the largest register of a worker's channels at every quiet moment of every run exactly when there is one channel and no reset. |
| SizeDistributions.FromEntries | burnin/payload/payload.go:109-132 | The entries are kept in order and only a total of 0 is refused. |
| SizeDistributions.SelectSize | burnin/payload/payload.go:135-145 | The size is that of the first index whose cumulative weight exceeds the draw; the fall-through is never reached. |
| SizeDistributions.SelectionExistsIff | burnin/payload/payload.go:129-143 | Some draw selects some size exactly when the total is positive. |
| SizeDistributions.SelectedByInterval | burnin/payload/payload.go:137-143 | With no negative weight an index is selected by exactly the draws between its cumulative weights. |
| SizeDistributions.SelectionIsExactIff | burnin/payload/payload.go:135-145 | Each index is selected by as many draws as its weight exactly when no weight is negative. |
| GroupLoss.ConsumerGroupWorker.ReconcileGroupLoss | burnin/worker/consumer_group.go:179-186 | What is attributed is the largest loss sampled, and the counter is that minus its value at the last reset. |
| GroupLoss.ConsumerGroupWorker.ResetAfterWarmup | burnin/worker/worker.go:368-390 | The reset clears the counter and keeps what is attributed. |
| GroupLoss.CountsLossSinceResetIff | burnin/worker/consumer_group.go:179-186 | Call by call, the counter falls short of the largest loss since the reset by the smaller of that and what was attributed before, so it is right exactly when one of them is 0. |
| GroupLoss.CountsOnceIff | burnin/worker/consumer_group.go:179-186 | For any goroutines and any interleaving of their reads, loads, adds and stores with resets, at every moment the counter holds at least what of the largest loss since the reset exceeds the losses before it, and exactly that when and only when no addition since the reset was stale. |
| GroupLoss.CountsLossIff | burnin/worker/consumer_group.go:179-186 | With nothing attributed before the reset the counter is the largest loss since exactly when no addition was stale; with no stale addition, exactly when nothing was attributed before or added since. |
| GroupLoss.LargestReadIsAdded | burnin/worker/consumer_group.go:180-186 | When all calls are over the largest loss added is the largest loss read. |
| GroupLoss.StaleIffOverlap | burnin/worker/consumer_group.go:170-186 | When all calls are over, some addition was stale exactly when two calls that add ever overlapped. |
| GroupLoss.OverlapCountsTwice | burnin/worker/consumer_group.go:170-186 | Two goroutines that read the same loss and both load before either stores count it twice. |

## Left out

- The client library, the admin and fetch calls, TLS, the HTTP server, the metrics registry, the histogram, CRC32 and MD5: I/O or libraries; `Eos` keeps an abstract broker and the answers it can give.
- The example programs other than the murmur2 partitioner: scripts against a live broker.
- The other workers' loops, the topic and group names, the cleanup command and the console report: they would only add easy members.
- Defaults, environment and most of the validation: only the ranges that the verdicts rely on are used.
- Tracker.Stats: a copy of four counters per producer.
- EosWorkers.EosWorker.HandleRecord: does not model the CRC and latency records or the feed of the loss tracker, which change none of the modelled counters.
- EosWorkers.EosWorker.RunCycle: the produce loop's calls with no record handled between them, which the single calls allow; stops before a sequence counter reaches 2^64, and does not model the rebuilding of the client or the error counter.
- Lifecycle: the engine's mutex-protected fields are a state machine on values, since its goroutines interleave; the order of two steps is kept, the fields' memory is not. The verdict, the worker groups, shutdown's wait and panics in workers are not part of it.
- MaxRegister: a state machine on values for the same reason. Several concurrent calls on one register are more than the code makes; the gauge results have one sampler per channel.
- VerdictPrograms.BuildSummary: leaves out the run's identity, addresses and times.
- SizeDistributions.FromEntries: starts after the splitting and parsing of the text.
- GroupLoss.ConsumerGroupWorker.ReconcileGroupLoss: one step; the second half of the module splits it.
- RateWindows.PeakRateTracker.Advance: the peak is a real number, so the rounding of the division is not modelled.
