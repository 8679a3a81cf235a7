# Power forensics: a verified model

The agent samples batteries, processors and devices on worker threads, funnels the samples through one writer into
an append-only JSONL session, accounts the energy, and answers a control pipe. This project models that machinery and
proves what its maintainers rely on. `dafny verify dfyconfig.toml` checks everything.

The main results, by module:

- `Scheduler`: N workers, a bounded channel, a stop flag, an atomic backlog counter and its compare-exchange
  high-water mark, as interleaved atomic steps. Exact backlog, exact peak, exact answer of the bounded join, bounded
  loss, bounded shutdown, and delivery.
- `Energy`, `Summary`, `RangeEnergy`: one pairwise reference definition of segmented dual-clock energy, and three
  programs proved equal to it: the live stream, the batch integrator behind crash recovery, and range queries.
  The exact rule on the clocks, exact energy of a linear load, conservation of time, additivity of ranges, equality of
  clean and recovered footers.
- `Numbers`, `Json`, `Text`, `Records`, `Extended`, `Report`, `Footers`, `Recovery`, `Utf8`, `SessionLog`: the
  session log from bytes up. The parser, the writer and the printed footer are modelled in full, so that "a torn
  record never parses" and "no note can forge a record" are theorems; on top of them the buffered writer, its loss
  bound, and recovery of every prefix a kill can leave, with a footer that read back says what the live session knew.
  Numbers that overflow are followed through parsing, integration (over the reals with infinities and not-a-number)
  and printing.
- `Histogram`, `Vectors`, `LeastSquares`, `Pearson`: the numeric kernels against order statistics, optimality of least
  squares, Cauchy-Schwarz and the share of variance a line explains.
- `Service`: the agent's two threads over its locks and flags, every lock and write a step. Flag consistency, marker
  accounting, lock order and freedom from deadlock.
- `Align`, `Timeouts`, `PipeIO`, `InitRetry`, `ClockSkew`: an as-of join, timeout evidence, framed pipe reads under
  deadlines, initialisation backoff, and sample stamps.

Floating-point numbers are reals and unsigned integers are unbounded naturals, except where a width or a saturation is
written out. Clocks, chunk sizes, schedules, square roots and the outcome of foreign calls are
parameters.

Five places where the code and its documentation differ, or a promise holds only under a condition:

- `store.rs` promises recovery of a torn write; the `recover` command reads the file as text first, so a cut inside a
  multi-byte character is refused (`SessionLog.CrashIsRecovered` has the exact condition).
- `to_json` is documented to round-trip `parse`. It gives a value back if and only if the value is nested at most 64
  deep and none of its numbers overflows f64 (`Json.RoundTrip`, `Json.HugeDoesNotComeBack`,
  `Json.DeepDoesNotComeBack`); what parses is never nested deeper (`Json.ParsedRoundTrip`).
- A recovered text is meant to be refused by a second recovery. It is exactly when every number its footer prints is
  finite (`Recovery.RecoveredTextIsRefused`, `Recovery.RefusedExactly`); a reading of 1e999 prints `inf`, which does
  not parse, and the text is recovered again (`Recovery.OverflowIsRecoveredTwice`).
- `fit_linear` is documented to refuse a degenerate x spread; the threshold also refuses some distinct x
  (`LeastSquares.FitIsRefusedExactlyOnTinySpread`, `LeastSquares.DistinctXCanBeRefused`).
- The pause flag and the paused state agree because there is one dispatcher (`Service.OneDispatcherIsNeeded`).

## Model

| member | source | states |
|---|---|---|
| `Scheduler.BacklogIsExact` | pf-agent/src/sched.rs:122-142 | In every reachable state with the receiver alive, `in_flight` is the queued messages, plus the workers between `before_send` and queue or reconcile, plus the message the writer holds un-acked; it never underflows and never exceeds capacity + N + 1 |
| `Scheduler.HighWaterIsExact` | pf-agent/src/sched.rs:122-137 | For every schedule, spurious compare-exchange failures included: whenever no thread is inside `before_send`, `max_in_flight` is the exact historical peak of `in_flight` |
| `Scheduler.PeakIsTheMaximum` | pf-agent/src/sched.rs:113-120 | The reference peak bounds the backlog after every prefix of a schedule and is attained by one of them |
| `Scheduler.StepKeepsInv` | pf-agent/src/sched.rs:276-353 | Every atomic step of a worker, the writer or the stop flag keeps the backlog, completion, loss, delivery and compare-exchange invariants |
| `Scheduler.ExecKeepsInv` | pf-agent/src/sched.rs:276-353 | So does every finite schedule |
| `Scheduler.LossIsAtMostTheLast` | pf-agent/src/sched.rs:315-349 | On every run each worker's queued samples are its collected samples in order, minus at most the last one |
| `Scheduler.ChannelKeepsWorkerOrder` | pf-agent/src/sched.rs:324-345 | Received, abandoned and queued messages of a worker together are exactly what it queued, in order; the writer has a prefix |
| `Scheduler.ShutdownIsBounded` | pf-agent/src/sched.rs:276-354 | Once `stop` is set, under every schedule, also with a full and undrained channel, a worker takes at most capacity + N + 7 productive steps and has then finished |
| `Scheduler.StepsSpendRank` | pf-agent/src/sched.rs:315-354 | After `stop`, every productive step of a worker lowers its distance to the exit and nobody else's step raises it |
| `Scheduler.NeverStuckOutsideCollect` | pf-agent/src/sched.rs:315-354 | After `stop`, an unfinished worker whose collector call returns always gets strictly closer to its exit: no deadlock |
| `Scheduler.FinishBoundedIsHonest` | pf-agent/src/sched.rs:69-89 | `finish_bounded` returns 0 only if every worker has finished, and otherwise at least the number still running |
| `Scheduler.FinishBoundedIsExact` | pf-agent/src/sched.rs:74-89 | On every schedule the answer is exactly the number of workers that were running when `finished` was last loaded, and an answer above zero is only given after a later look at the clock found the deadline passed |
| `Scheduler.FinishBoundedRound` | pf-agent/src/sched.rs:76-88 | One round on any reachable state: 0 if all have finished, the number still running if the deadline has passed, another round otherwise |
| `Scheduler.TickDelivers` | pf-agent/src/sched.rs:276-350 | An undisturbed tick with room in the channel collects one sample, raises the counter and the high-water mark, queues the sample last and leaves the worker waiting: the whole resulting state |
| `Scheduler.FullChannelWaits` | pf-agent/src/sched.rs:330-345 | A full channel only delays: polling returns to the same state, sample in hand |
| `Scheduler.WriterTakesTheOldest` | pf-agent/src/sched.rs:139-142 | One round of the writer removes the oldest message and acknowledges it |
| `Scheduler.PaceEnds` | pf-agent/src/sched.rs:370-381 | A wait of ms milliseconds is over after one step per begun 50 ms and one more |
| `Scheduler.FirstTickIsStaggered` | pf-agent/src/sched.rs:268-285 | The first tick waits for its offset in the same way and then collects |
| `Scheduler.CleanShutdownReconciles` | pf-agent/src/sched.rs:48-89 | After a clean shutdown the backlog counter holds exactly the messages discarded with the receiver, and every queued sample was received or discarded |
| `Energy.EnergyStream.Push` | pf-agent/src/monitor.rs:337-368 | After any pushes the constant-memory accumulators equal the pairwise reference over everything pushed: both channels, all five totals, and the four kind tallies |
| `Energy.EnergyStream.PushPair` | pf-agent/src/monitor.rs:347-379 | One new pair adds exactly its reference contribution to each channel and one tally on a boundary |
| `Energy.PushIsPair` | pf-agent/src/monitor.rs:352-379 | The branches of the push are the reference contribution of a pair, boundary or not |
| `Energy.Discontinuities` | pf-core/src/stats.rs:169-206 | The scan returns the boundaries of the series in order, with index, kind and unobserved time |
| `Energy.IntegratePairs` | pf-core/src/stats.rs:211-238 | The trapezoid loop with forced breaks computes energy, covered and unknown time of the unbroken pairs |
| `Energy.IntegrateSegmentedClocks` | pf-core/src/stats.rs:255-275 | The batch integrator equals the pairwise reference, missing or mis-sized wall column included |
| `Energy.BoundariesMark` | pf-core/src/stats.rs:169-206 | A step is marked in the boundary list exactly when the classifier calls it a boundary |
| `Energy.BoundariesAccount` | pf-core/src/stats.rs:255-275 | Count and unobserved time of the boundary list are those of the pairwise reference |
| `Energy.TimeIsConserved` | pf-agent/src/monitor.rs:347-379 | For every series covered + unknown equals the sum of the positive monotonic steps |
| `Energy.BoundariesAreTallied` | pf-agent/src/monitor.rs:352-361 | Both channels have the same discontinuity count, and it is the sum of the four kind tallies |
| `Energy.BoundaryAddsNoEnergy` | pf-agent/src/monitor.rs:322-361 | A boundary step changes neither energy nor covered time |
| `Energy.ContinuousPairIsInRange` | pf-core/src/stats.rs:127-150 | A step the classifier lets through is non-negative and within the gap, so the inner gap test of the integrators never fires |
| `Energy.ClassifiedExactly` | pf-core/src/stats.rs:127-150 | Both ways, on the clocks themselves, for each of the five answers: continuous exactly if no clock steps back, none steps further than the gap, and where both wall stamps exist they part by at most the skew |
| `Energy.RampIsIntegrated` | pf-core/src/stats.rs:211-275 | An unbroken series whose power is linear in time is all covered, and its energy is the area under the line |
| `Energy.SilenceIsUnknown` | pf-core/src/stats.rs:229-236 | Where no two neighbours both have a value, the whole span is unknown and the energy zero |
| `Energy.DiscontinuitiesAreBrokenSteps` | pf-core/src/stats.rs:169-206 | The discontinuity count is the number of steps broken by their clocks |
| `Energy.TallyIsStepsCalled` | pf-core/src/stats.rs:101-107 | The tally at the place of each kind counts the steps that deserve that name by their clocks |
| `Energy.BrokenPairHidesTheLargerStep` | pf-core/src/stats.rs:194-203 | A broken pair hides the larger of its two clock steps, and its forward monotonic time is unknown |
| `Energy.EnergyIsBounded` | pf-agent/src/monitor.rs:370-378 | Readings in [0, W] give energy in [0, W * covered / 3600] |
| `Energy.TotalSplits` | pf-core/src/stats.rs:255-275 | The totals of a concatenation are those of its parts and of the one pair across the seam |
| `Energy.TotalReadsOneColumn` | pf-core/src/stats.rs:255-275 | Totals depend on the clocks and on one channel only |
| `Summary.SummaryAccum.RecordBattery` | pf-agent/src/monitor.rs:478-506 | Keeps the stream, the channel counts and the ring of recent readings equal to functions of everything recorded |
| `Summary.SummaryAccum.LiveFooter` | pf-agent/src/monitor.rs:1340-1383 | The energy evidence of the live footer (both segments, the four kind tallies, the channel counts) is the reference evidence of everything recorded |
| `Summary.RunLive` | pf-agent/src/monitor.rs:478-506 | A whole live session ends with the reference footer of its readings under the gap rule of its base interval |
| `Summary.RecoverFooter` | pf-agent/src/store.rs:242-277 | The footer rebuilt from kept readings is the reference footer under the rule of the recovered interval |
| `Summary.TallyKinds` | pf-agent/src/store.rs:274-277 | The per-kind loop counts exactly the pairs of each boundary kind |
| `Summary.CleanAndRecoveredAgree` | pf-agent/src/store.rs:237-277 | For every list of readings and every kept prefix, the clean footer and the recovered footer are the same value |
| `Summary.RecoveredRuleIsTheLiveRule` | pf-agent/src/store.rs:184-191 | With the effective base interval in the header, recovery applies the live gap rule, for every preset and interval |
| `Summary.FooterCounts` | pf-agent/src/monitor.rs:478-506 | The counts of the footer on the readings: those with a discharge, those with a charge, the broken steps, and the broken steps of each kind |
| `Summary.FooterOfDischarge` | pf-agent/src/monitor.rs:478-506 | The whole footer of an unbroken session whose discharge is linear in time: the area under the line as discharge, and no charge |
| `Summary.FooterOfCharge` | pf-agent/src/monitor.rs:478-506 | The same on the charger, with the channels exchanged |
| `Summary.GapRule` | pf-core/src/stats.rs:152-157 | A step is within the gap exactly if it is at most three intervals or at most five seconds; the clocks may part by two seconds |
| `Summary.PresetGaps` | pf-agent/src/monitor.rs:70-83 | 15 s in the low preset, 5 s in deep, the gap of the interval otherwise |
| `Summary.IntervalIsReadBack` | pf-agent/src/store.rs:212-219 | Recovery uses the interval that was written, rounded down, and a second if the header has none of at least 1 |
| `Common.SlideWindow` | pf-agent/src/monitor.rs:499-505 | Evicting the front of a full ring before appending keeps exactly the last n elements |
| `RangeEnergy.BatteryClocks` | pf-core/src/analyze.rs:416-434 | The four columns hold, in order, what exactly the points whose wall time is in the closed range hold: their times, their own stamps in seconds, their discharge and their charge |
| `RangeEnergy.RangeEnergy` | pf-core/src/analyze.rs:436-459 | The whole report of a range, field by field: the reference totals of the selected readings, each energy exactly where its channel is covered, the boundary evidence, and a channel present exactly if some point in range has a value on it |
| `RangeEnergy.RangeOfALine` | pf-core/src/analyze.rs:413-459 | On the points themselves: watts linear in time over an unbroken range report the area under the line on their own channel, the whole span covered |
| `RangeEnergy.SelectedAreThePoints` | pf-core/src/analyze.rs:423-432 | The selection the split laws speak of is the points in range, each once, in order |
| `RangeEnergy.WallOfMeans` | pf-core/src/analyze.rs:25-38 | A point stands at its own stamp, else at the session base plus its time rounded down to milliseconds |
| `RangeEnergy.SplitAtSampleIsAdditive` | pf-core/src/analyze.rs:413-459 | With strictly increasing wall stamps, splitting a range at a sample makes all five totals exactly additive |
| `RangeEnergy.SplitAtSample` | pf-core/src/analyze.rs:413-459 | For merely sorted stamps, the samples stamped at the split are what is counted twice |
| `RangeEnergy.SplitBetweenSamplesLosesOnePair` | pf-core/src/analyze.rs:413-459 | Splitting strictly between samples loses exactly the contribution of the one spanning pair |
| `RangeEnergy.SelectedSplits` | pf-core/src/analyze.rs:423-432 | In wall order a range is its part up to the split followed by its part after it |
| `Histogram.FixedHistogram.Push` | pf-agent/src/monitor.rs:240-255 | After any pushes every bin holds the number of samples of its interval, and count, sum, minimum and maximum are those of all samples pushed since construction |
| `Histogram.FixedHistogram.Percentile` | pf-agent/src/monitor.rs:258-281 | The percentile is Some exactly when a sample exists and p is in 0..100 |
| `Histogram.InterpolatedPercentile` | pf-agent/src/monitor.rs:258-281 | The scan with its early return is the quantile of the located bin |
| `Histogram.BinsSumToCount` | pf-agent/src/monitor.rs:240-255 | The bins sum to the number of samples |
| `Histogram.LocateFindsTheRank` | pf-agent/src/monitor.rs:264-280 | The scan stops at a non-empty bin whose cumulative range contains the target rank |
| `Histogram.QuantileIsSomeIffNonEmpty` | pf-agent/src/monitor.rs:257-281 | Both directions of the definedness of the quantile |
| `Histogram.QuantileIsRankCorrect` | pf-agent/src/monitor.rs:257-281 | The quantile lies in the closed bin that holds the floor(p/100*(count-1))-th smallest sample |
| `Histogram.QuantileIsWithinOneBin` | pf-agent/src/monitor.rs:257-281 | If that sample is in range, the quantile is within one bin width of it |
| `Histogram.QuantileIsInterpolated` | pf-agent/src/monitor.rs:269-277 | The exact place of the quantile: over the ranks of its bin the first is at the lower edge, the last at the upper edge, the others in equal steps between; a single rank is in the middle |
| `Histogram.DischargePercentileError` | pf-agent/src/monitor.rs:203-203 | For the discharge histogram that error is at most its bin width |
| `Histogram.QuantileIsMonotone` | pf-agent/src/monitor.rs:257-281 | The quantile is monotone in p |
| `Histogram.SortedGivesOrderStatistic` | pf-agent/src/monitor.rs:257-281 | The order statistic used is element k of any sorted permutation of the samples |
| `LeastSquares.FitIsOptimal` | pf-core/src/calib.rs:27-45 | No line has a smaller residual sum than the fitted one, and every other line has a strictly larger one |
| `LeastSquares.NormalEquations` | pf-core/src/calib.rs:32-42 | The fitted residuals are orthogonal to the ones and to x |
| `LeastSquares.DenomSign` | pf-core/src/calib.rs:32-40 | `n*sxx - sx^2` is never negative and is zero exactly when all x are equal |
| `LeastSquares.ClampIsDead` | pf-core/src/calib.rs:43-54 | 0 <= ss_res <= ss_tot, so over the reals the clamp of R² never acts |
| `LeastSquares.CollinearIsRecovered` | pf-core/src/calib.rs:27-61 | Collinear points give back their line, with R² 1 unless the y spread is below the threshold |
| `LeastSquares.FitIsRefusedExactlyOnTinySpread` | pf-core/src/calib.rs:25-40 | A fit is refused exactly for fewer than two points or a spread below 2^-52; an accepted one counts its points |
| `LeastSquares.DistinctXCanBeRefused` | pf-core/src/calib.rs:37-40 | The documented "degenerate x" is wider than equal x: a concrete pair of distinct x is refused |
| `LeastSquares.DisplayGate` | pf-core/src/calib.rs:80-106 | A value exists exactly for R² of at least 0.5 and a slope that is not negative; it is then never negative, zero at the minimum brightness and monotone in brightness |
| `LeastSquares.DisplaySlope` | pf-core/src/calib.rs:80-88 | Above the minimum brightness further brightness adds exactly the slope times the percentage |
| `LeastSquares.OnePercent` | pf-core/src/calib.rs:80-88 | One more percent adds exactly the slope |
| `Pearson.Accumulate` | pf-core/src/analyze.rs:1100-1120 | The loop computes the centred sums, and refuses exactly unequal, short or constant series |
| `Pearson.Correlation` | pf-core/src/analyze.rs:1100-1121 | The whole computation, given square roots: a coefficient exactly for series of equal length, three or more, neither constant; it lies in [-1, 1] and times both deviations is the covariance |
| `Pearson.CoefficientMeans` | pf-core/src/analyze.rs:1120-1120 | The coefficient has the sign of the covariance, and its square in units of the two variances is the square of the covariance |
| `Pearson.LineCorrelatesPerfectly` | pf-core/src/analyze.rs:1100-1121 | Points on a line with slope k have exactly 1 or -1, by the sign of k |
| `Pearson.PerfectMeansLine` | pf-core/src/analyze.rs:1100-1121 | And only such points have |
| `Pearson.SquareIsExplainedShare` | pf-core/src/analyze.rs:1100-1121 | The square of the coefficient is 1 - ss_res/ss_tot of the least-squares line through the same points |
| `Pearson.RSquaredIsTheSquare` | pf-core/src/calib.rs:43-54 | Where both are reported, R² of the fit is the square of the coefficient |
| `Pearson.DefinedExactlyOnVaryingSeries` | pf-core/src/analyze.rs:1100-1119 | A coefficient exists if and only if the lengths agree, are at least three, and neither series is constant |
| `Pearson.MomentsAreBounded` | pf-core/src/analyze.rs:1107-1116 | num² <= dx*dy for series of any length |
| `Pearson.ClampIsDead` | pf-core/src/analyze.rs:1120-1121 | Over the reals the clamp to [-1, 1] never changes the coefficient |
| `Pearson.CorrelationIsSymmetric` | pf-core/src/analyze.rs:1100-1121 | Swapping the series keeps the coefficient |
| `Pearson.CorrelationIsAffineInvariant` | pf-core/src/analyze.rs:1100-1121 | Shifting and non-zero scaling of the first series keep the coefficient up to the sign of the scale |
| `Pearson.CorrelationIsAffineInvariantInY` | pf-core/src/analyze.rs:1100-1121 | The same for the second series |
| `Json.RoundTrip` | pf-core/src/json.rs:278-343 | Serializing and parsing gives a value back if and only if it is nested within the cap of 64 and none of its numbers overflows f64; an overflowing number comes back as null, a deeper value is refused |
| `Json.ParsedRoundTrip` | pf-core/src/json.rs:277-343 | Nothing that parses is nested too deep, so of the values `parse` can yield exactly those without an overflowing number come back from `to_json` |
| `Json.HugeDoesNotComeBack` | pf-core/src/json.rs:294-300 | The text 1e999 parses, and is serialized as null |
| `Json.DeepDoesNotComeBack` | pf-core/src/json.rs:91-99 | An array inside k others comes back for k up to 64 and is refused beyond |
| `Json.WrittenParses` | pf-core/src/json.rs:278-286 | A written value parses as itself exactly if it is within the nesting cap and each of its numbers is a number token |
| `Json.TrailingDataIsRejected` | pf-core/src/json.rs:277-286 | After an object or array exactly white space may follow |
| `Json.CodesRead` | pf-core/src/json.rs:176-201 | Any string comes back from the form that spells every character by its UTF-16 code units, surrogate pairs included |
| `Json.LoneSurrogateReads` | pf-core/src/json.rs:176-201 | A lone surrogate, or a high one with anything but a low one, reads as U+FFFD |
| `Json.OtherEscapesRead` | pf-core/src/json.rs:167-215 | The escapes the writer never emits, and the refusal of raw control characters |
| `Numbers.HugeOverflows` | pf-core/src/json.rs:140-145 | 1e999 is a number token whose value rounds to infinity |
| `Numbers.LimitIsHalfWay` | pf-core/src/json.rs:140-145 | A token reads as infinite from 2^1024 - 2^970 on, half way between the largest f64 and the next power of two |
| `Numbers.FixedDenotes` | pf-agent/src/store.rs:290-293 | The token printed with a fixed number of decimals denotes the scaled integer divided by the power of ten |
| `Numbers.FixedRounds` | pf-agent/src/store.rs:290-293 | A number printed with a fixed number of decimals denotes that number rounded to them, half to even |
| `Numbers.ExponentMeans` | pf-core/src/json.rs:117-146 | An exponent multiplies by its power of ten, or divides by it if negative |
| `Numbers.FractionMeans` | pf-core/src/json.rs:117-146 | The digits before and after the point are the value in units of the last place |
| `Json.ValueReads` | pf-core/src/json.rs:91-106 | A written value followed by anything that cannot continue a number reads back as itself, leaving the rest |
| `Json.StringReads` | pf-core/src/json.rs:158-218 | Any string comes back from its escaped form |
| `Json.NumberReads` | pf-core/src/json.rs:117-146 | Any accepted numeral is lexed whole |
| `Json.ValueExtends` | pf-core/src/json.rs:91-106 | A value read from a text reads the same from every longer text, unless it is a number that ended the input |
| `Json.StringBodyExtends` | pf-core/src/json.rs:158-218 | So does a string, lone surrogates included |
| `Json.TornTextIsRejected` | pf-core/src/json.rs:278-286 | A text cut anywhere inside its object or array never parses |
| `Records.HeaderReads` | pf-agent/src/store.rs:65-79 | A header line reads back as a header with its wall clock and interval, whatever version and note hold |
| `Records.EventReads` | pf-agent/src/store.rs:81-94 | An event line reads back as that event, whatever kind and detail hold: no text can forge a record |
| `Records.FooterReads` | pf-agent/src/store.rs:96-103 | The clean footer line is recognised as a footer |
| `Records.RecoveredFooterReads` | pf-agent/src/store.rs:319-327 | The reconstructed footer line is recognised as a footer |
| `Records.BatteryRecordReads` | pf-agent/src/store.rs:246-267 | A battery record, whatever other fields it has, reads as its two clocks in seconds, the discharge and the charge from their own envelopes, and an absent value as none |
| `Records.WriteIsPrintable` | pf-core/src/telemetry.rs:329-343 | Written records hold no newline or other control character |
| `Records.WrittenObject` | pf-agent/src/store.rs:54-63 | Every object within the cap is one line from brace to brace that parses back to it |
| `Records.TornLineIsBad` | pf-agent/src/store.rs:192-200 | A written line cut anywhere inside is classified as corrupt |
| `Numbers.NatNumeralValue` | pf-agent/src/store.rs:72-78 | A natural number is printed as a numeral that denotes it |
| `Recovery.RecoverSessionText` | pf-agent/src/store.rs:180-328 | The method returns the specified recovery of every text, down to the digits: the salvaged records and one footer, or one of the two refusals |
| `Recovery.RecoveredFooterTells` | pf-agent/src/store.rs:242-328 | For every recovered text with readings that do not overflow: the lines are the salvaged ones and one footer, which parses, counts the lines, and whose summary read back key by key gives the counts, the median, both energies, both coverages, the lost time and the broken steps of each kind |
| `Footers.FooterLineTells` | pf-agent/src/store.rs:289-328 | The footer line of any finite readings is such a line |
| `Footers.SummaryTells` | pf-agent/src/store.rs:289-318 | Each member of the summary, read back: the totals of its own channel rounded to its own number of places, and null exactly where there is nothing to say |
| `Report.MedianIsTheMiddle` | pf-core/src/stats.rs:5-25 | The median is the middle of the values however they are sorted, or half way between the two middle ones |
| `Report.MedianHalves` | pf-core/src/stats.rs:5-25 | At most half of the values are below it and at most half above |
| `Recovery.SalvageIsTheFirstRun` | pf-agent/src/store.rs:192-226 | What is kept is every record before the first line that is neither blank nor a record; recovery is refused exactly if that line is a footer |
| `Recovery.LastWallIsTheLatest` | pf-agent/src/store.rs:220-224 | The wall clock of the footer is the largest stamp of the kept records |
| `Recovery.IntervalIsTheLastOne` | pf-agent/src/store.rs:212-219 | The interval is that of the last kept header which has one of at least 1, and 1000 without any |
| `Recovery.ScanLines` | pf-agent/src/store.rs:192-226 | The scan keeps exactly the records before the first torn, unknown or footer line, and knows their header, latest wall clock and interval |
| `Recovery.Keep` | pf-agent/src/store.rs:212-225 | Keeping one record updates header, wall clock and interval to those of the longer list |
| `Recovery.CollectReadings` | pf-agent/src/store.rs:242-267 | The second loop collects the battery readings of the kept records in order |
| `Recovery.CutLogIsRecovered` | pf-agent/src/store.rs:169-235 | However a log is cut: refused with a complete footer, refused without a header, otherwise exactly the complete records in order and one footer |
| `Recovery.RecoveredTextIsRefused` | pf-agent/src/store.rs:192-206 | Recovering a recovered text is refused exactly when everything its summary prints is finite; otherwise the rebuilt footer reads as a torn line and the text is recovered again |
| `Recovery.RefusedExactly` | pf-agent/src/store.rs:289-318 | The same as a condition on the readings, for clocks that do not overflow: the median discharge is finite and no integrated pair of a covered channel has an overflowing end |
| `Recovery.FiniteSessionIsRefused` | pf-agent/src/store.rs:204-206 | If no reading overflows, recovering a recovered text is always refused |
| `Recovery.SingleRecordIsRefused` | pf-agent/src/store.rs:289-318 | With one battery record it is refused exactly when its discharge does not overflow, whatever its clocks and charge |
| `Recovery.OverflowIsRecoveredTwice` | pf-agent/src/store.rs:289-318 | Behind any header a battery record with discharge 1e999 is recovered, and the recovered text is recovered again |
| `Recovery.Integrate` | pf-agent/src/store.rs:268-277 | The evidence of the rebuilt footer is the reference over the extended reals; on finite readings it comes from the batch integrator |
| `Extended.LiftedFooter` | pf-core/src/stats.rs:255-275 | On finite readings the reference over the extended reals is the reference over the reals |
| `Report.SummarySpells` | pf-agent/src/store.rs:289-318 | The printed summary is JSON exactly when its median, energies, coverages and second counts are finite |
| `Report.SummaryIsJsonExactly` | pf-agent/src/store.rs:289-318 | With finite clocks that is exactly when the median discharge is finite and no integrated pair of a covered channel has an infinite end |
| `Report.FiniteReadingsPrint` | pf-agent/src/store.rs:289-318 | Finite readings always print a summary that is JSON |
| `Report.SingleReadingPrints` | pf-agent/src/store.rs:289-318 | A single reading prints JSON exactly when its discharge is finite |
| `Recovery.SalvageKeepsRecords` | pf-agent/src/store.rs:197-225 | Only records are kept, each a line of the input |
| `Recovery.FooterStops` | pf-agent/src/store.rs:204-206 | A footer after records is always reached, whatever follows it |
| `Text.CutShape` | pf-agent/src/store.rs:180-200 | A prefix of a log is its complete lines and then nothing or a piece of the next line |
| `Text.LinesOfLog` | pf-agent/src/store.rs:192-196 | Whole lines and an unterminated tail are read back as those lines and that tail |
| `Utf8.PrefixDecodes` | pf-cli/src/main.rs:1628-1634 | A prefix of an encoded text can be read as text exactly when it ends between two characters, and is then a prefix of the text |
| `Utf8.DecodeEncode` | pf-cli/src/main.rs:1628-1634 | Encoding and reading back is the identity |
| `Utf8.CharLayout` | pf-cli/src/main.rs:1628-1634 | The standard layout of one to four bytes: the lead byte tells the length, and the payload bits in order are the character |
| `Utf8.CutInsideCharacter` | pf-cli/src/main.rs:1628-1634 | A cut one byte into a character outside ASCII is not such a boundary |
| `SessionLog.SessionWriter.constructor` | pf-agent/src/store.rs:32-44 | A new writer is empty; a flush period below one counts as one |
| `SessionLog.SessionWriter.WriteAll` | pf-agent/src/store.rs:54-56 | The buffered write keeps disk and buffer together equal to the bytes written and the buffer within 8 KiB |
| `SessionLog.SessionWriter.WriteLine` | pf-agent/src/store.rs:54-63 | Disk and buffer hold exactly the lines written; all but the last `since_flush` lines are on disk, and that is below the flush period |
| `SessionLog.SessionWriter.Flush` | pf-agent/src/store.rs:46-52 | Everything is on disk |
| `SessionLog.SessionWriter.Header` | pf-agent/src/store.rs:65-79 | One header line is appended |
| `SessionLog.SessionWriter.Event` | pf-agent/src/store.rs:81-94 | One event line is appended |
| `SessionLog.SessionWriter.Footer` | pf-agent/src/store.rs:96-103 | The footer counts itself, and the whole log is on disk |
| `SessionLog.WriterLossIsBounded` | pf-agent/src/store.rs:14-29 | Whatever part of the buffer a kill leaves unwritten, at most `flush_every - 1` completed lines and 8 KiB are lost |
| `SessionLog.FlushedLinesSurvive` | pf-agent/src/store.rs:16-22 | Every line written before the last flush is complete in every on-disk prefix consistent with it |
| `SessionLog.CrashIsRecovered` | pf-agent/src/store.rs:169-235 | End to end on bytes: the file is unreadable exactly when the cut is inside a character; otherwise the complete surviving records, all flushed ones among them, come back in order with one footer, or the refusal is the right one |
| `SessionLog.CutInsideCharacterIsUnreadable` | pf-cli/src/main.rs:1622-1634 | The torn-write promise fails for every cut one byte into a non-ASCII character: the command refuses the file |
| `SessionLog.EntryIsLogged` | pf-agent/src/store.rs:54-103 | Every header, event, sample and footer becomes one line of its own kind |
| `SessionLog.SessionIsRecovered` | pf-agent/src/store.rs:169-328 | A whole session killed anywhere: what survives, what is refused, and that the rebuilt footer uses the live gap rule |
| `SessionLog.ReadingsAreTheEntries` | pf-agent/src/store.rs:242-267 | The readings recovery extracts from the surviving lines are those of the sample entries written, in order |
| `SessionLog.KilledSessionKeepsTheLiveFooter` | pf-agent/src/store.rs:237-328 | For a session killed at any byte that leaves a header, no footer and readable text: the recovered file is the surviving lines and a footer that parses and whose summary, read key by key, says what the live accumulators held at the last surviving battery record |
| `Service.LifecycleIsConsistent` | pf-agent/src/service.rs:147-180 | In every interleaving: whenever no pause, resume, stop or start is under way, the pause flag equals the state, paused implies running, and running implies the stop flag is clear |
| `Service.RunningIsNeverStopped` | pf-agent/src/service.rs:147-180 | Running and the stop flag exclude each other at every instant |
| `Service.MarkersAreAccounted` | pf-agent/src/service.rs:185-201 | Whenever no `add_marker` is under way: accepted = dropped + drained + pending, drained then pending are the accepted markers in order without the dropped ones, and the recent view is the last min(64, accepted) |
| `Service.PendingIsBounded` | pf-agent/src/service.rs:46-50 | The pending queue never exceeds 1024 |
| `Service.NoCyclicWait` | pf-agent/src/service.rs:147-201 | No ring of threads, of any number, each blocked on a lock the next one holds |
| `Service.LocksAreOrdered` | pf-agent/src/service.rs:147-201 | Locks are only taken in the order markers, state, session path |
| `Service.NeverDeadlocked` | pf-agent/src/service.rs:292-302 | In every reachable state, while a thread is inside a call, some thread can take its next step |
| `Service.ExecKeepsInv` | pf-cli/src/main.rs:1907-1948 | Every interleaving of the main thread's program with the dispatcher's verbs keeps the invariant |
| `Service.StepKeepsFlags` | pf-agent/src/service.rs:161-180 | One step of pause, resume or stop keeps flag and state in agreement or leaves a thread owing the store |
| `Service.OneDispatcherIsNeeded` | pf-agent/src/service.rs:169-172 | Because resume stores its flag after unlocking, two dispatchers have an interleaving, legal under the locks, that runs a whole pause in between: both calls return with the session paused and the flag clear |
| `Service.DrainAll` | pf-agent/src/monitor.rs:633-646 | Draining everything at once is draining the markers one by one, front first |
| `Service.AgentService.Start` | pf-agent/src/service.rs:147-159 | Uncontended, the composition of its atomic steps: it resets the lifecycle and the counters but not the pending queue, so the accounts balance exactly if that was empty |
| `Service.AgentService.Pause` | pf-agent/src/service.rs:161-167 | Uncontended, the composition of its atomic steps: takes effect exactly while running, flag and state together |
| `Service.AgentService.Stop` | pf-agent/src/service.rs:174-180 | Uncontended, the composition of its atomic steps: clears running, paused and the pause flag and sets the stop flag |
| `Service.StartAlone` | pf-agent/src/service.rs:147-159 | What the atomic steps of start amount to when nobody interferes |
| `Service.PauseAlone` | pf-agent/src/service.rs:161-167 | Likewise for pause, running or not |
| `Service.ResumeAlone` | pf-agent/src/service.rs:169-172 | Likewise for resume |
| `Service.StopAlone` | pf-agent/src/service.rs:174-180 | Likewise for stop |
| `Service.MarkerAlone` | pf-agent/src/service.rs:185-201 | Likewise for an accepted marker, with and without room in the queue |
| `Service.AgentService.AddMarker` | pf-agent/src/service.rs:185-201 | Uncontended, the method is the composition of the atomic steps |
| `Service.AgentService.DrainMarkers` | pf-agent/src/monitor.rs:633-640 | Takes the whole queue in order and leaves it empty |
| `Service.DrainKeeps` | pf-agent/src/monitor.rs:633-640 | Draining keeps the accounts balanced |
| `Service.AddedMeans` | pf-agent/src/service.rs:185-201 | An accepted marker is the newest pending and the newest shown; at most the oldest pending one is dropped, and counted |
| `Service.AddedKeeps` | pf-agent/src/service.rs:185-201 | Adding a marker keeps the accounts balanced |
| `Align.Align` | pf-core/src/analyze.rs:1144-1171 | Whenever both series are wall-sorted, the sweep is the join that looks up every x on its own |
| `Align.Sweep` | pf-core/src/analyze.rs:1149-1170 | One pass with a pointer that never moves back computes the join |
| `Align.Advance` | pf-core/src/analyze.rs:1150-1152 | The pointer ends at the latest y at or before x, or at the first y |
| `Align.Best` | pf-core/src/analyze.rs:1153-1166 | Of the two candidates the strictly nearer wins, so of equal stamps the earlier |
| `Align.MatchIsAsOf` | pf-core/src/analyze.rs:1144-1171 | With sorted y there is exactly one latest y at or before x (or the first y), and x is paired exactly when that y is within the tolerance, and then with it, or with its neighbour in front if that has the same stamp |
| `Align.KnownAreTheSamples` | pf-core/src/analyze.rs:1145-1146 | The join looks at exactly the samples with a value, in order, with their stamps and values |
| `Align.JoinIsThePairs` | pf-core/src/analyze.rs:1149-1170 | It yields one pair for exactly those x that find a partner, in x order |
| `Align.LatestIsMonotone` | pf-core/src/analyze.rs:1150-1152 | A later x never needs an earlier y |
| `Align.NotNearest` | pf-core/src/analyze.rs:1153-1166 | A concrete pair shows the join is not nearest-neighbour |
| `Timeouts.TimeoutWatch.Poll` | pf-agent/src/sched.rs:208-220 | Reports exactly the transition into a new episode, and counts it |
| `Timeouts.TimeoutWatch.NoteArrival` | pf-agent/src/sched.rs:224-226 | Reports exactly a recovery |
| `Timeouts.Monitor.Receive` | pf-agent/src/monitor.rs:2217-2239 | A message clears a timeout with one recovery event and keeps the expected arrival current, also while paused |
| `Timeouts.Monitor.PollCollectorTimeouts` | pf-agent/src/monitor.rs:666-690 | One pass polls every active collector with a known cadence |
| `Timeouts.RunSession` | pf-agent/src/monitor.rs:2185-2239 | A whole session of messages and passes |
| `Timeouts.EvidenceIsExact` | pf-agent/src/sched.rs:195-239 | On every run the events of a collector alternate timeout and recovery, `episodes` is the number of timeout events, and the timed-out set is those whose last event is a timeout |
| `Timeouts.FlaggedExactlyWhenLate` | pf-agent/src/sched.rs:188-220 | On every run a pass newly flags a collector exactly when it is active with a cadence, not timed out, and more than 3*cadence + 2000 ms have gone by since its last arrival, or since the start |
| `Timeouts.ArrivalEndsTimeout` | pf-agent/src/sched.rs:222-226 | On every run a message ends the timeout of its collector, with one event exactly if there was one to end |
| `Timeouts.OverdueMeans` | pf-agent/src/sched.rs:191-193 | Saturating arithmetic never flags early: on 64-bit stamps the test is the plain inequality |
| `Timeouts.ExpectedIsLastSeen` | pf-agent/src/monitor.rs:671-675 | The base of a poll is the stamp of the collector's last message |
| `PipeIO.Pipe.ReadExact` | pf-agent/src/ipc_server.rs:703-715 | Fills the buffer with the bytes of the stream in order whatever the chunks, in at most as many transfers as bytes, ending less than 1 ms past the deadline |
| `PipeIO.Pipe.ReadFrame` | pf-agent/src/ipc_server.rs:717-727 | The result is a function of the byte stream alone, or a timeout, deadline or transport error, or a close from an aborted operation; with a prompt peer it is that function |
| `PipeIO.Pipe.WriteAll` | pf-agent/src/ipc_server.rs:731-768 | The peer receives a prefix, everything exactly on success, in at most as many transfers as bytes, ending less than 1 ms past the deadline; a peer that takes bytes at once always makes it succeed |
| `PipeIO.Pipe.ReadChunk` | pf-agent/src/ipc_server.rs:628-663 | One read moves a non-empty prefix of the stream, or reports a close; a close is reported when nothing is left and otherwise only for an aborted operation |
| `PipeIO.WaitStaysNear` | pf-agent/src/ipc_server.rs:783-793 | A wait of the remaining time ends less than 1 ms past the deadline |
| `PipeIO.WaitIsLongest` | pf-agent/src/ipc_server.rs:783-793 | There is a wait exactly before the deadline, and it is the longest whole number of milliseconds within the remaining time and the cap, at least one |
| `PipeIO.ServeConnection` | pf-agent/src/ipc_server.rs:1035-1054 | A served request answers exactly the frame sent, and all phases end within the deadline, the handler's own time and 1 ms; a well-formed request from a prompt peer is always served |
| `PipeIO.FrameRoundTrip` | pf-core/src/ipc.rs:243-269 | Framing and reading back is the identity up to the size cap, whatever follows |
| `PipeIO.FrameLayout` | pf-core/src/ipc.rs:243-249 | A frame is the length in four bytes, lowest first, and the payload |
| `PipeIO.OversizeIsRefused` | pf-core/src/ipc.rs:121-123 | A payload over 8 MiB is refused by its length prefix alone, by both readers, as long as 32 bits can carry its length |
| `PipeIO.BadTextIsRefused` | pf-core/src/ipc.rs:264-266 | A complete payload that is not UTF-8 is refused by both readers |
| `PipeIO.CutFrameIsIncomplete` | pf-core/src/ipc.rs:253-263 | A frame cut anywhere is incomplete: the incremental reader asks for more, the pipe reader reports the close |
| `PipeIO.DeframeIsStable` | pf-core/src/ipc.rs:250-269 | More bytes never change a verdict of the incremental reader, and it is that of the whole stream |
| `InitRetry.Guard.NoteFailure` | pf-collectors/src/cpu.rs:283-289 | A failure counts an attempt and sets the next tick by the capped backoff |
| `InitRetry.Collector.Read` | pf-collectors/src/cpu.rs:350-367 | One read advances the tick and attempts exactly when allowed |
| `InitRetry.Reads` | pf-collectors/src/cpu.rs:483-487 | Any sequence of reads is the run of its answers |
| `InitRetry.AttemptsAreSpread` | pf-collectors/src/cpu.rs:241-248 | On every run attempt k comes exactly 5*(2^k - 1) reads after the first for k <= 7 and 635 + 320*(k - 7) after it beyond |
| `InitRetry.AttemptGaps` | pf-collectors/src/cpu.rs:241-248 | Consecutive attempts are 5 to 320 reads apart |
| `InitRetry.AttemptsGoOn` | pf-collectors/src/cpu.rs:275-280 | While every failure is retryable the last attempt is less than 320 reads old |
| `InitRetry.SettledForGood` | pf-collectors/src/cpu.rs:275-280 | After success or a permanent or permission failure no later read attempts again |
| `InitRetry.PermanentFailureSettles` | pf-collectors/src/cpu.rs:187-195 | A permanent or permission failure leaves the collector unready with no further attempt |
| `InitRetry.LastAttemptDecides` | pf-collectors/src/cpu.rs:350-367 | On every run the collector is ready exactly if its last attempt succeeded, and failed with exactly the class that attempt met |
| `InitRetry.ScheduleInClosedForm` | pf-collectors/src/cpu.rs:245-248 | The closed form of the schedule |
| `ClockSkew.StepsAgree` | pf-agent/src/sched.rs:290-314 | While the clocks advance together, the stamped wall and monotonic steps of any two samples differ by at most 2 ms, however long the acquisitions took |
| `ClockSkew.TwoIsReached` | pf-agent/src/sched.rs:104-111 | A concrete pair reaches that bound |
| `ClockSkew.RoundingIsSmall` | pf-agent/src/sched.rs:290-314 | Each monotonic stamp lies in its acquisition window, and the wall stamp is ahead of it by the clock offset up to rounding |
| `ClockSkew.StampsAreMidpoints` | pf-agent/src/sched.rs:290-314 | Both stamps are the midpoint of the acquisition on their own clock, to within a millisecond and a half |
| `ClockSkew.SlowCollectionIsNotSkew` | pf-agent/src/sched.rs:100-111 | Such readings are never classified as a skew boundary |

## Left out

- Win32, COM, PDH, DXGI and WLAN calls, handle lifetimes and security descriptors: foreign code without visible semantics.
- Floating-point rounding, and overflow that arises in arithmetic on finite numbers. A JSON number is kept as its token with its exact value, infinite where the token rounds to infinity; the shortest form in which `to_json` spells a finite number is not modelled.
- Scheduler: a channel of capacity 0 (rendezvous) is not modelled, and relaxed atomics are modelled as an interleaving.
- SessionLog.SessionWriter: I/O errors of the file are not modelled, every write succeeds; fsync and power loss are outside the source's promise too.
- Summary.SummaryAccum.LiveFooter: covers the energy evidence only; the percentiles, sample counts, coverage and scheduler figures of the clean footer are not assembled.
- Recovery: `samples` and the median differ by design between live and recovered footers and are not compared; the loop of the integrator is modelled on finite readings, an overflowed reading takes the reference over the extended reals.
- SessionLog.KilledSessionKeepsTheLiveFooter: speaks of readings that do not overflow, since the live accumulators are modelled over the reals.
- Records: sample records are any JSON object with a collector name; the field tables of the collectors are not modelled.
- InitRetry: the tick is unbounded, so its wrap-around after 2^64 reads is not modelled; matching of error strings is an input.
- PipeIO: the overlapped-operation calls are a script of sizes, durations and failures; the accept loop with its instance management and a handler that panics are not modelled.
- Service: the snapshot cell, the uptime and the response texts of the verbs are not modelled.
- Timeouts: the wording of events and scheduler-lateness statistics are not modelled.
- Correlation strength bands, `detect_changes`, `bucketize`, storage pruning and throughput totals are not modelled.
- The GUI, dashboards, text reports, argument parsing and name heuristics are not modelled.
