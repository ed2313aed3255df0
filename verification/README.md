# dd-agent: forwarder, DogStatsD aggregation and GC ring

A Dafny model of three stateful parts of the Datadog agent, with proofs of what
they guarantee over every run. Where the code does not keep a promise, the
model follows the code, and the exact condition under which it does is proved.

**The forwarder's replay queue** (`transaction.py`, `ddagent.py`). `Forwarder`
is a state machine whose events are clock readings, appends, periodic flushes,
timers and responses, in any order; the clock is any nondecreasing sequence and
any send may raise. `ForwarderManager` and `ForwarderAgent` hold the source's
classes, with their fields and loops, each method proved to do what the
state machine does. `ForwarderLedger`, `ForwarderInvariants` and `ForwarderSteps`
build the invariant of every run, `ForwarderTheorems`, `ForwarderProgress` and
`ForwarderLiveness` draw the conclusions, and `ForwarderCalls` says what single calls do; `ForwarderPacing` and `ForwarderWitnesses` hold runs that show
the bounds are tight.

**DogStatsD aggregation** (`aggregator.py`). `ContextFlow` follows one context
through submissions and flushes. `BucketAggregator` is the source's class, with its
two-level dictionary and the one-entry cache that aliases an inner dictionary;
its methods are proved to act on all contexts at once as `ContextFlow` says for
each. `ContextTheorems`, `ContextLaws`, `ContextExpiry`, `ContextGrouping`,
`ContextReports` and `ContextWitnesses` state what follows over runs. `Metrics`, `MetricObjects`,
`Histograms` and `MonotonicCounts` cover the metric classes; `Text`,
`MetricPackets` and `EventPackets` the packet parsers.

**Go garbage-collection pauses** (`checks.d/go_expvar.py`). `GcRing` reads new
entries out of a ring of 256 slots.

## What the proofs found

- A flush can get stuck for good. When `append` evicts the only request in
  flight and it later succeeds or is rejected, `_transactions.remove` raises before
  `flush_next` is called, `_trs_to_flush` never becomes `None` again, and no
  flush can start. `StepWedgesIff` shows that this is the only way while the loop runs,
  `WedgedForever` that it is permanent, `EvictionCanWedge` gives the run.
- `flush_next` reads the clock once for the cut-off and again for the throttle. One
  flush dispatches at most ceil((10 s + gap) / delay) transactions, the gap being
  that between the two readings before its last dispatch (`FlushBound`). So
  ceil(10 s / delay) holds for every run if and only if the gap fits into what rounding
  up leaves over, and for every delay some run dispatches one more (`WithinCeilIff`, `OneMore`).
- The circuit breaker's recompute can move a queued transaction *earlier*, by
  less than a second, exactly when it was never put off before and was created after
  the start of the current second (`SkippingMovesEarlierIff`, `SkippingCanMoveEarlier`).
- The branch commented "This should never happen" (aggregator.py:825) happens. A
  counter or histogram whose every point in a bucket had a zero sample rate always leads
  to it: the metric is created before the division raises, and keeps no sample time
  (`UnsampledExpires`). When flushes come within expiry minus interval of each other,
  nothing else does (`FlushExpiresIff`), and that distance is exact (`NeverExpiresIff`).
  No count is lost in this way (`NothingLost`).
- A point with an explicit timestamp, of whatever context, can reopen a flushed bucket. A live
  counter then reports that bucket again, with a zero if need be, and only then does it repeat a
  timestamp or go back (`RepeatsIff`, `LateTimestampRepeats`, `LateOtherRepeats`).
- A low percentile of few samples (p n <= 1/2) is the maximum: its index is -1
  (`WrapsIff`, `LowPercentileExceeds`).
- A datum with its sample rate behind the tags is cut in two exactly when a tag has a
  colon (`RateBehindTagsIff`).
- Event texts survive escaping exactly when they hold no backslash followed by an n
  (`TextSurvivesIff`).
- Every GC pause is reported once if and only if no two polls are more than 256
  collections apart (`EveryPauseOnceIff`).

## Model

| member | source | states |
|---|---|---|
| ForwarderTheorems.ReceivedIsAccountedFor | transaction.py:117-149 | Over every run, even where `remove` raises: received = queued + flushed + evicted, count and size totals are those of the list, rejected at most flushed, ids ascend and never exceed the counter. |
| ForwarderTheorems.InFlightIsBounded | transaction.py:198-244 | Over every run the running count is the number in flight, at most the parallelism limit; nothing is in flight when there is no current flush, so `tr_error` never iterates `None`; queued and in flight are disjoint. |
| ForwarderTheorems.DispatchOrder | transaction.py:175-211 | Within one flush the dispatched sequence is fewest errors first, then newest first, and nothing is dispatched twice. |
| ForwarderTheorems.EndpointErrorsAreBounded | transaction.py:256-270 | In every reachable state an endpoint's errors plus its requests in flight stay within threshold + parallelism - 1, and at the threshold none of its transactions is queued. |
| ForwarderTheorems.TrippedEndpointStaysOut | transaction.py:259-270 | After an endpoint reaches the threshold, nothing more is sent to it for the rest of that flush. |
| ForwarderTheorems.RunDraws | transaction.py:198-244 | Through any events of one flush its queue only shrinks, the dispatch log only grows, and every dispatch comes from that queue. |
| ForwarderProgress.FlushTakesWhatIsDue | transaction.py:151-188 | A flush while one is in progress does nothing. Else, if nothing is due at its first clock reading, only the count of flushes changes; if something is, a flush opens at the second reading, all it queues or dispatches was due, and all that was due is queued or dispatched, or its endpoint reached the threshold, or the cut-off passed. |
| ForwarderProgress.NothingIsSkipped | transaction.py:198-270 | Through any events of one flush, whatever was queued is still queued, or was dispatched, or its endpoint reached the threshold, or the cut-off passed; endpoints are charged for failures only. |
| ForwarderProgress.ErrorsAreFailures | transaction.py:246-270 | In every reachable state an endpoint's error count is the number of failures its transactions had since the current flush began. |
| ForwarderCalls.FlushNextDispatchesIff | transaction.py:200-213 | With something queued, `flush_next` dispatches if and only if its first reading is before the cut-off, a slot is free, and its second reading is at least the delay after the last dispatch; the last queued transaction goes first, with these readings. |
| ForwarderCalls.FlushNextReturns | transaction.py:221-244 | It returns with nothing queued, with all slots taken, or with a last reading less than the delay after the last dispatch, and adds a timer in the last case only, if the loop runs; it ends the flush exactly when nothing is queued or in flight. |
| ForwarderCalls.LaunchMeaning | transaction.py:211-219 | A send that does not raise puts the transaction in flight; one that raises is a failure at the next reading. |
| ForwarderCalls.TrErrorMeaning | transaction.py:246-270 | Transaction and endpoint are charged once, nobody else. Unless this failure reaches the threshold, the flush and all other transactions stay as they are; if it does, exactly the endpoint's queued transactions leave and are recomputed, the others staying in order. |
| ForwarderCalls.BackoffMeaning | transaction.py:55-63 | A recompute sets the next flush to the whole second at most, and less than one second before, the reading plus min(20 e s, max), and nothing else. |
| ForwarderCalls.CompletionMeaning | transaction.py:272-302 | A success or rejection of a listed transaction removes it and counts it, as rejected only if too large; of an evicted one it changes no count. |
| ForwarderCalls.CountsAreAnswers | transaction.py:272-302 | Over every run, flushed is the number of successes and rejections of listed transactions, rejected that of rejections. |
| ForwarderTheorems.DispatchesAreThrottled | transaction.py:207-213 | Any two dispatches of a whole run are at least the throttling delay apart, times the number of dispatches between them. |
| ForwarderTheorems.FlushIsShort | transaction.py:202-213 | At the throttled pace, all but the last dispatch of a flush fit into the 10 s cut-off, all of them when the last is stamped before it, and all of them in any case into 10 s plus the gap between the two readings before the last. |
| ForwarderTheorems.FlushBound | transaction.py:202-213 | With a positive delay a flush dispatches at most ceil(10 s / delay) + 1 transactions and at most ceil((10 s + gap) / delay), for the gap between the cut-off and the throttle reading before its last dispatch: ceil(10 s / delay) when one reading serves for both. |
| ForwarderPacing.WithinCeilIff | transaction.py:202-213 | ceil(10 s / delay) holds for all runs with at most that gap if and only if gap <= ceil(10 s / delay) * delay - 10 s. |
| ForwarderPacing.OneMore | transaction.py:202-213 | For every delay, a run with one dispatch more than ceil(10 s / delay), at the smallest gap beyond that limit. |
| ForwarderTheorems.ReplaysAreSpaced | transaction.py:55-66 | After its e-th error at time t a transaction is not dispatched again before t + min(20 e s, max) - 1 s. |
| ForwarderTheorems.BecomesEligible | transaction.py:55-66 | A queued transaction with errors is due no later than its latest recompute plus the delay, and less than a second before that. |
| ForwarderTheorems.SkippingMovesEarlierIff | transaction.py:260-265 | The breaker's recompute moves a queued transaction earlier exactly when it was never put off and its creation time is after the start of the current second; then by less than a second. |
| ForwarderWitnesses.SkippingCanMoveEarlier | transaction.py:260-265 | A run in which a skipped transaction that never failed becomes due earlier. |
| ForwarderLedger.AppendEvicts | transaction.py:127-146 | `append` evicts the shortest prefix of the queue by descending next flush that makes room; survivors are due no later than victims and keep their order; afterwards the size is within the limit, or is the new transaction's alone. |
| ForwarderLedger.EvictionOrderMeaning | transaction.py:134 | The eviction order lists exactly the queue, latest next flush first and oldest first among equals. |
| ForwarderLedger.EvictIsPrefix | transaction.py:135-140 | The loop with its repeated test removes a prefix of the candidates: one that suffices, where no shorter one does. |
| ForwarderLedger.AppendAccounts | transaction.py:121-149 | `append` keeps the totals, the ledger equation and the order of ids, evictions included. |
| ForwarderLedger.CommitAccounts | transaction.py:280-283 | Removing a committed transaction keeps them too. |
| ForwarderSteps.DueMeaning | transaction.py:160-162 | The selecting loop keeps exactly the transactions due at the given time, in queue order. |
| ForwarderSteps.FlushOrderMeaning | transaction.py:175-176 | The current flush holds exactly those, ending in fewest errors and newest id, without duplicates. |
| ForwarderSteps.StepKeeps | transaction.py:117-302 | Every event keeps the whole invariant: accounting, flight, order, breaker, throttle and back-off. |
| ForwarderSteps.RunKeeps | transaction.py:71-302 | So does every run of a new manager. |
| ForwarderLiveness.StepWedgesIff | transaction.py:272-302 | With the loop running, a step leaves a flush with nothing in flight and no timer if and only if the only request in flight completes (not by a plain error) after having been evicted. |
| ForwarderLiveness.RunNeverWedges | transaction.py:198-244 | A run in which that never happens never gets stuck. |
| ForwarderLiveness.WedgedForever | transaction.py:153-155 | Once stuck, no events of any kind dispatch anything again. |
| ForwarderWitnesses.EvictionCanWedge | transaction.py:132-140 | A run of four events that gets stuck with another transaction waiting. |
| ForwarderLiveness.DrainEndsFlushIff | transaction.py:237-238 | Once the queue is empty, whatever clock readings, appends, flushes, timers and outcomes come in between: the flush stays open until the last request in flight is answered, and ends then if and only if that answer is an error or still finds its transaction. |
| ForwarderManager.TransactionManager.constructor | transaction.py:75-108 | A new manager is the initial state, one clock reading taken. |
| ForwarderManager.Transaction.ComputeNextFlush | transaction.py:55-63 | Back-off by error count, capped, cut to the whole second. |
| ForwarderManager.TransactionManager.Append | transaction.py:121-149 | The method on objects and lists does the model's append, for any transaction without an id. |
| ForwarderManager.TransactionManager.EvictFor | transaction.py:132-140 | The eviction loop over sorted objects does the model's eviction. |
| ForwarderManager.TransactionManager.Flush | transaction.py:151-188 | Does the model's flush: nothing while one is in progress, else select, sort and start. |
| ForwarderManager.TransactionManager.FlushNext | transaction.py:198-244 | Does the model's `flush_next`: cut-off, dispatch, timer on a running loop, end of flush. |
| ForwarderManager.TransactionManager.PopAndSend | transaction.py:211-219 | Pops the last queued transaction, stamps and sends it; a send that raises is an error. |
| ForwarderManager.TransactionManager.TrError | transaction.py:246-270 | Charges transaction and endpoint, and empties the flush of the endpoint exactly at the threshold. |
| ForwarderManager.TransactionManager.SkipQueued | transaction.py:260-270 | The loop that puts off the endpoint's transactions and keeps the others. |
| ForwarderManager.TransactionManager.TrErrorRejectRequest | transaction.py:272-285 | Lands, counts the error, and removes the transaction; false when `remove` raises, with the part of the state changed before it. |
| ForwarderManager.TransactionManager.TrSuccess | transaction.py:294-302 | Lands and removes the transaction; false when `remove` raises. |
| ForwarderManager.TransactionManager.OnTimer | transaction.py:228-229 | The timer's callback is the model's timer event. |
| ForwarderAgent.OnResponse | ddagent.py:276-286 | Maps error and code to a completion and follows it by `flush_next` unless it raised; keeps the invariant of every run. |
| ForwarderAgent.OutcomeMeaning | ddagent.py:276-284 | No error is a success; of the errors, 413 and 400 reject and all others are tried again. |
| ForwarderAgent.Submit | ddagent.py:186-207 | One clock reading, one append per endpoint and key, one flush; keeps the invariant. |
| ForwarderAgent.FanOut | ddagent.py:199-206 | A payload becomes exactly one fresh transaction per endpoint and key, the j-th key of the i-th endpoint being numbered after all keys of the endpoints before it. |
| Buckets.BucketBounds | aggregator.py:752-753 | A timestamp's bucket is the multiple of the interval that it is not before and less than one interval after. |
| ContextTheorems.DiscardedIff | aggregator.py:770-774 | A point is discarded exactly when its timestamp's whole second lies more than the threshold before now. |
| ContextTheorems.BucketHolds | aggregator.py:776-778 | A point goes into the bucket around its timestamp, or around now when it has none or a zero. |
| ContextTheorems.TimestampsAscend | aggregator.py:808-857 | Over every well-timed run whose points fall in no flushed bucket, the timestamps emitted for a context never fall, are multiples of the interval and lie below the cutoff; a counter, through either zero-filling branch, and a gauge or set never repeat one. |
| ContextTheorems.LaterFlushesAreLater | aggregator.py:815-837 | In such a run, for metrics of every type, each point of a later flush is strictly later than each point of an earlier one. |
| ContextTheorems.UntimestampedIsInTime | aggregator.py:772-786 | Points without a timestamp never fall in a flushed bucket. |
| ContextLaws.RepeatsIff | aggregator.py:815-837 | With any timestamps: a flush lets a live counter repeat a timestamp or go back if and only if some completed bucket is not later than its last point; it reports every completed bucket, with a zero where it has no metric. |
| ContextWitnesses.LateTimestampRepeats | aggregator.py:772-786 | A late explicit timestamp makes a counter report its bucket twice. |
| ContextWitnesses.LateOtherRepeats | aggregator.py:772-786 | A late timestamp of another context makes a counter report its bucket again, with a zero. |
| ContextLaws.FlushFillsBuckets | aggregator.py:815-843 | While nothing expires, a flush gives a live counter exactly one point, rate or zero, per completed bucket; with no bucket at all, exactly one zero if an interval has passed since the last flush, else nothing. |
| ContextLaws.CounterConservation | aggregator.py:204-222 | Over every run, with any timestamps and rates: flushed value times interval + held + expired = the sum of value times int(1 / rate) over accepted points. |
| ContextExpiry.NothingLost | aggregator.py:795-837 | When flushes come often enough and no timestamp is ahead of the clock, flushed + held = accepted, whatever the rates. |
| ContextExpiry.NeverExpiresIff | aggregator.py:824-828 | Flushes at most `gap` apart that meet no bucket with only zero-rate points never reach the expiry branch if and only if interval + gap is within the expiry time. |
| ContextExpiry.FlushExpiresIff | aggregator.py:824-828 | A flush within that distance of its predecessor, after any run without timestamps ahead of the clock, takes the branch if and only if some completed bucket holds a counter or histogram whose points all had rate zero. |
| ContextExpiry.UnsampledExpires | aggregator.py:788-793 | Such a bucket always leads there, after any run and however soon. |
| ContextGrouping.FoldUnsampledIff | aggregator.py:788-793 | A metric lacks a sample time exactly when it was created as a counter or histogram and all its points since had rate zero, types mixed or not. |
| ContextExpiry.LateFlush | aggregator.py:824-828 | For every larger gap, a run that reaches the branch. |
| ContextExpiry.ZeroRateExpires | aggregator.py:788-793 | A single count of rate zero leads there; followed by another count, exactly when that one has rate zero too. |
| ContextExpiry.StaysSilent | aggregator.py:795-806 | Once the last recorded sample is older than the expiry time nothing is emitted, whatever follows, until a flush completes a bucket this context has been sampled in. |
| ContextGrouping.GroupsPendingPoints | aggregator.py:778-793 | The dictionaries hold what a plain list says: each bucket's metric is the fold of the accepted points of that bucket not yet flushed. |
| ContextGrouping.FoldMeaning | aggregator.py:192-341 | Folding means, by type: weighted sum, latest value, distinct values, all values with their total weight. |
| ContextReports.GaugeReports | aggregator.py:86-109 | Over every run of gauge points: a flush reports, at each completed bucket's timestamp, the value of the bucket's last pending point unless that is older than the expiry time, and nothing else. |
| ContextReports.SetReports | aggregator.py:310-341 | The same for sets, with the number of different values. |
| ContextReports.CounterReports | aggregator.py:192-222 | The same for counters in buckets with points: the weighted sum divided by the interval. |
| ContextReports.HistogramReports | aggregator.py:227-307 | The same for histograms: each configured aggregate once and the configured percentiles in order, each with the value its name says of the samples, and nothing else; nothing for a total weight of zero. |
| BucketAggregator.SameContextIff | aggregator.py:761-767 | Submissions share a context exactly when name, host after defaulting and device agree and the tags are the same set; no tags are the same as an empty list. |
| BucketAggregator.MetricsBucketAggregator.SubmitMetric | aggregator.py:755-793 | For every context at once: the submission's own context changes as `ContextFlow` says, all others only by the bucket opened; too old, unknown type and zero rate end as in the source. |
| BucketAggregator.ResultMeaning | aggregator.py:769-793 | Exactly when a submission is discarded, raises for its type, raises for its rate, or is accepted. |
| BucketAggregator.MetricsBucketAggregator.OpenBucket | aggregator.py:778-786 | Through the cache or not, the dictionary obtained is the bucket's own and the cache now aliases it; no metric changes. |
| BucketAggregator.MetricsBucketAggregator.CreateEmptyMetrics | aggregator.py:795-806 | Zero points for live contexts, removal of expired ones, for every context. |
| BucketAggregator.MetricsBucketAggregator.FlushBucket | aggregator.py:819-835 | One completed bucket, with the nested loop over its metrics, for every context. |
| BucketAggregator.MetricsBucketAggregator.FlushCompleted | aggregator.py:815-837 | The loop over sorted buckets emits for every context what closing them in order emits, and deletes exactly the completed ones. |
| BucketAggregator.MetricsBucketAggregator.Flush | aggregator.py:808-857 | For every context: the points and the state left are those of `ContextFlow`; the cache is emptied. |
| BucketAggregator.SortedKeys | aggregator.py:818 | Sorting lists every bucket once, ascending. |
| MetricObjects.Histogram.Flush | aggregator.py:251-307 | Aggregates in source order, then percentiles, from the sorted samples; nothing when the count is zero. |
| Histograms.CountCoversSamples | aggregator.py:246-253 | With rates in (0, 1] the count is at least the number of samples; with any rates the guard implies samples. |
| Histograms.WeightMeaning | aggregator.py:247 | A sample at rate r > 0 counts for the largest whole w with w r <= 1. |
| Histograms.AggregatesMean | aggregator.py:255-271 | Min and max are the extreme samples, sum is the sum of the samples as they came, avg shares it equally. |
| Histograms.MedianSplits | aggregator.py:260 | Of two or more sorted samples, the first half (rounded down) is at most the median and the rest at least. |
| Histograms.AggregateMeaning | aggregator.py:264-271 | Each aggregate by name, on the samples: least, greatest, n/2-th smallest, sum, average, count over interval. |
| Histograms.PercentileMeaning | aggregator.py:290-291 | The percentile is the sample of rank p n rounded to the nearest, halves up, or the greatest when p n <= 1/2. |
| Histograms.WithinRange | aggregator.py:260-291 | Median, average and percentiles stay within any bounds on the samples. |
| Metrics.IndicesInRange | aggregator.py:260-291 | Median and percentile indices lie in [-1, n - 1]. |
| Histograms.WrapsIff | aggregator.py:291 | The percentile index is -1 if and only if p n <= 1/2. |
| Histograms.PercentilesAscend | aggregator.py:290-291 | Percentiles ascend with p once p n > 1/2; below they are the maximum. |
| Histograms.NearestRank | aggregator.py:291 | Past that point the rank reported is within half a rank of p n. |
| Histograms.LowPercentileExceeds | aggregator.py:291 | Of three samples, the tenth percentile is above the median percentile. |
| Histograms.OrderIndependent | aggregator.py:251-307 | A flush does not depend on the order of the samples. |
| MonotonicCounts.MonotonicCount.Sample | aggregator.py:158-170 | The method's update of the three fields. |
| MonotonicCounts.MonotonicCount.Flush | aggregator.py:172-189 | Reports and resets only when there is a count, keeping the last sample for the next increment. |
| MonotonicCounts.FlushPlacementIsIrrelevant | aggregator.py:158-189 | Over any interleaving, flushed + pending = the sum of max(0, next - previous) over consecutive samples of the whole run. |
| MonotonicCounts.FlushCounts | aggregator.py:172-189 | A flush reports all that is pending, once two samples have been seen and one of them since the last report, and leaves nothing pending. |
| MonotonicCounts.LastMinusFirst | aggregator.py:158-189 | For a counter that never falls, that is last minus first. |
| MetricPackets.Regroup | aggregator.py:449-461 | The loop over colon-separated tokens computes the regrouping. |
| MetricPackets.RegroupIff | aggregator.py:448-461 | Regrouping is the one way to cut the text after the name into data that joined with colons rebuild it, have no bar behind their first colon and, but for the first, a bar before it. |
| MetricPackets.ParseOptions | aggregator.py:487-501 | The loop over optional fields, with its early ends. |
| MetricPackets.ParseMetricPacket | aggregator.py:437-504 | All data in order, or the first error. |
| MetricPackets.ParseValueMeaning | aggregator.py:473-485 | The value is the raw text for type "s", else the integer the text reads as, else the number, else the not-a-number error. |
| MetricPackets.OptionsMeaning | aggregator.py:487-501 | The options of any fields: the last rate and last tags when no field ends the loop; at the first that does, an error if it is a rate that is no number, else the default rate and the last tags before. |
| MetricPackets.DatumMeaning | aggregator.py:463-502 | How any datum parses, by its fields: at least two, a value, the options. |
| MetricPackets.PacketMeaning | aggregator.py:437-504 | Without a colon a packet is refused; otherwise it parses to the results of its data in order if all are good, else to the first error. |
| MetricPackets.PrintedPacketParses | aggregator.py:437-504 | A printed packet of well-formed metrics parses to what each of them says, with values, errors and rates out of range spelled out. |
| MetricPackets.PacketRoundTrip | aggregator.py:437-504 | With numbers in range it parses back to the same list, tags sorted. |
| MetricPackets.RateBehindTagsIff | aggregator.py:449-461 | With the rate behind the tags the datum stays whole if and only if no tag has a colon. |
| Text.SortedSetIff | aggregator.py:767 | Two lists of tags become the same sorted tuple exactly when they have the same members. |
| Text.SortedTagsIff | aggregator.py:497 | Sorted tags are the one ascending arrangement of the tags, duplicates kept. |
| Text.DecimalRoundTrip | aggregator.py:522-523 | Printed integers parse back to themselves. |
| Text.PaddedParses | aggregator.py:522-523 | Blanks around an integer and a plus sign before it do not matter. |
| EventPackets.TextSurvivesIff | aggregator.py:509-510 | Escaping and unescaping returns a text if and only if it holds no backslash followed by an n. |
| EventPackets.ParseFields | aggregator.py:530-544 | The loop over optional fields; an empty field or a bad date fails the packet. |
| EventPackets.ParseEventPacket | aggregator.py:512-547 | Header, lengths, slices and fields together. |
| EventPackets.FieldMeaning | aggregator.py:530-544 | A field is refused exactly when it is empty or a date that is no integer; unknown letters are ignored. |
| EventPackets.LengthsMeaning | aggregator.py:521-523 | The header needs exactly one comma, an integer from its fourth character to the comma and one from there to before its last character. |
| EventPackets.PacketRefusedIff | aggregator.py:512-547 | A packet is unparseable exactly when it has no colon, no two lengths, or a refused field. |
| EventPackets.EventRoundTrip | aggregator.py:512-547 | Events with any title and any list of fields parse back to themselves, fields set in order and tags sorted; the text too, exactly when `TextSurvivesIff` says so. |
| GcRing.GoExpvar.GetGcCollectionHistogram | checks.d/go_expvar.py:84-103 | The method records the count of its URL only, and adds the slice, value by value and in order, to what its URL has reported and to nothing else. |
| GcRing.ReportsLatest | checks.d/go_expvar.py:91-97 | Whatever the two counts, a poll reports the most recent pauses in order. |
| GcRing.ReportsNewPausesIff | checks.d/go_expvar.py:84-103 | A poll reports exactly the pauses since the previous one if and only if at most 256 collections ran in between. |
| GcRing.EveryPauseOnceIff | checks.d/go_expvar.py:84-103 | Over any polls every pause is reported exactly once and in order if and only if no two consecutive polls are more than 256 collections apart. |

## Left out

- HTTP, Tornado, curl, proxies, emitters, `ForwarderStatus` and logging: no effect on queue state. A send either puts the transaction in flight or raises.
- ForwarderManager.TransactionManager.FlushNext: omits the blocking branch of `_flush_without_ioloop` (transaction.py:230-233), meant for tests; a loop that is not started just schedules nothing. How often that branch sleeps and calls itself depends on how far each sleep moves the clock.
- Number representation: sizes and times of the forwarder are integers (microseconds), those of the aggregator and all metric values reals. Float rounding, infinities, NaN and Python 2's integer division for an integer interval are not modelled.
- `sys.getsizeof`: a transaction's size is a fixed number.
- Concurrency in the aggregator: submissions and flushes are atomic steps, as are the events of the forwarder's loop.
- Metrics inside the inner dictionaries are values; their classes are in `MetricObjects`, since no reference to a metric outlives a call.
- Metric types by context: a context that is used with two types keeps the first one's metric in a bucket, as in the source, but the theorems about counters assume one type per context.
- Set metrics: values are reals, where the source also admits text.
- Histogram configuration: percentiles lie in [0, 1), as the configuration reader enforces (config.py:299-317).
- Parsers: `int` and `float` for metric values are parameters; the integers of events are parsed concretely, for ASCII digits and whitespace. Service-check packets, `submit_packets`, magic tags and UTF-8 decoding are left out.
- MetricsAggregator, Gauge, Count, Rate, the lists of events and service checks, formatters: simpler relatives of what is modelled, or data carried through.
- ContextTheorems.TimestampsAscend: needs points that fall in no flushed bucket; what happens otherwise is stated flush by flush in `RepeatsIff`, for a live counter.
- ContextExpiry.FlushExpiresIff: needs timestamps that are not ahead of the clock; a metric in a future bucket may well be older than the expiry time when that bucket completes.
- GcRing.EveryPauseOnceIff: polls of one process whose count never falls; a restart, a missing `NumGC`, and the extraction of other variables are left out.
- The other checks, the daemon, the watchdog, configuration loading and JMX: process and file plumbing.
