# Verified models of the trading reference engines

A Dafny model of the repository's stateful engines, with proofs of what they promise over
whole runs. Each engine has a value-level specification (what one call does to one state)
and, where the original updates objects in place, a class whose methods are proved to follow
that specification on the history of all calls so far. The properties are proved about the
specification, over every history, and so hold of every state the class can reach.

| modules | engine |
|---|---|
| `LotOrder`, `TaxLots`, `TaxTrail`, `TaxLotEngine` | FIFO/HIFO tax-lot ledger: greedy matching, plan then commit, dust |
| `TickSampler`, `SamplerTrail`, `SamplerEngine` | adaptive 1-in-n tick sampler |
| `AuditLog` | hash-chained configuration audit log |
| `PointInTime`, `AsOfTrail`, `Integrator` | point-in-time feature store and as-of alignment |
| `BatchTuner`, `TunerTrail` | adaptive batch size and flush interval |
| `Numerals`, `Amounts`, `JsonText`, `Payloads`, `Vault`, `VaultTrail`, `Coordinator`, `CoordinatorTrail`, `ColdStorage` | air-gapped signing: amounts, JSON text, payloads, signer, coordinator, both together |
| `Rollback` | automated rollback trigger |
| `Lei`, `BusinessDays`, `TradeReport` | LEI check digits (ISO 17442, ISO/IEC 7064 MOD 97-10), business-day deadlines, report checks |
| `OhlcBars`, `StreamPolicies`, `StreamTrail`, `Backpressure` | tick-to-bar folding and per-stream overflow policies |
| `KillSwitch` | scoped trading halts, their audit log, the pre-trade gate |
| `BrokerWheel`, `WheelTrail` | broker ranking and allocation |
| `Highlight` | search-term highlighting |
| `Markout`, `MarkoutTrail` | post-trade markout accounting |
| `Options`, `Text`, `Ordering` | shared: absent values, string handling, orderings |

The `Trail` modules say what a run's answers must be from its inputs and earlier answers
alone, without the functions that compute them, and prove that the specification agrees.

`dafny verify dfyconfig.toml` checks everything.

## How the original is read

- Prices, quantities, rates and clock times are reals; counters are integers; `int()` of a
  non-negative value is its floor. Dates are day numbers, datetimes microseconds.
- Every clock reading, callback outcome, approver answer and adapter reply is an input, so
  the theorems hold for all of them. Where an engine reads a clock more than once in a call,
  each reading is an input of its own.
- A section under a lock is one step. `KillSwitch` keeps the two locked sections of a trigger
  apart and proves its properties for every interleaving.
- Exceptions are results. Type checks and constructor range checks are preconditions.
- SHA-256 and HMAC are free constructors over everything they cover: equal digests mean equal
  content. Nothing is claimed about forging a signature.
- A symbol or stream has a history of its own, or sees only the calls that name it; that one
  symbol or stream never disturbs another is part of what the methods promise.

## Where the code and its documentation differ

The model follows the code.

- `batch_tuner.py:21-24` says the buffer is bounded by the batch size by construction. A
  throttle can lower the batch size under a waiting buffer (`DepthCanExceedBatch`);
  `DepthWithinBatchExactly` says in which runs the bound holds, and the bound that always holds
  uses the largest batch size.
- `australia_asic_drt_obligations.py:320-322` says that omitting holidays can overstate the
  deadline. It can only make the deadline too early (`HolidaysNeverAdvanceDeadline`) and so
  overstate lateness (`OmittedHolidaysOverstateLateness`).
- `automated_tax_lot_reporting_pipeline.py:188-191` says that a failed sell leaves the ledger
  exactly as it was. It leaves the list re-sorted (`FailureCanReorder`), unless the list was in
  order (`FailureKeepsOrderExactly`); no later trade can tell (`FailedTradeIsUnobservable`).
- `verify_integrity` (`config_change_audit_logger.py:351-361`) accepts a record list that was
  emptied after records were emitted (`EmptiedListPasses`). Callers get a copy of the list, so
  only code that reaches into the logger can do that. Every other alteration is detected, as far
  as it changes the JSON text that is hashed.
- `total_degraded` (`backpressure_policy.py:125`) is described as ticks folded into bars, but
  is raised before the tick is examined (`DegradedCanOvercount`): it is right exactly when every
  overflow of the stream carried a price.
- `alert_count` (`backpressure_policy.py:127`) counts NEVER_DROP alerts that the cooldown
  silenced (`AlertCountCanOverstate`), and not the alert that announces an undeclared stream.
- `BackpressureDecision.accepted` (`backpressure_policy.py:107`) promises that the item is now
  in the queue or in a bar. With a deque of capacity zero DROP_OLDEST and SAMPLE accept an item
  that is not kept (`AcceptedCanBeLost`), and called without an item, as `handle_full` allows,
  they accept nothing and still evict (`AcceptedCanBeNothing`).
- The vault promises (`air_gapped_signing_workflow_for_cold_storage.py:282-288`) to refuse to
  sign the same intent twice. Payloads with versions 2 and 2.0 are equal and have different
  digests, so where nonces are not enforced it can sign one intent twice
  (`IntentCanBeSignedTwice`), never more often (`SignedAtMostTwice`).
- The kill switch's audit log can show a halt that is no longer in force (`LogCanOverstate`),
  when a release falls between the two locked sections of one trigger and nothing halts that
  scope again, and can end on another record of it (`LogCanGarble`), when two triggers of one
  scope overlap. A halt in force is always on the log once every trigger has logged.
- `indexOfToken` (`search.ts:71-76`) reports 0 for a short token that stands at index 1 behind
  a boundary character (`MisreportExample`), so its mark is one character too early.
  `highlight` searches on from the end of each mark, so a short word repeated after a single
  space is misplaced in mid-text as well (`MismarkExample`).
- `_is_valid_lei` (`australia_asic_drt_obligations.py:138-151`) accepts the check digits 00, 01
  and 99 where ISO/IEC 7064 issues 97, 98 and 02 (`TwoPairsExactly`).

## Model

| member | source | states |
|---|---|---|
| `TaxLots.HifoSellIsOptimal` | skills/automated-tax-lot-reporting-pipeline/scripts/automated_tax_lot_reporting_pipeline.py:107-221 | Every sell that succeeds under HIFO realises the least gain any allocation of the same quantity over the open lots above the dust threshold could realise |
| `TaxLots.HifoMaximisesBasis` | skills/automated-tax-lot-reporting-pipeline/scripts/automated_tax_lot_reporting_pipeline.py:211-221 | The greedy plan over lots sorted by descending cost has the greatest summed cost basis among all allocations of its total |
| `TaxLots.HifoMinimisesGain` | skills/automated-tax-lot-reporting-pipeline/scripts/automated_tax_lot_reporting_pipeline.py:128-150 | Hence, at any sell price, no allocation of the same total realises a smaller gain |
| `TaxLots.FifoConsumesOldestFirst` | skills/automated-tax-lot-reporting-pipeline/scripts/automated_tax_lot_reporting_pipeline.py:107-125 | In a sorted list a sell touches a lot only when every lot of an earlier time that is not dust gives all it has |
| `TaxLots.EarlierLotsAreExhausted` | skills/automated-tax-lot-reporting-pipeline/scripts/automated_tax_lot_reporting_pipeline.py:211-221 | For any order of the lots, one that gives something comes only after lots that gave all they could |
| `TaxLots.NeverOverConsumed` | skills/automated-tax-lot-reporting-pipeline/scripts/automated_tax_lot_reporting_pipeline.py:211-221 | No lot gives more than it has, nor a negative quantity |
| `TaxLots.CoveredSellIsComplete` | skills/automated-tax-lot-reporting-pipeline/scripts/automated_tax_lot_reporting_pipeline.py:211-266 | A sell that does not raise realises its quantity to within the dust threshold |
| `TaxLots.SellConserves` | skills/automated-tax-lot-reporting-pipeline/scripts/automated_tax_lot_reporting_pipeline.py:185-266 | One sell: held before equals realised plus held after plus discarded dust, in quantity and in cost basis |
| `TaxLots.LedgerConserves` | skills/automated-tax-lot-reporting-pipeline/scripts/automated_tax_lot_reporting_pipeline.py:160-266 | Over every run and for every symbol, bought equals realised plus open plus discarded dust, in quantity and in cost basis |
| `TaxLots.DustIsBounded` | skills/automated-tax-lot-reporting-pipeline/scripts/automated_tax_lot_reporting_pipeline.py:257-266 | The dust discarded over a run is at most the threshold times the lots removed |
| `TaxLots.EveryLedgerIsSound` | skills/automated-tax-lot-reporting-pipeline/scripts/automated_tax_lot_reporting_pipeline.py:171-266 | In every reachable ledger each lot holds between nothing and what was bought, at a cost that is not negative |
| `TaxLots.FailureIsInvisible` | skills/automated-tax-lot-reporting-pipeline/scripts/automated_tax_lot_reporting_pipeline.py:171-233 | A trade that raises changes the ledger at most by sorting one list |
| `TaxLots.FailureKeepsOrderExactly` | skills/automated-tax-lot-reporting-pipeline/scripts/automated_tax_lot_reporting_pipeline.py:185-233 | A failed sell leaves its list as it stood exactly when the list stood in matching order |
| `TaxLots.FailureCanReorder` | skills/automated-tax-lot-reporting-pipeline/scripts/automated_tax_lot_reporting_pipeline.py:188-191 | A sell that raises and moves a lot |
| `TaxLots.StepRespects` | skills/automated-tax-lot-reporting-pipeline/scripts/automated_tax_lot_reporting_pipeline.py:185-266 | Ledgers equal up to that sorting answer every trade alike and stay equal up to it |
| `TaxLots.FailedTradeIsUnobservable` | skills/automated-tax-lot-reporting-pipeline/scripts/automated_tax_lot_reporting_pipeline.py:185-233 | Deleting a failed trade from any run changes no later gain record, success or error |
| `TaxTrail.LotsAreBuys` | skills/automated-tax-lot-reporting-pipeline/scripts/automated_tax_lot_reporting_pipeline.py:171-183 | In every run each open lot carries the id, symbol, quantity, price and time of an earlier accepted buy, under its own symbol |
| `TaxTrail.GainsAreBuysAndSells` | skills/automated-tax-lot-reporting-pipeline/scripts/automated_tax_lot_reporting_pipeline.py:235-251 | Every gain record names an earlier accepted buy of the symbol by id, price and time, and its own sell by id, price and time; it draws at most what was bought and its gain is the price difference times the quantity |
| `TaxTrail.FirstLotsAreSoldInFull` | skills/automated-tax-lot-reporting-pipeline/scripts/automated_tax_lot_reporting_pipeline.py:107-255 | A sell draws on a buy only when every open lot that goes first, the older under FIFO, the costlier and then the older under HIFO, is sold in full by the same sell |
| `TaxTrail.SellReducesItsLots` | skills/automated-tax-lot-reporting-pipeline/scripts/automated_tax_lot_reporting_pipeline.py:235-266 | A lot open after a sell was open before it, and is short of exactly what a record of that sell draws on it |
| `TaxTrail.RefusedExactly` | skills/automated-tax-lot-reporting-pipeline/scripts/automated_tax_lot_reporting_pipeline.py:74-233 | A trade raises exactly for its first faulty field, without open lots, or when it exceeds what the open lots above dust hold, and then names the shortfall |
| `LotOrder.SortIsStable` | skills/automated-tax-lot-reporting-pipeline/scripts/automated_tax_lot_reporting_pipeline.py:107-125 | The strategy sort orders lots by its key and keeps the order of lots with equal keys |
| `LotOrder.StableSortIsUnique` | skills/automated-tax-lot-reporting-pipeline/scripts/automated_tax_lot_reporting_pipeline.py:107-125 | Order and stability determine the result, so any stable sort is this one |
| `LotOrder.SortAbsorbsSort` | skills/automated-tax-lot-reporting-pipeline/scripts/automated_tax_lot_reporting_pipeline.py:205-208 | Re-sorting a list whose front was already sorted gives what one sort of the whole would have, for both strategies |
| `TaxLotEngine.SortLots` | skills/automated-tax-lot-reporting-pipeline/scripts/automated_tax_lot_reporting_pipeline.py:107-125 | Sorting lot objects rearranges the same objects into the order the value-level sort gives |
| `TaxLotEngine.PlanMatch` | skills/automated-tax-lot-reporting-pipeline/scripts/automated_tax_lot_reporting_pipeline.py:211-221 | The planning loop computes the greedy takes and the rest left uncovered without touching a lot |
| `TaxLotEngine.CommitPlan` | skills/automated-tax-lot-reporting-pipeline/scripts/automated_tax_lot_reporting_pipeline.py:235-255 | Committing reduces each planned lot in place by exactly its take and emits one gain record for each |
| `TaxLotEngine.DropSettled` | skills/automated-tax-lot-reporting-pipeline/scripts/automated_tax_lot_reporting_pipeline.py:257-266 | Keeps in order exactly the lots with more than dust left |
| `TaxLotEngine.MatchSell` | skills/automated-tax-lot-reporting-pipeline/scripts/automated_tax_lot_reporting_pipeline.py:205-266 | Sort, plan, then commit: an oversold sell reduces no lot |
| `TaxLotEngine.Engine.ProcessTrade` | skills/automated-tax-lot-reporting-pipeline/scripts/automated_tax_lot_reporting_pipeline.py:160-169 | Each trade moves the ledger to the state the whole history determines; the cumulative gain list grows by exactly the records returned |
| `TaxLotEngine.Engine.HandleBuy` | skills/automated-tax-lot-reporting-pipeline/scripts/automated_tax_lot_reporting_pipeline.py:171-183 | A buy appends one lot of its own to its symbol and leaves every other lot and list as it was |
| `TaxLotEngine.Engine.HandleSell` | skills/automated-tax-lot-reporting-pipeline/scripts/automated_tax_lot_reporting_pipeline.py:185-266 | A sell changes only lots and lists of its symbol and returns the records the specification names |
| `TickSampler.OutputRateIsBounded` | skills/adaptive-sampling-under-extreme-tick-rates/scripts/tick_sampler.py:155-269 | Of the n ticks accepted in a clock second since the last reset, at most the sum of ceil(T/j), j = 1..ceil(n/T), emit an aggregate on ingestion, whatever the second before held |
| `TickSampler.WindowCountersAreTrueCounts` | skills/adaptive-sampling-under-extreme-tick-rates/scripts/tick_sampler.py:213-247 | The two window counters equal the numbers of ticks accepted since the last reset in the current and in the preceding clock second, in every reachable state |
| `TickSampler.FactorGrows` | skills/adaptive-sampling-under-extreme-tick-rates/scripts/tick_sampler.py:155-175 | At the n-th tick of a second the 1-in-n factor is at least ceil(n/T) |
| `TickSampler.EveryEmissionRepresents` | skills/adaptive-sampling-under-extreme-tick-rates/scripts/tick_sampler.py:248-311 | Every aggregate, flushed or not, carries the count, volume and notional of its block of ticks, at a price between the least and greatest of the block |
| `TickSampler.ResidualIsPending` | skills/adaptive-sampling-under-extreme-tick-rates/scripts/tick_sampler.py:248-269 | The residual accumulators always describe exactly the ticks accepted since the last aggregate |
| `TickSampler.BlocksPartitionTicks` | skills/adaptive-sampling-under-extreme-tick-rates/scripts/tick_sampler.py:192-311 | Blocks emitted, then pending ticks, are the accepted ticks in order since the last discarding reset: nothing lost, repeated or reordered |
| `TickSampler.TotalsAreConserved` | skills/adaptive-sampling-under-extreme-tick-rates/scripts/tick_sampler.py:248-311 | Count, volume and notional of all aggregates plus the residual accumulators are those of the ticks accepted since the last discarding reset |
| `SamplerTrail.EmitsExactly` | skills/adaptive-sampling-under-extreme-tick-rates/scripts/tick_sampler.py:213-269 | An accepted tick emits exactly when the ticks of this second and the weighted ones of the second before are within the target, or the pending ticks with this one reach the least integer from two up that brings the rate there; the aggregate reports that factor and mode |
| `SamplerTrail.LeastFactorExists` | skills/adaptive-sampling-under-extreme-tick-rates/scripts/tick_sampler.py:217-226 | There is such an integer for every rate over the target |
| `SamplerTrail.RefusedExactly` | skills/adaptive-sampling-under-extreme-tick-rates/scripts/tick_sampler.py:112-153 | A tick is refused exactly for its price, volume, sequence number or time against the last tick accepted since a reset, the first of these named |
| `SamplerTrail.FlushedExactly` | skills/adaptive-sampling-under-extreme-tick-rates/scripts/tick_sampler.py:271-311 | A flush answers nothing without pending ticks, refuses a time before the last tick, and otherwise emits an aggregate numbered -1 with factor 1 |
| `SamplerTrail.LastTickIsRemembered` | skills/adaptive-sampling-under-extreme-tick-rates/scripts/tick_sampler.py:232-233 | The stored sequence number and time are those of the last tick accepted since a reset |
| `SamplerEngine.Engine.IngestTick` | skills/adaptive-sampling-under-extreme-tick-rates/scripts/tick_sampler.py:183-269 | One tick moves its own symbol by the machine above and no other; a refusal changes nothing |
| `SamplerEngine.Engine.Accept` | skills/adaptive-sampling-under-extreme-tick-rates/scripts/tick_sampler.py:213-269 | The accepted-tick path: counters, rate, factor, accumulators and the aggregate it may emit |
| `SamplerEngine.Engine.FlushSymbol` | skills/adaptive-sampling-under-extreme-tick-rates/scripts/tick_sampler.py:271-311 | Emits the residual of one symbol or nothing; the empty symbol and a time before the last tick are refused |
| `SamplerEngine.Engine.FlushAll` | skills/adaptive-sampling-under-extreme-tick-rates/scripts/tick_sampler.py:313-336 | Flushes every residual in ascending symbol order, or refuses and changes nothing when one would be refused |
| `SamplerEngine.Engine.ResetSymbol` | skills/adaptive-sampling-under-extreme-tick-rates/scripts/tick_sampler.py:338-363 | Forgets one symbol, emitting or discarding its residual as asked, and touches no other; the empty symbol is refused |
| `AuditLog.HeadBindsHistory` | skills/audit-logging-for-configuration-changes/scripts/config_change_audit_logger.py:214-264 | Two genesis-anchored chains that verify and end in the same hash are the same chain |
| `AuditLog.HeadBindsWindow` | skills/audit-logging-for-configuration-changes/scripts/config_change_audit_logger.py:214-264 | Of two verifying windows with the same head, one is the tail of the other |
| `AuditLog.TamperingIsRejected` | skills/audit-logging-for-configuration-changes/scripts/config_change_audit_logger.py:214-264 | Any edit, removal or reordering that keeps the last record of a verifying chain is rejected |
| `AuditLog.WindowVerifies` | skills/audit-logging-for-configuration-changes/scripts/config_change_audit_logger.py:214-264 | Every contiguous window, hence every prefix, of a verifying chain verifies: truncation cannot be seen from the chain alone |
| `AuditLog.ChainsJoin` | skills/audit-logging-for-configuration-changes/scripts/config_change_audit_logger.py:214-264 | Two verifying chains join exactly where the second names the head of the first and continues its numbering |
| `AuditLog.RewritingIsUndetected` | skills/audit-logging-for-configuration-changes/scripts/config_change_audit_logger.py:169-264 | Re-hashing arbitrary contents gives a chain that verifies: the guarantee rests on a head held elsewhere |
| `AuditLog.VerifyChain` | skills/audit-logging-for-configuration-changes/scripts/config_change_audit_logger.py:214-264 | Accepts exactly the chains that verify and otherwise reports the first inconsistent record and what is wrong with it |
| `AuditLog.FaultExactly` | skills/audit-logging-for-configuration-changes/scripts/config_change_audit_logger.py:240-262 | The fault named for the first inconsistent record: its number, else its link to the record before, else its own digest |
| `AuditLog.ApprovedExactly` | skills/audit-logging-for-configuration-changes/scripts/config_change_audit_logger.py:363-385 | A request is approved exactly when it names a parameter and a user, is justified at the required length and changes to a value that Python does not hold equal; otherwise the first of these it lacks is the reason |
| `AuditLog.Logger.ProcessChangeRequest` | skills/audit-logging-for-configuration-changes/scripts/config_change_audit_logger.py:301-327 | Appends one record, linked to the head, approved or refused, and advances sequence and head together |
| `AuditLog.Logger.CreateRecord` | skills/audit-logging-for-configuration-changes/scripts/config_change_audit_logger.py:387-415 | Hashes the record, moves the head to it and keeps the chain verifying |
| `AuditLog.Logger.VerifyIntegrity` | skills/audit-logging-for-configuration-changes/scripts/config_change_audit_logger.py:351-361 | Passes exactly when the in-memory records are, text for text, the lines emitted over the whole run, or the list has been emptied |
| `AuditLog.KeepsIntegrity` | skills/audit-logging-for-configuration-changes/scripts/config_change_audit_logger.py:301-361 | Over every run of requests the logger keeps its own test true |
| `AuditLog.EmptiedListPasses` | skills/audit-logging-for-configuration-changes/scripts/config_change_audit_logger.py:351-361 | A logger with one record emitted and its list emptied, which the test passes |
| `PointInTime.NoLookAhead` | skills/alternative-data-feature-integration/scripts/alt_data_integrator.py:346-389 | Ingesting events whose revision, or event time where there is none, plus lag lies after t changes nothing served at t for a known source and shows a new source there as unknown |
| `PointInTime.LaterFactsAreInvisible` | skills/alternative-data-feature-integration/scripts/alt_data_integrator.py:346-389 | Facts known only after t leave the latest fact at t as it was |
| `PointInTime.ServedFactWasKnown` | skills/alternative-data-feature-integration/scripts/alt_data_integrator.py:346-389 | Whatever is served at t is a stored value keyed no later than t |
| `PointInTime.BatchOrderIsIrrelevant` | skills/alternative-data-feature-integration/scripts/alt_data_integrator.py:177-211 | Batches of the same events in any order, with any repeats, are all accepted or all refused, and stage the same facts |
| `PointInTime.CommitIsIdempotent` | skills/alternative-data-feature-integration/scripts/alt_data_integrator.py:204-211 | Committing a batch makes the store hold its facts, and a commit changes nothing exactly when the store already held them |
| `AsOfTrail.ServedExactly` | skills/alternative-data-feature-integration/scripts/alt_data_integrator.py:177-389 | After any accepted batches, what is served at t for a source is the newest event of it that was public by t, by revision if present and lag, the last ingested where two share a time; its age decides staleness by the source's own limit or the caller's, and without such an event nothing is served |
| `AsOfTrail.LaterBatchIsInvisible` | skills/alternative-data-feature-integration/scripts/alt_data_integrator.py:346-389 | One more batch of events not public by t changes nothing served at t |
| `AsOfTrail.AcceptedExactly` | skills/alternative-data-feature-integration/scripts/alt_data_integrator.py:177-247 | A batch is accepted exactly when every event has naive dates, a lag that is not negative, a finite value and the expected schema, and no two events of one source public at one time differ |
| `AsOfTrail.StoredIsLastWord` | skills/alternative-data-feature-integration/scripts/alt_data_integrator.py:180-206 | What is stored under a source and time comes of an ingested event public then, with no such event in a later batch |
| `Integrator.IndexIsDetermined` | skills/alternative-data-feature-integration/scripts/alt_data_integrator.py:254-272 | The store determines the sorted index, whatever order its facts are taken in |
| `Integrator.BisectRight` | skills/alternative-data-feature-integration/scripts/alt_data_integrator.py:360-366 | Binary search returns the number of entries not greater than the target |
| `Integrator.BisectionFindsLatest` | skills/alternative-data-feature-integration/scripts/alt_data_integrator.py:360-372 | The entry before the bisection point is the latest fact a scan of the whole store finds |
| `Integrator.Integrator.StageEvents` | skills/alternative-data-feature-integration/scripts/alt_data_integrator.py:177-203 | The staging loop raises exactly for batches with an invalid event or two different facts under one key |
| `Integrator.Integrator.IngestEvents` | skills/alternative-data-feature-integration/scripts/alt_data_integrator.py:153-211 | All or nothing: an acceptable batch joins the batches the store is built from, any other raises. A refused batch, and one the store already holds as it does right after ingesting it, leave every field and index unchanged |
| `Integrator.Integrator.RebuildIndices` | skills/alternative-data-feature-integration/scripts/alt_data_integrator.py:254-272 | Rewrites sorted and per-source indices so that they agree with the store |
| `Integrator.Integrator.AlignOne` | skills/alternative-data-feature-integration/scripts/alt_data_integrator.py:355-389 | The bisected answer for one source equals the scan of the store |
| `Integrator.Integrator.AlignToTradingSchedule` | skills/alternative-data-feature-integration/scripts/alt_data_integrator.py:298-389 | Alignment equals the scan of the store at every trading time and every known source; a timezone-aware time raises |
| `Integrator.Integrator.Reset` | skills/alternative-data-feature-integration/scripts/alt_data_integrator.py:249-252 | Empties the store and every index |
| `BatchTuner.BufferIsFifo` | skills/adaptive-batch-size-tuning-under-load/scripts/batch_tuner.py:330-392 | Between resets, all returned batches joined, then the buffer, are the accepted items in order, and the flushed-record counter is their number |
| `BatchTuner.StepKeepsBounds` | skills/adaptive-batch-size-tuning-under-load/scripts/batch_tuner.py:580-621 | Every operation keeps batch size and interval within their configured bounds and the buffer below the largest batch size |
| `BatchTuner.QueueFullIsUnreachable` | skills/adaptive-batch-size-tuning-under-load/scripts/batch_tuner.py:342-358 | With a queue at least as large as the largest batch no run ever raises the queue-full error |
| `BatchTuner.NoGrowthOverTarget` | skills/adaptive-batch-size-tuning-under-load/scripts/batch_tuner.py:580-621 | No run of operations that each leave the latency average above target, reset apart, enlarges the batch |
| `BatchTuner.ThrottleConverges` | skills/adaptive-batch-size-tuning-under-load/scripts/batch_tuner.py:412-430 | k writes that leave the average over target, the first of which may be what raises it, force the batch to at most max(minimum, k throttles of the starting size) |
| `BatchTuner.ShrunkIsPower` | skills/adaptive-batch-size-tuning-under-load/scripts/batch_tuner.py:412-430 | k exact throttles are a factor of the multiplier to the k-th power |
| `BatchTuner.LatencyWithinObservations` | skills/adaptive-batch-size-tuning-under-load/scripts/batch_tuner.py:635-647 | The latency average lies within the range of the latencies observed |
| `BatchTuner.DepthWithinBatchExactly` | skills/adaptive-batch-size-tuning-under-load/scripts/batch_tuner.py:21-24 | The documented bound: over a whole run the buffer never passes the batch size exactly when no write puts the average over target and throttles the batch below what is buffered |
| `BatchTuner.DepthExactly` | skills/adaptive-batch-size-tuning-under-load/scripts/batch_tuner.py:21-24 | The same for any excess over the batch size, and for staying below it |
| `BatchTuner.DepthStep` | skills/adaptive-batch-size-tuning-under-load/scripts/batch_tuner.py:412-430 | From a buffer within the bound, such a write is the only call that breaks it |
| `BatchTuner.DepthCanExceedBatch` | skills/adaptive-batch-size-tuning-under-load/scripts/batch_tuner.py:21-24 | A run that leaves three items buffered under a batch size of two, against the documented bound |
| `TunerTrail.AddsExactly` | skills/adaptive-batch-size-tuning-under-load/scripts/batch_tuner.py:330-365 | An item is refused closed or full; otherwise a batch is cut exactly when the buffer reaches the batch size or the interval is over. Full batches on average, with latency on target, enlarge the batch by the multiplier and shorten the interval, rarely full ones the reverse, and nothing else moves either |
| `TunerTrail.PollsExactly` | skills/adaptive-batch-size-tuning-under-load/scripts/batch_tuner.py:367-392 | A poll flushes exactly when the interval is over and something waits, tunes in the same way, and otherwise at most restarts the interval |
| `TunerTrail.RecordsExactly` | skills/adaptive-batch-size-tuning-under-load/scripts/batch_tuner.py:394-430 | A latency moves the average the configured share of the way; over target the batch shrinks by the multiplier, rounded down, to no less than the smallest |
| `TunerTrail.ForcesExactly` | skills/adaptive-batch-size-tuning-under-load/scripts/batch_tuner.py:442-525 | A forced flush cuts one batch and closing everything, in order, and neither moves batch size, interval or averages |
| `BatchTuner.Engine.AddItem` | skills/adaptive-batch-size-tuning-under-load/scripts/batch_tuner.py:330-365 | The stateful call follows the specification of one addition on the whole history |
| `BatchTuner.Engine.FlushIfDue` | skills/adaptive-batch-size-tuning-under-load/scripts/batch_tuner.py:367-392 | Flushes one batch exactly when the interval is over and the buffer is not empty; restarts the interval when it is |
| `BatchTuner.Engine.FlushNow` | skills/adaptive-batch-size-tuning-under-load/scripts/batch_tuner.py:442-459 | Takes one batch from the front without tuning |
| `BatchTuner.Engine.RecordWriteLatency` | skills/adaptive-batch-size-tuning-under-load/scripts/batch_tuner.py:394-430 | Updates the average and throttles exactly when it exceeds the target |
| `BatchTuner.Engine.Close` | skills/adaptive-batch-size-tuning-under-load/scripts/batch_tuner.py:505-525 | Returns what was buffered and refuses items from then on |
| `BatchTuner.Engine.Reset` | skills/adaptive-batch-size-tuning-under-load/scripts/batch_tuner.py:481-503 | Restores the initial state and reopens |
| `BatchTuner.Engine.FlushAndTuneLocked` | skills/adaptive-batch-size-tuning-under-load/scripts/batch_tuner.py:527-554 | Takes at most one batch from the front, counts it and tunes on its fill |
| `BatchTuner.Engine.ExtractBatchLocked` | skills/adaptive-batch-size-tuning-under-load/scripts/batch_tuner.py:556-564 | Pops the first items in order, up to the limit |
| `BatchTuner.Engine.TuneParametersLocked` | skills/adaptive-batch-size-tuning-under-load/scripts/batch_tuner.py:580-621 | Both feedback branches, with the latency gate, as the specification states them |
| `Amounts.AcceptedExactly` | skills/air-gapped-signing-workflow-for-cold-storage/scripts/air_gapped_signing_workflow_for_cold_storage.py:237-260 | An amount is accepted exactly when it is a finite decimal with an exponent of -18 or more whose wei value is positive and at most 2^256 - 1 |
| `Amounts.MagnitudeTestIsSafe` | skills/air-gapped-signing-workflow-for-cold-storage/scripts/air_gapped_signing_workflow_for_cold_storage.py:237-260 | The cheap test on the leading digit never rejects an amount that fits |
| `Amounts.CanonicalKeepsValue` | skills/air-gapped-signing-workflow-for-cold-storage/scripts/air_gapped_signing_workflow_for_cold_storage.py:237-260 | The canonical text denotes the same wei as the text it came from |
| `Amounts.CanonicalIsIdempotent` | skills/air-gapped-signing-workflow-for-cold-storage/scripts/air_gapped_signing_workflow_for_cold_storage.py:237-260 | Canonicalising canonical text returns it unchanged |
| `Amounts.FormatRoundTrip` | skills/air-gapped-signing-workflow-for-cold-storage/scripts/air_gapped_signing_workflow_for_cold_storage.py:237-260 | Fixed-point text reads back as the decimal it was formatted from |
| `Amounts.ScientificParses` | skills/air-gapped-signing-workflow-for-cold-storage/scripts/air_gapped_signing_workflow_for_cold_storage.py:241-244 | Scientific notation with either mark and either sign denotes its digits, shifted by the exponent less the fraction digits |
| `JsonText.TextRoundTrip` | skills/air-gapped-signing-workflow-for-cold-storage/scripts/air_gapped_signing_workflow_for_cold_storage.py:110-114 | Any string written with ASCII escapes reads back as itself |
| `JsonText.ObjectRoundTrip` | skills/air-gapped-signing-workflow-for-cold-storage/scripts/air_gapped_signing_workflow_for_cold_storage.py:110-119 | A flat object written in compact JSON reads back as its fields |
| `Payloads.WireRoundTrip` | skills/air-gapped-signing-workflow-for-cold-storage/scripts/air_gapped_signing_workflow_for_cold_storage.py:87-119 | Decoding the JSON text a payload is written as gives that payload |
| `Payloads.WireIsInjective` | skills/air-gapped-signing-workflow-for-cold-storage/scripts/air_gapped_signing_workflow_for_cold_storage.py:107-122 | Payloads written as the same text are equal, so a digest of the text stands for one payload |
| `Payloads.DecodedIsPayload` | skills/air-gapped-signing-workflow-for-cold-storage/scripts/air_gapped_signing_workflow_for_cold_storage.py:116-119 | Whatever text decodes gives a valid, canonical payload, a version of 2 or of any float literal that rounds to 2.0 included |
| `Payloads.DecodesExactly` | skills/air-gapped-signing-workflow-for-cold-storage/scripts/air_gapped_signing_workflow_for_cold_storage.py:62-119 | Text decodes to a payload exactly when it is a JSON object of the six named fields, each of its type and within range, that carry the payload's values |
| `Payloads.VersionRoundTrip` | skills/air-gapped-signing-workflow-for-cold-storage/scripts/air_gapped_signing_workflow_for_cold_storage.py:95-99 | Either version, 2 or 2.0, reads back as itself |
| `Vault.SignatureMeansApproval` | skills/air-gapped-signing-workflow-for-cold-storage/scripts/air_gapped_signing_workflow_for_cold_storage.py:389-413 | Every signature covers the payload the medium carried, whose own display was approved and which passed the vault's policy test |
| `Vault.SignedExactly` | skills/air-gapped-signing-workflow-for-cold-storage/scripts/air_gapped_signing_workflow_for_cold_storage.py:347-413 | A request is signed exactly when it decodes, passes the vault's policy test, was never signed, follows every signed nonce where enforced, and is approved |
| `Vault.SignedOnceInOrder` | skills/air-gapped-signing-workflow-for-cold-storage/scripts/air_gapped_signing_workflow_for_cold_storage.py:347-364 | No payload is signed twice in the same spelling, and enforced nonces strictly increase |
| `Vault.ResignedExactly` | skills/air-gapped-signing-workflow-for-cold-storage/scripts/air_gapped_signing_workflow_for_cold_storage.py:347-364 | Two signed payloads that Python holds equal differ in the spelling of the version, and nonces are not enforced |
| `Vault.SignedAtMostTwice` | skills/air-gapped-signing-workflow-for-cold-storage/scripts/air_gapped_signing_workflow_for_cold_storage.py:347-364 | No intent is signed three times |
| `Vault.IntentCanBeSignedTwice` | skills/air-gapped-signing-workflow-for-cold-storage/scripts/air_gapped_signing_workflow_for_cold_storage.py:282-288 | Any intent that passes policy and approval is signed again as version 2.0 where nonces are not enforced |
| `Vault.LedgerIsHistory` | skills/air-gapped-signing-workflow-for-cold-storage/scripts/air_gapped_signing_workflow_for_cold_storage.py:347-413 | The stored digests and highest nonce are exactly those of the payloads signed so far |
| `Vault.PayloadHasWei` | skills/air-gapped-signing-workflow-for-cold-storage/scripts/air_gapped_signing_workflow_for_cold_storage.py:327-345 | Every valid payload has a positive uint256 amount in wei, so the ceiling always compares |
| `VaultTrail.PolicyExactly` | skills/air-gapped-signing-workflow-for-cold-storage/scripts/air_gapped_signing_workflow_for_cold_storage.py:313-345 | A payload passes policy exactly when its chain is the expected one, its destination is listed in whatever letter case, and its amount denotes at most the ceiling, compared as decimal values |
| `VaultTrail.SignsExactly` | skills/air-gapped-signing-workflow-for-cold-storage/scripts/air_gapped_signing_workflow_for_cold_storage.py:327-413 | In any run a request is signed exactly when it decodes, meets those three limits, is no replay and its own display is approved; the envelope carries its text, digest, key id and the signature over that digest |
| `VaultTrail.WeiOrderIsValueOrder` | skills/air-gapped-signing-workflow-for-cold-storage/scripts/air_gapped_signing_workflow_for_cold_storage.py:342-343 | Comparing in wei is comparing decimal values |
| `VaultTrail.DisplayedLines` | skills/air-gapped-signing-workflow-for-cold-storage/scripts/air_gapped_signing_workflow_for_cold_storage.py:124-143 | The approver reads five lines, one for each field: no field can add, hide or move a line |
| `VaultTrail.DisplayDeterminesTransfer` | skills/air-gapped-signing-workflow-for-cold-storage/scripts/air_gapped_signing_workflow_for_cold_storage.py:124-143 | Payloads displayed with the same text have the same destination, amount, network, chain and nonce |
| `Vault.Signer.SignQrPayload` | skills/air-gapped-signing-workflow-for-cold-storage/scripts/air_gapped_signing_workflow_for_cold_storage.py:389-413 | The stateful signer returns what the whole history calls for and keeps its state on a refusal |
| `Coordinator.StepKeeps` | skills/air-gapped-signing-workflow-for-cold-storage/scripts/air_gapped_signing_workflow_for_cold_storage.py:445-577 | Every operation keeps: unresolved within consumed within issued, consumed apart from invalidated, one intent for each nonce after the starting one |
| `Coordinator.AlwaysInv` | skills/air-gapped-signing-workflow-for-cold-storage/scripts/air_gapped_signing_workflow_for_cold_storage.py:419-577 | Hence every reachable state has that invariant, for arbitrary envelopes and adapter replies |
| `Coordinator.DispatchedOnce` | skills/air-gapped-signing-workflow-for-cold-storage/scripts/air_gapped_signing_workflow_for_cold_storage.py:527-577 | The adapter is never called twice with one payload |
| `Coordinator.DispatchedWasIssuedAndNeverVoid` | skills/air-gapped-signing-workflow-for-cold-storage/scripts/air_gapped_signing_workflow_for_cold_storage.py:494-577 | What the adapter sees was issued earlier and is in the set of voided intents at no time |
| `Coordinator.ConsumedIsDispatched` | skills/air-gapped-signing-workflow-for-cold-storage/scripts/air_gapped_signing_workflow_for_cold_storage.py:527-577 | The consumed set is exactly what the adapter has seen |
| `Coordinator.IssuedNoncesAreExact` | skills/air-gapped-signing-workflow-for-cold-storage/scripts/air_gapped_signing_workflow_for_cold_storage.py:445-457 | Issued nonces are exactly starting nonce + 1 up to the counter, one intent each |
| `Coordinator.DispatchFacts` | skills/air-gapped-signing-workflow-for-cold-storage/scripts/air_gapped_signing_workflow_for_cold_storage.py:494-525 | The adapter is called only for an issued, unconsumed, live payload with a matching digest, chain, key id and MAC |
| `CoordinatorTrail.VoidIsFinal` | skills/air-gapped-signing-workflow-for-cold-storage/scripts/air_gapped_signing_workflow_for_cold_storage.py:459-577 | Once a call has confirmed that an intent is void, no broadcast before or after it hands that intent to the adapter |
| `CoordinatorTrail.InvalidatesExactly` | skills/air-gapped-signing-workflow-for-cold-storage/scripts/air_gapped_signing_workflow_for_cold_storage.py:459-470 | An invalidation is confirmed exactly when an earlier call issued the intent and none has handed it to the adapter |
| `CoordinatorTrail.ResolvesExactly` | skills/air-gapped-signing-workflow-for-cold-storage/scripts/air_gapped_signing_workflow_for_cold_storage.py:476-492 | A broadcast is settled exactly when an earlier call left it unresolved and none has settled it since |
| `CoordinatorTrail.BroadcastExactly` | skills/air-gapped-signing-workflow-for-cold-storage/scripts/air_gapped_signing_workflow_for_cold_storage.py:494-577 | A broadcast is rejected exactly for the first check it fails, told from earlier answers; otherwise the payload goes to the adapter and is accepted exactly when the reply is a reference that is not blank |
| `CoordinatorTrail.CreatesExactly` | skills/air-gapped-signing-workflow-for-cold-storage/scripts/air_gapped_signing_workflow_for_cold_storage.py:445-457 | An intent carries the address and amount asked for, the coordinator's chain and the next nonce; it raises exactly for a bad address, a bad amount, or a chain or nonce out of range |
| `CoordinatorTrail.LedgersAreTold` | skills/air-gapped-signing-workflow-for-cold-storage/scripts/air_gapped_signing_workflow_for_cold_storage.py:419-577 | The four ledgers hold exactly what the answers so far said |
| `Coordinator.OnlineCoordinator.CreateUnsignedTransfer` | skills/air-gapped-signing-workflow-for-cold-storage/scripts/air_gapped_signing_workflow_for_cold_storage.py:445-457 | Issues the next nonce, or raises and changes nothing |
| `Coordinator.OnlineCoordinator.InvalidateIntent` | skills/air-gapped-signing-workflow-for-cold-storage/scripts/air_gapped_signing_workflow_for_cold_storage.py:459-470 | Answers and changes the ledger as the specification of the whole history says |
| `Coordinator.OnlineCoordinator.ResolveUnresolved` | skills/air-gapped-signing-workflow-for-cold-storage/scripts/air_gapped_signing_workflow_for_cold_storage.py:476-492 | Settles an unresolved payload without making it submittable again |
| `Coordinator.OnlineCoordinator.VerifyEnvelope` | skills/air-gapped-signing-workflow-for-cold-storage/scripts/air_gapped_signing_workflow_for_cold_storage.py:494-525 | Returns the payload or the first check it fails |
| `Coordinator.OnlineCoordinator.BroadcastToNetwork` | skills/air-gapped-signing-workflow-for-cold-storage/scripts/air_gapped_signing_workflow_for_cold_storage.py:527-577 | Follows the specification for every envelope and every adapter outcome |
| `ColdStorage.HonestTransferIsAcceptedOnce` | skills/air-gapped-signing-workflow-for-cold-storage/scripts/air_gapped_signing_workflow_for_cold_storage.py:389-577 | Create, sign and broadcast over an honest medium is accepted; presented again, the same envelope is refused |
| `ColdStorage.BroadcastWasApproved` | skills/air-gapped-signing-workflow-for-cold-storage/scripts/air_gapped_signing_workflow_for_cold_storage.py:389-577 | A payload the adapter sees through an envelope of the vault was issued here, and its own display was approved there |
| `Rollback.RollbackExactly` | skills/automated-rollback-triggers-on-anomaly-detection/scripts/anomaly_rollback_trigger.py:285-397 | A rollback is recommended exactly when the sample breaches outside volatility, budget is left, every cooldown is over and the evidence reaches the required number |
| `Rollback.RollbackRestsOnEvidence` | skills/automated-rollback-triggers-on-anomaly-detection/scripts/anomaly_rollback_trigger.py:285-397 | Each rollback rests on exactly the required number of such samples, itself included, after every earlier cooldown, with no healthy sample and no rollback in between |
| `Rollback.RollbacksAreSpaced` | skills/automated-rollback-triggers-on-anomaly-detection/scripts/anomaly_rollback_trigger.py:219-224 | With a clock that never runs back two rollbacks are at least the cooldown apart |
| `Rollback.NeverBeyondCap` | skills/automated-rollback-triggers-on-anomaly-detection/scripts/anomaly_rollback_trigger.py:285-397 | No run, whatever its clock, has more rollbacks than the cap |
| `Rollback.StreakStaysBelow` | skills/automated-rollback-triggers-on-anomaly-detection/scripts/anomaly_rollback_trigger.py:285-397 | While budget is left the streak is below the required number after every call |
| `Rollback.StreakIsEvidence` | skills/automated-rollback-triggers-on-anomaly-detection/scripts/anomaly_rollback_trigger.py:285-397 | The streak is exactly the evidence in the run |
| `Rollback.CooldownIsOver` | skills/automated-rollback-triggers-on-anomaly-detection/scripts/anomaly_rollback_trigger.py:219-224 | Testing the latest rollback alone is testing all of them |
| `Rollback.DecidesExactly` | skills/automated-rollback-triggers-on-anomaly-detection/scripts/anomaly_rollback_trigger.py:285-397 | The whole table of decisions from the run: healthy within every limit; suppressed in volatility, in a cooldown while budget is left, or confirmed without budget; confirming short of the evidence; otherwise a rollback |
| `Rollback.AnomaliesExactly` | skills/automated-rollback-triggers-on-anomaly-detection/scripts/anomaly_rollback_trigger.py:226-266 | One anomaly for each metric over its limit, in order, with observed value and threshold, latency alone a warning |
| `Rollback.Engine.EvaluateMetrics` | skills/automated-rollback-triggers-on-anomaly-detection/scripts/anomaly_rollback_trigger.py:268-397 | The decision, counters and reported cooldown are those the whole run calls for |
| `Rollback.Engine.RemainingCooldownAt` | skills/automated-rollback-triggers-on-anomaly-detection/scripts/anomaly_rollback_trigger.py:219-224 | Never negative, and positive exactly within the cooldown of a rollback |
| `Rollback.Engine.Reset` | skills/automated-rollback-triggers-on-anomaly-detection/scripts/anomaly_rollback_trigger.py:212-217 | Starts a deployment over |
| `Lei.ConcatenatedTestIsRunningFold` | skills/australia-asic-drt-obligations/scripts/australia_asic_drt_obligations.py:127-135 | The remainder of the concatenated big integer is a running fold whose state stays below 97 |
| `Lei.SubstitutionIsDetected` | skills/australia-asic-drt-obligations/scripts/australia_asic_drt_obligations.py:127-151 | Replacing one character of a valid LEI by another of its class is always rejected |
| `Lei.SubstitutionExact` | skills/australia-asic-drt-obligations/scripts/australia_asic_drt_obligations.py:127-151 | Every single-character error: replacing a character of a valid LEI goes unnoticed exactly when, among the first eighteen, a digit and a letter change places whose difference, with 90 times the value of what precedes them, is a multiple of 97 |
| `Lei.TranspositionExact` | skills/australia-asic-drt-obligations/scripts/australia_asic_drt_obligations.py:127-151 | Exchanging two different neighbours goes unnoticed exactly for the pairs 1/B, 2/M and 3/X among the first eighteen characters |
| `Lei.CheckPairExactly` | skills/australia-asic-drt-obligations/scripts/australia_asic_drt_obligations.py:127-151 | Of the hundred pairs of check digits the code accepts, for any base, exactly those with the remainder the base asks for |
| `Lei.TwoPairsExactly` | skills/australia-asic-drt-obligations/scripts/australia_asic_drt_obligations.py:127-151 | It accepts two pairs for one base exactly when that remainder is 0, 1 or 2 |
| `Lei.CheckPairExistsUniquely` | skills/australia-asic-drt-obligations/scripts/australia_asic_drt_obligations.py:127-151 | Among 02 to 98, the pairs ISO/IEC 7064 issues, exactly one is accepted |
| `Lei.NumericTextIsWeighted` | skills/australia-asic-drt-obligations/scripts/australia_asic_drt_obligations.py:127-135 | The text joined from the characters denotes their weighted sum |
| `Lei.CommonTail` | skills/australia-asic-drt-obligations/scripts/australia_asic_drt_obligations.py:127-135 | A common tail neither hides nor creates a difference of remainders |
| `BusinessDays.AddBusinessDays` | skills/australia-asic-drt-obligations/scripts/australia_asic_drt_obligations.py:234-255 | For any finite holiday set the loop ends and returns the least date with exactly that many business days after the start; a negative count raises |
| `BusinessDays.BusinessDaysOfWeek` | skills/australia-asic-drt-obligations/scripts/australia_asic_drt_obligations.py:252-253 | Business days are the first five of each week counted from a Monday, 1 January 2024 for one, holidays apart |
| `BusinessDays.BeforeDeadline` | skills/australia-asic-drt-obligations/scripts/australia_asic_drt_obligations.py:399-405 | A date is before the deadline exactly when fewer than the allowed business days have passed |
| `BusinessDays.DeadlineIsUnique` | skills/australia-asic-drt-obligations/scripts/australia_asic_drt_obligations.py:234-255 | There is one such date |
| `BusinessDays.DeadlinesCompose` | skills/australia-asic-drt-obligations/scripts/australia_asic_drt_obligations.py:234-255 | n business days and then m are n + m business days |
| `BusinessDays.DeadlineMonotone` | skills/australia-asic-drt-obligations/scripts/australia_asic_drt_obligations.py:234-255 | Starting later or counting further never gives an earlier date |
| `BusinessDays.HolidaysNeverAdvanceDeadline` | skills/australia-asic-drt-obligations/scripts/australia_asic_drt_obligations.py:320-322 | More holidays never make the deadline earlier: leaving them out can only understate it |
| `TradeReport.DefectsAreExact` | skills/australia-asic-drt-obligations/scripts/australia_asic_drt_obligations.py:340-394 | The defects reported are exactly those whose rule the trade breaks, each once and in the order of the checks |
| `TradeReport.HasExactly` | skills/australia-asic-drt-obligations/scripts/australia_asic_drt_obligations.py:154-197 | Which field calls for which defect: lengths, alphabets and prefixes of each identifier, and when it may be absent |
| `TradeReport.FindDefects` | skills/australia-asic-drt-obligations/scripts/australia_asic_drt_obligations.py:340-394 | The appending checks produce that list |
| `TradeReport.CheckDeadline` | skills/australia-asic-drt-obligations/scripts/australia_asic_drt_obligations.py:395-405 | T+2, or T+4 for a package that is no FX swap leg: late exactly when the allowance ended before the reporting date |
| `TradeReport.ValidateReport` | skills/australia-asic-drt-obligations/scripts/australia_asic_drt_obligations.py:307-436 | The record: defects in order, ready exactly when there is none, a deadline of four business days for a package that is no FX swap leg and of two otherwise, late exactly after it, outage relief only where late and unavailable; a report before its trade raises |
| `TradeReport.OmittedHolidaysOverstateLateness` | skills/australia-asic-drt-obligations/scripts/australia_asic_drt_obligations.py:320-322 | Naming more holidays can clear a report of lateness, never make it late |
| `OhlcBars.BarsDescribeRuns` | skills/backpressure-drop-degrade-policy/scripts/backpressure_policy.py:190-246 | Each completed bar is first, greatest, least, last and sum of its run of ticks, all inside [start, start + interval) |
| `OhlcBars.BarsPartitionTicks` | skills/backpressure-drop-degrade-policy/scripts/backpressure_policy.py:190-246 | The runs of the completed bars and of the open bar are all the ticks in arrival order |
| `OhlcBars.OpenDescribed` | skills/backpressure-drop-degrade-policy/scripts/backpressure_policy.py:190-246 | The open bar describes its own run in the same way |
| `OhlcBars.OpensExactly` | skills/backpressure-drop-degrade-policy/scripts/backpressure_policy.py:215-228 | A tick opens a new bar exactly when it falls in another interval than the open bar's first tick |
| `OhlcBars.OrderedTicksGiveLaterBars` | skills/backpressure-drop-degrade-policy/scripts/backpressure_policy.py:215-228 | Ordered ticks give bars with strictly increasing starts |
| `OhlcBars.SnapExactly` | skills/backpressure-drop-degrade-policy/scripts/backpressure_policy.py:225-228 | The start is the one multiple of the interval whose interval holds the tick |
| `OhlcBars.Numeric` | skills/backpressure-drop-degrade-policy/scripts/backpressure_policy.py:172-188 | The first usable number among the fields: zero counts, and what is no finite number is passed over |
| `OhlcBars.TickAggregator.AddTick` | skills/backpressure-drop-degrade-policy/scripts/backpressure_policy.py:190-246 | Folds one tick and returns the bar it closes; a tick without a usable price raises and changes nothing |
| `StreamPolicies.BacklogIsNewest` | skills/backpressure-drop-degrade-policy/scripts/backpressure_policy.py:449-518 | Over any run of overflows without a consumer, interleaved with other streams, the queue is what it held plus what was enqueued, less its oldest items, as many as were counted as dropped |
| `StreamPolicies.BacklogNeverGrows` | skills/backpressure-drop-degrade-policy/scripts/backpressure_policy.py:449-518 | A non-empty queue never grows under any policy, whatever the overflows carry |
| `StreamPolicies.BacklogKeepsLength` | skills/backpressure-drop-degrade-policy/scripts/backpressure_policy.py:449-518 | It keeps its length when every overflow carries an item: each item enqueued takes the place of the oldest |
| `StreamPolicies.NeverDropKeepsQueue` | skills/backpressure-drop-degrade-policy/scripts/backpressure_policy.py:449-518 | A NEVER_DROP stream keeps its queue, accepts nothing and counts every overflow |
| `StreamPolicies.SampleAdmitsExactly` | skills/backpressure-drop-degrade-policy/scripts/backpressure_policy.py:468-487 | Of K overflows SAMPLE admits floor(K/n) and counts the other K - floor(K/n) as sampled |
| `StreamPolicies.OneInEveryWindow` | skills/backpressure-drop-degrade-policy/scripts/backpressure_policy.py:468-487 | Any n consecutive overflows of the stream admit exactly one item |
| `StreamPolicies.EnqueuedIsHeldExactly` | skills/backpressure-drop-degrade-policy/scripts/backpressure_policy.py:459-487 | Where a reply says an item was enqueued, the item is in the queue exactly when the call carried one and the deque has room at all |
| `StreamPolicies.AcceptedCanBeLost` | skills/backpressure-drop-degrade-policy/scripts/backpressure_policy.py:459-467 | An item accepted by DROP_OLDEST and not kept |
| `StreamPolicies.AcceptedCanBeNothing` | skills/backpressure-drop-degrade-policy/scripts/backpressure_policy.py:459-467 | An overflow without an item, accepted, that empties the queue |
| `StreamPolicies.OverflowsAreAccounted` | skills/backpressure-drop-degrade-policy/scripts/backpressure_policy.py:449-497 | Every overflow and observed push is counted once, under its policy; evictions and skips never outnumber overflows |
| `StreamTrail.AnsweredExactly` | skills/backpressure-drop-degrade-policy/scripts/backpressure_policy.py:432-520 | Every overflow is answered by its stream's policy, a sampled one by its number among the overflows: the reply field by field and what the deque then holds; only a strict manager refuses an undeclared stream |
| `StreamTrail.AskedExactly` | skills/backpressure-drop-degrade-policy/scripts/backpressure_policy.py:357-430 | Alerts are asked for exactly at the first call on an undeclared stream, at observations at the watermark, which are counted, and at never-drop overflows |
| `StreamTrail.ParsesExactly` | skills/backpressure-drop-degrade-policy/scripts/backpressure_policy.py:190-214 | An item is folded exactly when it carries a price, as the tick its usable fields give |
| `StreamPolicies.DegradeFoldsPricedTicks` | skills/backpressure-drop-degrade-policy/scripts/backpressure_policy.py:488-497 | Exactly the items with a usable price are folded, and the replies carry exactly the completed bars |
| `StreamPolicies.DegradeLosesNoTick` | skills/backpressure-drop-degrade-policy/scripts/backpressure_policy.py:488-497 | Over any run the bars handed out and the open bar partition the priced items in order |
| `StreamPolicies.DegradedCountExactly` | skills/backpressure-drop-degrade-policy/scripts/backpressure_policy.py:488-493 | The degraded counter is the number of folded ticks exactly when every overflow carried a price |
| `StreamPolicies.DegradedCanOvercount` | skills/backpressure-drop-degrade-policy/scripts/backpressure_policy.py:488-493 | A run in which a refused item is counted as folded |
| `StreamPolicies.StreamAlertsAreLimited` | skills/backpressure-drop-degrade-policy/scripts/backpressure_policy.py:264-281 | On each stream, alerts that fire are at least the cooldown apart and a silenced alert falls within the cooldown of one that fired |
| `StreamPolicies.AlertCountExactly` | skills/backpressure-drop-degrade-policy/scripts/backpressure_policy.py:408-458 | The alert counter is the alerts fired plus the silenced NEVER_DROP ones, less the one that announces an undeclared stream |
| `StreamPolicies.AlertCountCanOverstate` | skills/backpressure-drop-degrade-policy/scripts/backpressure_policy.py:456-458 | A run with two alerts counted and one fired |
| `StreamPolicies.PolicyIsFixed` | skills/backpressure-drop-degrade-policy/scripts/backpressure_policy.py:357-376 | A policy never changes; an undeclared stream is refused and leaves no trace, or becomes DROP_OLDEST at its first call |
| `Backpressure.RateLimitedAlert.Trigger` | skills/backpressure-drop-degrade-policy/scripts/backpressure_policy.py:264-281 | Fires unless the last alert of that stream fired less than a cooldown ago |
| `Backpressure.BackpressureManager.Observe` | skills/backpressure-drop-degrade-policy/scripts/backpressure_policy.py:394-406 | Counts the push, checks the watermark and leaves every other stream as it was |
| `Backpressure.BackpressureManager.CheckWatermark` | skills/backpressure-drop-degrade-policy/scripts/backpressure_policy.py:408-428 | Counts a breach and asks for an alert exactly at or above the watermark of a bounded queue |
| `Backpressure.BackpressureManager.HandleFull` | skills/backpressure-drop-degrade-policy/scripts/backpressure_policy.py:432-518 | Reply, queue and the state of every stream are those the whole run of calls determines |
| `Backpressure.BackpressureManager.ResolvePolicy` | skills/backpressure-drop-degrade-policy/scripts/backpressure_policy.py:357-376 | Finds, registers or refuses a stream |
| `Backpressure.BackpressureManager.constructor` | skills/backpressure-drop-degrade-policy/scripts/backpressure_policy.py:300-353 | Starts every declared stream with zeroed metrics and each degraded one with an aggregator of its own |
| `KillSwitch.ReplayIsExact` | skills/asic-market-integrity-rules-automated-trading/scripts/asic_market_integrity_rules_automated_trading.py:326-475 | With no trigger under way, in every interleaving of the locked sections, the log replays to every active halt, to no other key unless one is stranded, and to those very records unless one is garbled |
| `KillSwitch.GarbledOverlaps` | skills/asic-market-integrity-rules-automated-trading/scripts/asic_market_integrity_rules_automated_trading.py:343-359 | A garbled record comes of two overlapping triggers of one key logged in the other order |
| `KillSwitch.LogCanOverstate` | skills/asic-market-integrity-rules-automated-trading/scripts/asic_market_integrity_rules_automated_trading.py:343-359 | A run that strands a key |
| `KillSwitch.LogCanGarble` | skills/asic-market-integrity-rules-automated-trading/scripts/asic_market_integrity_rules_automated_trading.py:343-359 | A run that garbles a record |
| `KillSwitch.LogOverstatesExactly` | skills/asic-market-integrity-rules-automated-trading/scripts/asic_market_integrity_rules_automated_trading.py:326-475 | The log shows a halt that is not active exactly when its trigger was logged after its last release and nothing halted it again |
| `KillSwitch.StrandedStraddles` | skills/asic-market-integrity-rules-automated-trading/scripts/asic_market_integrity_rules_automated_trading.py:343-359 | Then one call put the halt in force before that release and logged it after |
| `KillSwitch.ActiveIsOnRecord` | skills/asic-market-integrity-rules-automated-trading/scripts/asic_market_integrity_rules_automated_trading.py:343-359 | An active halt is on the log, or its trigger has yet to log it |
| `KillSwitch.NormaliseIsIdempotent` | skills/asic-market-integrity-rules-automated-trading/scripts/asic_market_integrity_rules_automated_trading.py:81-94 | Folding a scope value again changes nothing |
| `KillSwitch.BlocksExactly` | skills/asic-market-integrity-rules-automated-trading/scripts/asic_market_integrity_rules_automated_trading.py:485-504 | A halt blocks an order exactly when it halts all trading or names the order's authorised person, client, symbol, market or algorithm, as its scope says, up to padding and case |
| `KillSwitch.KillSwitchManager.Trigger` | skills/asic-market-integrity-rules-automated-trading/scripts/asic_market_integrity_rules_automated_trading.py:326-359 | Run in sequence, both sections keep the replay of the log equal to the active halts, record for record |
| `KillSwitch.KillSwitchManager.TriggerScopedHalt` | skills/asic-market-integrity-rules-automated-trading/scripts/asic_market_integrity_rules_automated_trading.py:303-324 | Refused only for a blank scope value; padding is trimmed |
| `KillSwitch.KillSwitchManager.ReleaseScopedHalt` | skills/asic-market-integrity-rules-automated-trading/scripts/asic_market_integrity_rules_automated_trading.py:411-475 | Releases exactly an active halt, and only with reason and actor; a release and a refusal for attribution are logged, and the log keeps replaying to the active halts |
| `KillSwitch.KillSwitchManager.HaltBlocking` | skills/asic-market-integrity-rules-automated-trading/scripts/asic_market_integrity_rules_automated_trading.py:485-504 | Finds a halt exactly when an active one stops the order, and then the widest: all trading, then person, client, product, market, algorithm |
| `KillSwitch.PreTradeFilter.RunChecks` | skills/asic-market-integrity-rules-automated-trading/scripts/asic_market_integrity_rules_automated_trading.py:597-691 | An order is rejected as halted exactly when a halt replayed from the audit log stops it, before any other reason; any other order gets the verdict of the first limit it breaks, or approval |
| `KillSwitch.PreTradeFilter.ReplaceConfig` | skills/asic-market-integrity-rules-automated-trading/scripts/asic_market_integrity_rules_automated_trading.py:555-588 | Every change is attributed, and the log of changes leads from the first limits to those in force |
| `BrokerWheel.EvaluationIgnoresOrder` | skills/algo-wheel-broker-execution-quality-comparison/scripts/algo_wheel_broker_execution_quality_comparison.py:88-219 | Permuting the executions changes neither whether they are refused, nor the outcome, nor any share |
| `BrokerWheel.RankingIgnoresOrder` | skills/algo-wheel-broker-execution-quality-comparison/scripts/algo_wheel_broker_execution_quality_comparison.py:88-131 | Nor the ranking |
| `BrokerWheel.EntryIgnoresOrder` | skills/algo-wheel-broker-execution-quality-comparison/scripts/algo_wheel_broker_execution_quality_comparison.py:101-115 | Nor any broker's sums |
| `BrokerWheel.RankingIsUnique` | skills/algo-wheel-broker-execution-quality-comparison/scripts/algo_wheel_broker_execution_quality_comparison.py:130-131 | Cost, then name, leaves one ranking of a set of scores |
| `BrokerWheel.AllocationIsWhole` | skills/algo-wheel-broker-execution-quality-comparison/scripts/algo_wheel_broker_execution_quality_comparison.py:173-219 | The shares go to the ranked brokers and no others and sum to exactly one |
| `BrokerWheel.EveryoneGetsTheFloor` | skills/algo-wheel-broker-execution-quality-comparison/scripts/algo_wheel_broker_execution_quality_comparison.py:182-219 | With a leader every broker gets at least the canary share, non-leaders exactly that; with none, all get the same |
| `BrokerWheel.AllocationFailsExactly` | skills/algo-wheel-broker-execution-quality-comparison/scripts/algo_wheel_broker_execution_quality_comparison.py:193-204 | The wheel raises exactly when a leader exists among several brokers and a canary share for each exceeds the whole |
| `BrokerWheel.LeaderIsBest` | skills/algo-wheel-broker-execution-quality-comparison/scripts/algo_wheel_broker_execution_quality_comparison.py:179-181 | The leader meets the evidence policy, and every other broker that does ranks after it |
| `WheelTrail.RankedByCost` | skills/algo-wheel-broker-execution-quality-comparison/scripts/algo_wheel_broker_execution_quality_comparison.py:88-171 | Each broker that traded is ranked by its cost in money, adverse price by side times quantity plus fees, in basis points of its notional, ties by name; it may lead exactly with enough executions and notional |
| `WheelTrail.ShortfallIsCost` | skills/algo-wheel-broker-execution-quality-comparison/scripts/algo_wheel_broker_execution_quality_comparison.py:150-171 | Basis points times notional are ten thousand times what the execution cost, on either side |
| `WheelTrail.FaultExactly` | skills/algo-wheel-broker-execution-quality-comparison/scripts/algo_wheel_broker_execution_quality_comparison.py:250-278 | An execution is refused exactly for its first fault: broker, side, decision price, fill price, quantity |
| `BrokerWheel.Accumulate` | skills/algo-wheel-broker-execution-quality-comparison/scripts/algo_wheel_broker_execution_quality_comparison.py:101-115 | The loop raises the fault of the first invalid execution, or leaves each broker its own sums |
| `BrokerWheel.RankBrokers` | skills/algo-wheel-broker-execution-quality-comparison/scripts/algo_wheel_broker_execution_quality_comparison.py:88-131 | Ranks exactly the brokers that traded, best first |
| `BrokerWheel.EvaluateBrokers` | skills/algo-wheel-broker-execution-quality-comparison/scripts/algo_wheel_broker_execution_quality_comparison.py:133-149 | Gives the allocation of the ranking |
| `Highlight.Highlight` | site/lib/search.ts:169-206 | The parts spell the text, alternate, are non-empty for a non-empty text, and mark exactly the characters some collected range covers |
| `Highlight.OccurrencesAreMarked` | site/lib/search.ts:175-186 | Every occurrence of a token or stem, as a whole word if it is short, has a marked character |
| `Highlight.OccursExactly` | site/lib/search.ts:58-76 | A word occurs where it stands in the text, one of at most three characters only without a letter or digit beside it |
| `Highlight.FoundTouches` | site/lib/search.ts:178-185 | The ranges of a variant leave none of its occurrences untouched |
| `Highlight.FoundSpellsExactly` | site/lib/search.ts:178-185 | Each range spells its variant, except exactly when the character its search starts at is a boundary followed by the short variant and does not itself begin it; then the variant stands one further on |
| `Highlight.RangesSpellExactly` | site/lib/search.ts:178-185 | For every token: all its ranges spell it exactly when they are the occurrences found from left to right, and exactly when the token stands one boundary character neither after the start of the text nor after such an occurrence, where it would be missed |
| `Highlight.MisreportedExactly` | site/lib/search.ts:58-76 | For every token: the reported index is where it stands, except exactly when it is short, does not stand at the start and stands at index 1 behind a boundary character |
| `Highlight.MisreportExample` | site/lib/search.ts:71-76 | A text and token whose index is misreported |
| `Highlight.MismarkExample` | site/lib/search.ts:178-185 | A text whose second mark is misplaced |
| `Highlight.VariantsExactly` | site/lib/search.ts:47-56 | The variants are the token and its stems of at least three letters, each once |
| `Highlight.StemsExactly` | site/lib/search.ts:47-56 | The stems are those left of ing, ed, es and s with at least three letters |
| `Highlight.TokensAreRuns` | site/lib/search.ts:39-44 | The tokens are the maximal runs of token characters: the text is woven of them and of gaps without token characters, not empty between two tokens |
| `Highlight.SortByStart` | site/lib/search.ts:189 | Sorting by start covers the same characters |
| `Highlight.Merge` | site/lib/search.ts:190-195 | Merging covers the same characters and leaves a gap between any two ranges |
| `Highlight.Split` | site/lib/search.ts:197-205 | Splitting at separated ranges gives alternating, non-empty parts marked as covered |
| `Highlight.CollectRanges` | site/lib/search.ts:175-186 | The three nested loops collect, in order, what the specification collects |
| `Highlight.VariantsOf` | site/lib/search.ts:47-56 | The pushing loop produces the variants |
| `Markout.EveryFillIsCountedOnce` | skills/adverse-selection-measurement-for-passive-orders/scripts/adverse_selection_measurement_for_passive_orders.py:378-400 | At every horizon marks, truncations and stale mids add up to the admitted fills, and those with the refused ones to all fills |
| `Markout.MidIsPrevailing` | skills/adverse-selection-measurement-for-passive-orders/scripts/adverse_selection_measurement_for_passive_orders.py:282-309 | A mark uses the last observation at or before its target, inside the window and no older than allowed |
| `MarkoutTrail.OutcomeExactly` | skills/adverse-selection-measurement-for-passive-orders/scripts/adverse_selection_measurement_for_passive_orders.py:282-400 | What becomes of a fill at a horizon: missing, stale, truncated, or marked; a buyer earns what the shown mid rose relative to the reference, a seller what it fell relative to that mid |
| `Markout.LaterDataNeverRevises` | skills/adverse-selection-measurement-for-passive-orders/scripts/adverse_selection_measurement_for_passive_orders.py:274-329 | Continuing the market series changes no mark and no stale horizon |
| `Markout.MarksAccumulate` | skills/adverse-selection-measurement-for-passive-orders/scripts/adverse_selection_measurement_for_passive_orders.py:378-400 | Hence the marks of a horizon only grow, as a multiset |
| `Markout.TruncationGrows` | skills/adverse-selection-measurement-for-passive-orders/scripts/adverse_selection_measurement_for_passive_orders.py:296-303 | Where an as-of mid is needed, a longer horizon is truncated at least as often |
| `Markout.Validate` | skills/adverse-selection-measurement-for-passive-orders/scripts/adverse_selection_measurement_for_passive_orders.py:252-271 | Market data is refused unless of equal length, not empty, positive and strictly ascending |
| `Markout.EvaluateFills` | skills/adverse-selection-measurement-for-passive-orders/scripts/adverse_selection_measurement_for_passive_orders.py:361-400 | The accounting loops give every horizon its marks, truncations and stale mids, and count used and refused fills |

## Left out

Arithmetic, text and time:

- IEEE 754 rounding, NaN and infinity, except where an input check refuses them. The exact sums and products proved here hold of floats only up to rounding.
- Strings are ASCII, or Latin-1 for trimming. Case mapping that changes a string's length, non-ASCII digits and Unicode whitespace are not modelled.
- Datetime overflow beyond year 9999, time zones and wall-clock formatting.
- The transport text of a signed envelope; its four fields are modelled. A lone surrogate escape in JSON, which no Dafny character is, reads as U+FFFD; no field accepts either.
- Decimal exponents outside the limits of the decimal library, which raise a different error there.

Scope:

- Logging, alert sinks, callbacks' internals, status and metrics dictionaries, `to_dict`, drop rates and last-event timestamps.
- Threads, except the interleavings of the kill switch. A consumer that drains a deque between calls is allowed for by every method of the backpressure manager; the backlog theorems assume none.
- Checks that an argument has the right type; they raise before anything else happens.
- The order of keys in returned dictionaries: maps carry none.
- Sampler symbols are taken as already stripped and upper-cased; its eight parallel dictionaries are one map of records, so a partially updated symbol cannot be expressed.
- Stream metrics are records in a map rather than objects a caller could alias. The `setdefault` of an aggregator in `handle_full` never adds one when policies are only set through the constructor, so the aggregators are fixed there.
- Library calls are modelled by what they are specified to do: sorting, `bisect`, `searchsorted`, `deque`, regular-expression matching. Binary search is written out for the integrator.
- `Rollback` does not model the messages of anomalies; `TradeReport` names defects instead of spelling them.
- Markout means, percentiles, rounding and the toxicity verdict; the published shortfall rounded to two places.
- The search ranking, filters and facets of the site, and every page, canvas and scroll component.
- Wilson bounds, option pricing, time-zone calendars and the flat rule tables (licensing, due diligence, attestation, disclosure, volatility and liquidity tiers): each claim there follows from one branch.
- Tools, subprocess runners, YAML loading and the examples directory: input, output and wiring.
