# Solar: a verified model of its bounded state machines

Solar is a static firmware framework. Its hard logic is a handful of bounded, lock-protected state
machines and a few template-level algorithms. This project models them in Dafny 4.11 and proves what they
keep over every run. `dafny verify dfyconfig.toml` checks the whole project.

## What is modelled

- **Events.** `EventPipeline` is the state machine of capture, merge, retention and flush; one locked section
  is one step. `EventOrdering`, `EventRetention` and `EventConservation` prove what every run keeps.
  `EventPolicies` tells what each capture policy owes to every attempt by the history of its event alone, and
  `EventCancellation` what a cancelling stop drops.
  `EventFacility` is the same machine as the firmware runs it, with rings and counters updated in place; each
  of its methods is proved to be one step of `EventPipeline`. `EventProcessor` adds the drainer, start, stop, flush
  and history reads, and carries the run it has gone through, so that the theorems about runs hold of the object. `CompactHistory` is the byte-packed evicting log,
  `Rings` the fixed ring, `EventHistory` the cursor-paged merge of log and critical histories, `EventWakeup`
  the scheduling handshake under arbitrary interleaving, `ConditionTracking` the per-source conditions.
- **Bus.** `BusRoutes` holds the queued, latest and coalesced routes with their ledgers, `BusTokens` the slot
  semaphore and the ledger of a queued route step by step, `BusWakeup` the wake-up of coalesced and latest routes
  under arbitrary interleaving, `BusEmit` the fan-out to all routes.
- **Execution.** `Admission` is the counter, the work item and the handler with every load, swap, store and
  submission as its own step; `PeriodicRelease` the release arithmetic.
- **Health.** `HealthAggregation` folds evidence, `HealthHistory` is the transition ring, `HealthFacility` ties
  records, cached summary and history together.
- **Catalogs.** `CatalogDependencies` and `CatalogExpansion` over walks in a relation (`CatalogGraph`).
- **CBOR.** `CborFormat` and `CborRecords` state the encoding and a decoder written from sections 3 and 4.1 of
  RFC 8949; `CborWriter` is the buffer writer.

`Basics`, `Sequences` and `Arithmetic` are helpers.

## Results that differ from what one might expect

- Critical records are never lost exactly when their event does not aggregate: a flushed aggregate takes a
  sequence number without a reservation, so a facility whose reserved slots are full loses it at its stop
  (`EventRetention.CriticalNeverLost`).
- A cancelling stop counts the open aggregates as lost, but the records waiting in the rings are counted nowhere:
  they were captured, they are never processed, and no loss counter moves for them
  (`EventCancellation.CancellingStop`, `EventCancellation.CancelledIsNeverProcessed`).
- A refused submission to the work queue strands waiting records exactly when nobody else is on the way to
  schedule the processor (`EventWakeup.AttendedStep`, `EventWakeup.RefusedSubmissionStrands`). The next
  observation recovers them exactly when it finds the flag already stored back; one that comes between the
  refusal and that store is stranded too (`EventWakeup.NextObservationRecovers`,
  `EventWakeup.ObservationInTheWindowStrands`).
- Clearing a queued route keeps its slots conserved exactly when nobody is between two halves of an operation;
  otherwise a queue can be overfilled (`BusTokens.ConservedStep`, `BusTokens.ClearWhileHoldingOverfills`).
- A drop-oldest accept loses its own message exactly when consumers emptied the queue after its failed take
  (`BusTokens.DropAndStoreEffect`, `BusTokens.DropOldestCanLoseTheNewest`).
- A refused emitter's clear cancels the accepted signals of others in the same batch, even one whose own
  submission succeeded (`BusWakeup.LossIsExact`, `BusWakeup.RefusalCancelsAnother`,
  `BusWakeup.LateClearCancelsSubmitted`).
- A latest route counts a replacement also when it replaces nothing: the message before it is already with the
  handler (`BusRoutes.OverlapCountsAsReplacement`). The ledger of `BusRoutes.LatestRoute` carries the difference.
- Counted admission is bounded and live exactly as long as no rollback meets an empty counter, no resubmission
  fails while it is needed, and no handler reads the draining flag between the two stores of a stop while work
  depends on it (`Admission.HoldsStep`); each can happen (`Admission.RollbackCanUnderflow`,
  `Admission.ResubmitFailureStrands`, `Admission.DrainCanStrand`).

## Model

| member | source | states |
|---|---|---|
| `EventRecords.HeaderRoundTrip` | include/solar/events/types.hpp:223-240 | a packed little-endian image of the record header reads back as the same header |
| `Rings.FixedRing.Push` | include/solar/events/facility.hpp:281-290 | appends to the contents, fails exactly when full |
| `Rings.FixedRing.Pop` | include/solar/events/facility.hpp:292-301 | takes the oldest element, fails exactly when empty |
| `Rings.FixedRing.Front` | include/solar/events/facility.hpp:303-306 | the oldest element without removing it |
| `Rings.FixedRing.At` | include/solar/events/facility.hpp:313-318 | iteration visits the elements oldest first |
| `Rings.FixedRing.Clear` | include/solar/events/facility.hpp:320-325 | leaves the ring empty |
| `CompactHistory.ParsePackAll` | include/solar/events/runtime.hpp:46-63 | parsing a packed log gives back exactly the list of records |
| `CompactHistory.LeastDropIsLeast` | include/solar/events/runtime.hpp:74-88 | what is left after the drops fits, and dropping fewer would not make room |
| `CompactHistory.Log.UsedBytesParse` | include/solar/events/runtime.hpp:101-143 | the used bytes always parse to exactly the retained records, so no read meets a malformed entry |
| `CompactHistory.Log.DropOldest` | include/solar/events/runtime.hpp:79-88 | moving the bytes forward removes exactly the oldest record; the malformed-entry exits are not taken |
| `CompactHistory.Log.Append` | include/solar/events/runtime.hpp:65-99 | stores exactly the records that can ever fit, drops the least number of oldest ones, counts evictions exactly, and otherwise changes nothing |
| `CompactHistory.Log.Next` | include/solar/events/runtime.hpp:171-188 | the first retained record at or after a sequence that passes the filter, or none |
| `CompactHistory.Log.Latest` | include/solar/events/runtime.hpp:145-169 | the newest retained record that passes the filter, or none |
| `EventPipeline.FindSlotIsFirst` | include/solar/events/runtime.hpp:432-441 | the choice is the first slot of the key, else the first free slot, and none exactly when all are taken by other keys |
| `EventPipeline.EarliestIsLeast` | include/solar/events/runtime.hpp:532-544 | the scan finds a least front, none exactly when all rings are empty |
| `EventPipeline.FirstOpenIsFirst` | include/solar/events/runtime.hpp:744-755 | the first open aggregate, none exactly when none is open |
| `EventOrdering.CaptureEffect` | include/solar/events/runtime.hpp:464-513 | a captured record takes the next number, goes to the end of the ring of its kind, and nothing else moves |
| `EventOrdering.ReadyStep` | include/solar/events/runtime.hpp:305-569 | every step keeps the tables: slots are occupied exactly when they count, with distinct keys, and each ring holds only records of its kind |
| `EventOrdering.PopTakesHead` | include/solar/events/runtime.hpp:519-569 | the merge of the ring fronts takes the oldest waiting record, and finds none exactly when none waits |
| `EventOrdering.FifoStep` | include/solar/events/runtime.hpp:519-569 | every step keeps all rings together a single queue cut apart by destination |
| `EventOrdering.RunsAreFifo` | include/solar/events/runtime.hpp:810-836 | over every run with a draining stop records are admitted as 1, 2, 3, ..., processed in that order without gap or repeat, and accepted is next_sequence - 1 |
| `EventRetention.RetainFiles` | include/solar/events/runtime.hpp:571-615 | retention files a record where its event belongs and nowhere else, and the log gives up exactly the least number of oldest records |
| `EventRetention.CriticalPushSucceeds` | include/solar/events/runtime.hpp:593-605 | the push into critical history never fails while the reservation is kept |
| `EventRetention.WithinReserveStep` | include/solar/events/runtime.hpp:469-473 | ingress, in-flight and history of a critical event stay within the reserved slots at every step |
| `EventRetention.ThreePlaces` | include/solar/events/runtime.hpp:554-562 | each admitted critical record is in exactly one of history, drainer and ring |
| `EventRetention.RunsRetain` | include/solar/events/runtime.hpp:571-615 | over every run the log is the counted suffix of what it was given, critical history is exact, and all stores are in order |
| `EventRetention.RunsAreReadable` | include/solar/events/runtime.hpp:880-937 | after every run the stores satisfy what a history read relies on |
| `EventRetention.RunsKeepReserve` | include/solar/events/runtime.hpp:469-473 | the reservation is never exceeded, under either stop policy |
| `EventRetention.CriticalNeverLost` | include/solar/events/runtime.hpp:717-742 | critical records are never lost over any run if their event does not aggregate; if it does, they are lost in some run that never starts the facility again |
| `EventConservation.DecideAccounts` | include/solar/events/runtime.hpp:407-462 | a capture policy keeps an occurrence or hands it on with what it had kept |
| `EventConservation.RunsAreBalanced` | include/solar/events/runtime.hpp:788-807 | over every run each attempt is in exactly one column: filtered, rejected for keys, open, admitted, refused or discarded by a cancel |
| `EventPolicies.RunsKeepPolicy` | include/solar/events/runtime.hpp:305-517 | over every run each attempt is answered, and each captured, refused or flushed record filled in, as the history of its event demands: occurrences since the window opened, its time, key and source, losses since the last record; the attempt, capture, filter and rejection counters are what the history counts |
| `EventPolicies.AggregateOwed` | include/solar/events/runtime.hpp:407-462 | an occurrence is absorbed while its window is open or a key is free, rejected exactly when all keys are taken, and closes the window with everything absorbed since exactly when the window is over |
| `EventPolicies.SamplesEveryPth` | include/solar/events/runtime.hpp:284-291 | over every run the attempts that are not sampled out are numbers 1, p + 1, 2p + 1, ..., and sampled is attempts minus that many |
| `EventPolicies.LimitsTheRate` | include/solar/events/runtime.hpp:292-299 | over every run the first attempt is let through, and a later one is limited if and only if it comes less than the interval after the last one let through |
| `EventPolicies.RefusedIffFull` | include/solar/events/runtime.hpp:469-479 | a materialised record is refused exactly when the reservation of its critical event, else the ISR or the thread ingress, is full |
| `EventPolicies.FlushOwed` | include/solar/events/runtime.hpp:717-742 | a flushed record carries the last occurrence of its window and counts all of them |
| `EventPolicies.RunsKeepLedger` | include/solar/events/runtime.hpp:571-615 | over every run retained, evicted, known_lost and overflow are what the history counts: no key, no room, not retained, or open at a cancelling stop |
| `EventCancellation.CancellingStop` | include/solar/events/runtime.hpp:1058-1074 | a cancelling stop closes capture, empties every ring and every aggregation entry, adds exactly the open occurrences of each event to known_lost, and changes nothing else |
| `EventCancellation.OpenFromStartToStop` | include/solar/events/runtime.hpp:1036-1064 | over every run capture is open exactly when no stop has come since the last start, and a closed capture changes nothing |
| `EventCancellation.CancelledIsNeverProcessed` | include/solar/events/runtime.hpp:1065-1074 | over every run a record that waits at a cancelling stop is never processed afterwards |
| `EventHistory.ReadHistory` | include/solar/events/runtime.hpp:880-937 | read from the byte log and the rings: a page is the smallest matching sequences in order, available is the exact match count, next and stale are exact |
| `EventHistory.LatestHistory` | include/solar/events/runtime.hpp:939-966 | the matching record with the greatest sequence over log and critical histories |
| `EventHistory.MatchingMeans` | include/solar/events/runtime.hpp:880-937 | a record matches when some store holds it, it is not before the cursor, and it is of the event asked for |
| `EventHistory.WalkVisitsEachOnce` | include/solar/events/runtime.hpp:902-926 | pages read one from the end of the other until nothing is left visit every matching record once, in order |
| `EventHistory.FollowPages` | include/solar/events/runtime.hpp:880-937 | following next from any cursor with room for a record ends, and visits every matching record once, in order |
| `EventFacility.Ingress.Scan` | include/solar/events/runtime.hpp:528-544 | the scan over the ring fronts finds the least sequence |
| `EventFacility.SearchSlot` | include/solar/events/runtime.hpp:431-441 | the loop with early exit chooses the slot of the specification |
| `EventFacility.EventFacility.Capture` | include/solar/events/runtime.hpp:305-517 | capture on rings and counters is one step of the state machine |
| `EventFacility.EventFacility.Pop` | include/solar/events/runtime.hpp:519-569 | the pop on rings and counters is one step of the state machine |
| `EventFacility.EventFacility.RetainBuffered` | include/solar/events/runtime.hpp:580-592 | retention in the byte log is one step of the state machine |
| `EventFacility.EventFacility.RetainOther` | include/solar/events/runtime.hpp:578-615 | transient, critical and persistent retention is one step of the state machine |
| `EventFacility.EventFacility.TakePending` | include/solar/events/runtime.hpp:717-755 | taking a pending aggregate is one step of the state machine |
| `EventFacility.EventFacility.Cancel` | include/solar/events/runtime.hpp:1065-1074 | the loops over rings and aggregation entries are the cancelling stop of the state machine |
| `EventFacility.Discard` | include/solar/events/runtime.hpp:788-807 | the loop over the entries frees all of them and counts exactly what they held as lost |
| `EventProcessor.Processor.Observe` | include/solar/events/runtime.hpp:305-517 | capturing extends the run of the object by one observation |
| `EventProcessor.Processor.PopNext` | include/solar/events/runtime.hpp:519-569 | popping extends the run by one pop |
| `EventProcessor.Processor.Retain` | include/solar/events/runtime.hpp:618-622 | retaining extends the run by one retention; a record that was admitted can always be stored |
| `EventProcessor.Processor.Drain` | include/solar/events/runtime.hpp:809-836 | the drain loop ends with empty rings and everything admitted processed in order, admitting nothing |
| `EventProcessor.Processor.Start` | include/solar/events/runtime.hpp:1036-1051 | starting extends the run by one start |
| `EventProcessor.Processor.Stop` | include/solar/events/runtime.hpp:1058-1064 | a draining stop extends the run by one stop and closes capture |
| `EventProcessor.Processor.FlushOne` | include/solar/events/runtime.hpp:768-775 | taking an aggregate extends the run by one flush |
| `EventProcessor.Processor.FlushEvent` | include/solar/events/runtime.hpp:761-784 | the inner loop leaves no aggregate of its event open, and other events' slots alone |
| `EventProcessor.Processor.FlushAggregates` | include/solar/events/runtime.hpp:757-786 | no aggregate stays open, and everything admitted has been processed |
| `EventProcessor.EverythingIsAccounted` | include/solar/events/runtime.hpp:1076-1080 | after the flush every attempt was filtered, rejected, refused by a ring, or is carried by a processed record |
| `EventProcessor.Processor.ReadHistory` | include/solar/events/runtime.hpp:880-937 | a read of the object returns the right page of what its run retained, with no assumption about the stores |
| `EventProcessor.CriticalIsReadable` | include/solar/events/runtime.hpp:593-605 | when nothing waits, every record admitted for a non-aggregating critical event is among those a read sees |
| `EventWakeup.AttendedStep` | include/solar/events/runtime.hpp:263-281 | waiting records stay attended after a step if and only if it is not a refusal, or an exchange that finds the flag set, of the only caller on the way |
| `EventWakeup.ExchangeStrandsOnlyBehindRefusal` | include/solar/events/runtime.hpp:265-277 | such an exchange happens only between a refusal and its flag store |
| `EventWakeup.FlagIsOwnedStep` | include/solar/events/runtime.hpp:263-281 | a set flag is backed by a drain to come, or about to be stored back by a refused caller |
| `EventWakeup.NoLostWakeup` | include/solar/events/runtime.hpp:810-836 | in every interleaving without a refused submission, waiting records have a queued work item, a drainer before its last empty check, or a capturer on its way to schedule |
| `EventWakeup.RunsTellRecordsAndFlag` | include/solar/events/runtime.hpp:263-281 | in every interleaving the rings hold what was pushed and not taken, and the flag is up exactly from an exchange to the next store of a drain, a stop, a start or a refused caller |
| `EventWakeup.RefusedSubmissionStrands` | include/solar/events/runtime.hpp:263-281 | a run in which one refused submission leaves a record with nobody on the way |
| `EventWakeup.NextObservationRecovers` | include/solar/events/runtime.hpp:265-277 | after records were stranded, the next push and its exchange attend to them again if and only if the flag is clear, and a set flag is a refused caller's |
| `EventWakeup.RecoveryLasts` | include/solar/events/runtime.hpp:263-281 | after an observation that finds the flag backed or clear, records stay attended in every interleaving without another refusal |
| `EventWakeup.ObservationInTheWindowStrands` | include/solar/events/runtime.hpp:272-274 | a run in which an observation between a refusal and its flag store is stranded with the record it finds |
| `EventWakeup.RecordsAreDrained` | include/solar/events/runtime.hpp:810-836 | when observations pause, every run without a refusal is bounded, and where it cannot go on the rings are empty |
| `EventWakeup.WorkDecreases` | include/solar/events/runtime.hpp:810-836 | every internal step lowers a bound on the remaining steps |
| `ConditionTracking.Tracker.Record` | include/solar/events/runtime.hpp:649-699 | the in-place update of the condition tables is the step of the specification |
| `ConditionTracking.TablesAreFaithful` | include/solar/events/runtime.hpp:649-699 | for every processed log, tracked sources are the first ones to appear, each counts its records since it was last resolved, and the event is active exactly when some tracked source is |
| `ConditionTracking.TablesRememberTheLatest` | include/solar/events/runtime.hpp:662-675 | for every log each tracked source remembers the sequence and time of its last record, and while some source is active the event counts what the source of its last tracked record counted then |
| `BusRoutes.QueuedRoute.Accept` | include/solar/bus/facility.hpp:341-388 | each overflow policy's exact effect on the queue, the acceptance log and every counter |
| `BusRoutes.QueuedRoute.Take` | include/solar/bus/facility.hpp:390-409 | the handler gets the oldest stored message, in acceptance order; the ledger stays balanced |
| `BusRoutes.QueuedRoute.Finish` | include/solar/bus/facility.hpp:250-276 | a finished handler moves one message from in flight to delivered |
| `BusRoutes.QueuedRoute.ClearPending` | include/solar/bus/facility.hpp:411-427 | everything stored is counted as cancelled |
| `BusRoutes.QueuedRoute.Emit` | include/solar/bus/runtime.hpp:38-103 | the whole answer by whether the route was open and full, its policy and the mode: timed out, rejected, not ready, unavailable, dropped or accepted, each exactly when, with its status and counter; a refused submission cancels all that was stored, with a balanced ledger |
| `BusRoutes.LatestRoute.Accept` | include/solar/bus/facility.hpp:451-465 | the newest message is stored; replacements count also overlaps with a running handler |
| `BusRoutes.LatestRoute.Take` | include/solar/bus/facility.hpp:467-482 | the handler gets the newest accepted message, or none |
| `BusRoutes.LatestRoute.ClearPending` | include/solar/bus/facility.hpp:484-494 | the stored message is counted as cancelled |
| `BusRoutes.LatestRoute.Emit` | include/solar/bus/runtime.hpp:38-103 | fails exactly when closed or refused by the executor, with that reason and status; a refused submission cancels what is stored |
| `BusRoutes.OverlapCountsAsReplacement` | include/solar/bus/facility.hpp:451-465 | two messages are both delivered and yet one replacement is counted |
| `BusRoutes.CoalescedRoute.Accept` | include/solar/bus/facility.hpp:514-522 | only the first accept before a drain asks for a submission, the others are coalesced |
| `BusRoutes.CoalescedRoute.Take` | include/solar/bus/facility.hpp:524-533 | one delivery for all accepts since the last |
| `BusRoutes.CoalescedRoute.ClearPending` | include/solar/bus/facility.hpp:535-540 | a stored signal is counted as cancelled |
| `BusRoutes.CoalescedRoute.Emit` | include/solar/bus/runtime.hpp:38-103 | fails exactly when closed, or when it needed a submission and was refused, with that reason and status; then nothing is pending |
| `BusTokens.ConservedStep` | include/solar/bus/facility.hpp:341-427 | free slots, stored messages, holding producers and owing consumers add up to the capacity after a step exactly when it is not a clear that meets somebody halfway |
| `BusTokens.StoreAppends` | include/solar/bus/facility.hpp:373-386 | a store never overwrites an unread message |
| `BusTokens.RemoveTakesOldest` | include/solar/bus/facility.hpp:390-409 | a removal takes the oldest unread message |
| `BusTokens.DropAndStoreEffect` | include/solar/bus/facility.hpp:373-386 | dropping the oldest keeps the new message exactly when something was still unread |
| `BusTokens.TokensConserved` | include/solar/bus/facility.hpp:341-409 | slots are conserved over every interleaving, under every overflow policy |
| `BusTokens.RunsKeepPolicy` | include/solar/bus/facility.hpp:341-388 | over every interleaving the semaphore stays within its limit and only a drop-oldest route drops |
| `BusTokens.LedgerBalances` | include/solar/bus/facility.hpp:373-427 | over every interleaving, clears at any moment included, stored messages are delivered, with a consumer, stored, dropped as oldest or cleared; with nobody halfway accepted is delivered plus pending plus dropped oldest plus cancelled |
| `BusTokens.ClearWhileHoldingOverfills` | include/solar/bus/facility.hpp:411-427 | a run in which a clear lets a one-element queue count two |
| `BusTokens.DropOldestCanLoseTheNewest` | include/solar/bus/facility.hpp:341-388 | a run in which the accepted message is not readable afterwards |
| `BusWakeup.AttendedStep` | include/solar/bus/facility.hpp:514-533 | a signal that is up stays attended after a step if and only if the step is not the refusal of the only emitter about to submit |
| `BusWakeup.NoSignalForgotten` | include/solar/bus/runtime.hpp:74-101 | in every interleaving a signal that is up has a queued item, a handler before its drain, an emitter about to submit or a refused one about to clear, and every accept is accounted for; without a refusal none is lost |
| `BusWakeup.LossIsExact` | include/solar/bus/runtime.hpp:85-89 | a clear loses exactly what others put up in the same batch, and nothing else loses anything |
| `BusWakeup.EachDeliveryHasASignal` | include/solar/bus/facility.hpp:524-533 | in every interleaving the handler is entered once for each batch no clear took down, and never without a signal |
| `BusWakeup.SignalsAreDrained` | include/solar/bus/facility.hpp:524-540 | when emitting pauses, every run without a refusal is bounded, and where it cannot go on nothing is up |
| `BusWakeup.RefusalCancelsAnother` | include/solar/bus/facility.hpp:514-540 | a run in which a refusal cancels a coalesced signal of another emitter |
| `BusWakeup.LateClearCancelsSubmitted` | include/solar/bus/runtime.hpp:85-99 | a run in which a late clear cancels a signal whose own submission succeeded |
| `BusEmit.EmitMessage` | include/solar/bus/runtime.hpp:105-180 | every matching route is tried, the totals count all of them, the call fails exactly when some route failed, with the first failing route's cause |
| `BusEmit.TotalsPartition` | include/solar/bus/runtime.hpp:145-174 | for answers as the routes give them, every attempted route is accepted, rejected or silently dropped; only a failing inline handler counts twice |
| `Admission.HoldsStep` | include/solar/execution/runtime.hpp:599-626 | bound, ledger and liveness survive a step if and only if it is not one of the three excluded ones |
| `Admission.AdmissionHolds` | include/solar/execution/runtime.hpp:859-899 | in every interleaving without refused submissions and with the two stop stores as one step, pending stays within capacity, no admission is lost or run twice, and pending work is queued, being handled, being cancelled or about to be submitted |
| `Admission.StopClosesAdmission` | include/solar/execution/runtime.hpp:591-598 | once accepting is stored false a submitter outside stays outside, and admissions grow by at most the number of submitters that were past the check |
| `Admission.LoneSubmitter` | include/solar/execution/runtime.hpp:599-616 | a submitter on its own is admitted if and only if the registration accepts and has room; otherwise nothing changes |
| `Admission.CancelEmpties` | include/solar/execution/runtime.hpp:719-728 | a cancel takes the item off the queue and withdraws everything pending |
| `Admission.AdmittedWorkIsStarted` | include/solar/execution/runtime.hpp:792-802 | runs without new submissions are bounded, and one that cannot go on has started everything admitted and not withdrawn |
| `Admission.RollbackCanUnderflow` | include/solar/execution/runtime.hpp:618-626 | a run in which the rollback of a failed submission wraps the counter around |
| `Admission.DrainCanStrand` | include/solar/execution/runtime.hpp:955-961 | a run in which a handler between the two stop stores leaves admitted work behind |
| `Admission.ResubmitFailureStrands` | include/solar/execution/runtime.hpp:796-802 | a run in which a failing resubmission leaves admitted work behind |
| `PeriodicRelease.TicksCeilIsLeast` | include/solar/kernel/time.hpp:41-54 | the least number of ticks that lasts long enough, at least 1 for a positive duration |
| `PeriodicRelease.NextIsLeast` | include/solar/execution/runtime.hpp:812-819 | the next release is the least grid point after both the old release and now |
| `PeriodicRelease.FixedRateNeverDrifts` | include/solar/execution/runtime.hpp:812-826 | over every run the next release is the first one plus period times continuations and missed releases |
| `PeriodicRelease.NothingMissedIffOnTime` | include/solar/execution/runtime.hpp:812-826 | nothing is missed if and only if every invocation ended before the release after its own |
| `PeriodicRelease.OverrunsAreLateOnes` | include/solar/execution/runtime.hpp:820-826 | an overrun is counted for each invocation that ends at or after the release following its own, and for no other |
| `PeriodicRelease.FixedDelayDrifts` | include/solar/execution/runtime.hpp:809-811 | the fixed-delay cadence is never ahead of the grid, and on it if and only if every invocation takes no time |
| `PeriodicRelease.Registration.Continue` | include/solar/execution/runtime.hpp:803-827 | the catch-up loop computes the closed form, keeps the counters exact, and returns a positive delay of at most a period for a late invocation |
| `PeriodicRelease.Registration.constructor` | include/solar/execution/runtime.hpp:913-918 | the first release and the period |
| `HealthAggregation.MergeTakesGreater` | include/solar/health/facility.hpp:235-259 | merging an assessment takes the greater value in every field |
| `HealthAggregation.Fold` | include/solar/health/facility.hpp:346-442 | condition, liveness, readiness, safety, freshness and recovery are joins over admitted evidence, the primary evidence is the first admitted one with the worst condition, the error is the one taken last |
| `HealthAggregation.OrderDoesNotMatter` | include/solar/health/facility.hpp:353-442 | any permutation of the evidence gives the same assessment, the error aside |
| `HealthAggregation.OptionalNeverAlarms` | include/solar/health/facility.hpp:371-375 | a condition above nominal comes from required, available evidence |
| `HealthAggregation.NominalMeansAllWell` | include/solar/health/facility.hpp:433-435 | a nominal subject has all required evidence and none that says worse |
| `HealthAggregation.SettledCondition` | include/solar/health/facility.hpp:353-435 | the condition is faulted if and only if admitted evidence ages to that, degraded if and only if none does and some ages to degraded, nominal if and only if that is the worst and no required evidence is missing, else unknown |
| `HealthAggregation.ExpiresAfterLimit` | include/solar/health/facility.hpp:156-159 | evidence expires when its age passes the limit and stays expired; without a time or a limit never |
| `HealthAggregation.AgeingIs` | include/solar/health/facility.hpp:364-370 | age touches freshness and condition only, and a fault stays a fault |
| `HealthAggregation.ExpiryAlarms` | include/solar/health/facility.hpp:364-370 | an expired required source makes its subject stale and at least degraded |
| `HealthFacility.Summarize` | include/solar/health/facility.hpp:280-330 | exact counts, worst readiness, freshness and safety, and the first subject to blame |
| `HealthFacility.NominalIffAll` | include/solar/health/facility.hpp:316-324 | the system is nominal if and only if every subject is |
| `HealthFacility.SystemCondition` | include/solar/health/facility.hpp:316-324 | the system is faulted if and only if some subject is, else degraded if and only if some is, else unknown if and only if some is |
| `HealthFacility.MonitorsOfAre` | include/solar/health/facility.hpp:414-431 | each monitor of a subject contributes its evidence once, in catalog order, and no other does |
| `HealthFacility.Facility.AlarmsAreReported` | include/solar/health/facility.hpp:333-461 | in every valid state an assessed subject is faulted, or degraded, exactly when its sources and monitors said so |
| `HealthFacility.RecordTellsTheTruth` | include/solar/health/facility.hpp:433-442 | the record of a subject in terms of its evidence at the time of assessment |
| `HealthFacility.Facility.Assess` | include/solar/health/facility.hpp:333-461 | the record reflects the evidence at that time; counters, time of change and history stay in agreement |
| `HealthFacility.Facility.Report` | include/solar/health/facility.hpp:476-513 | a report counts itself and whether it repeats, changes one subject only, and leaves records, summary and history consistent |
| `HealthFacility.Facility.CommitSource` | include/solar/health/facility.hpp:530-569 | an adapter's evidence replaces its source, with everything consistent |
| `HealthFacility.StaleTransitionsAreOnsets` | include/solar/health/facility.hpp:414-431 | over every run of assessments the counter is the number of assessments at which the monitor became stale |
| `HealthFacility.CommitsAreCounted` | include/solar/health/facility.hpp:592-625 | over every run of commits observations, failures and declared recoveries are counted exactly |
| `HealthFacility.DefaultsFillIn` | include/solar/health/facility.hpp:592-605 | zero times and limits are replaced by their defaults and nothing else is |
| `HealthFacility.Facility.CommitMonitor` | include/solar/health/facility.hpp:592-625 | an observation with its defaulted times becomes the monitor's evidence, its counters are exact, only the watched subject's record changes, and everything stays consistent |
| `HealthFacility.CountersAddUp` | include/solar/health/facility.hpp:454-460 | the subjects' transition counts add up to next_history_sequence - 1 |
| `HealthHistory.TransitionsFit` | include/solar/health/facility.hpp:272-277 | consecutive transitions of a subject fit together: the later starts where the earlier ended |
| `HealthHistory.History.Append` | include/solar/health/facility.hpp:261-278 | a changed condition extends the log by one transition, the ring holds exactly the last N, overwritten is the rest |
| `HealthHistory.History.EntryAt` | include/solar/health/facility.hpp:726-729 | the cell of a sequence number holds the transition of that number |
| `HealthHistory.History.Read` | include/solar/health/facility.hpp:713-742 | a page is a contiguous run of the log from the cursor, or from the oldest held, as far as the output goes |
| `CatalogDependencies.ValidIffClosedAndAcyclic` | include/solar/catalog/catalog.hpp:491-569 | the path-based check accepts if and only if every dependency is in the set and no cycle exists |
| `CatalogDependencies.WalksStayValid` | include/solar/catalog/catalog.hpp:516-556 | from an accepted tag, walks stay in the set, off the path and never repeat |
| `CatalogExpansion.ExpandsIffNoCycleReachable` | include/solar/catalog/collection.hpp:65-132 | expansion succeeds if and only if no expansion cycle is reachable |
| `CatalogExpansion.ExpansionIsDepthFirst` | include/solar/catalog/collection.hpp:71-105 | the result is the depth-first leaves of the one forest that grows from the declarations |
| `CatalogExpansion.ExpansionIsDrawn` | include/solar/catalog/collection.hpp:71-105 | a successful expansion has such a forest |
| `CatalogExpansion.LeavesKeepTheirOwner` | include/solar/catalog/collection.hpp:91-105 | leaves do not expand, and each keeps the owner and the first origin of its root |
| `CatalogExpansion.DeclarationsAreDeclared` | include/solar/catalog/collection.hpp:222-242 | the list that is expanded holds the application's declarations and then each component's, all in order, with owner and origin |
| `CatalogExpansion.CollectedCatalog` | include/solar/catalog/collection.hpp:222-242 | entry i has local id i and is the ith depth-first leaf below what was declared, with the owner its first origin names; application entries first and then components in order |
| `CborFormat.HeadRoundTrip` | include/solar/inspection/cbor.hpp:101-131 | every head reads back as the same major type and 64-bit value |
| `CborFormat.HeadIsShortest` | include/solar/inspection/cbor.hpp:101-131 | no other head of the same value is as short |
| `CborFormat.BeByteAt` | include/solar/inspection/cbor.hpp:124-129 | the bytes the shifts extract are the big-endian bytes |
| `CborRecords.TokenRoundTrip` | include/solar/inspection/cbor.hpp:23-62 | every integer, boolean, double and text reads back as itself, whatever follows |
| `CborRecords.BodyWritesFields` | include/solar/inspection/cbor.hpp:141-242 | every encoder announces exactly the pairs it writes, under the keys 0 to n - 1 |
| `CborRecords.RecordRoundTrip` | include/solar/inspection/cbor.hpp:141-242 | every record reads back as one map with exactly its fields |
| `CborWriter.Writer.PutHead` | include/solar/inspection/cbor.hpp:101-131 | appends the head if and only if it fits, and touches nothing beyond |
| `CborWriter.Writer.PutText` | include/solar/inspection/cbor.hpp:53-63 | appends head and text if and only if both fit |
| `CborWriter.Writer.PutRecord` | include/solar/inspection/cbor.hpp:141-242 | the chain of calls appends the whole encoding if and only if it fits |
| `CborWriter.EncodeCbor` | include/solar/inspection/cbor.hpp:250-262 | succeeds if and only if the full encoding fits; the rest of the buffer is unchanged |

## Assumptions the statements carry

- One locked section or one atomic operation is one step, and memory is sequentially consistent.
- For the ordering and retention results there is one drainer, and the accepting check of capture belongs to
  its locked section. Flushing starts after the final drain found every ring empty.
- For the ledgers of `BusRoutes`, removing a message and starting its handler are one step, and so is a whole
  accept; `BusTokens` takes the queued route apart and balances its ledger step by step.
- Handlers, processors and persistent stores answer ok or failed; clocks are inputs.
- A work item behaves as the kernel's: submitting while queued does nothing, submitting while running requeues.

## Left out

- Wrap-around of 64-bit sequence numbers and 32-bit counters; counters are naturals. Admission's pending counter is the exception: it wraps at 2^32.
- CompactHistory.Log.Append: requires that an entry's size fits 16 bits and that the header's fields fit their C++ types, because the size prefix has 16 bits.
- EventRecords.HeaderRoundTrip: speaks of a packed layout, because the firmware copies the compiler's padded struct; the log itself works over any fixed-size layout that reads back.
- CompactHistory::read, the paging loop of the byte log alone, which the facility's history reads do not use.
- EventProcessor.Processor.Observe: requires a payload of the event's declared size and a header whose fields fit their C++ types, because numbers are unbounded here; the same holds for the records of `EventProcessor.Processor.FlushAggregates`. Draining stop only.
- EventProcessor.Processor.ReadHistory: the rings of critical history are handed in beside the object, whose own state has them as sequences.
- EventFacility.EventFacility.Capture: aggregation entries and critical history are sequences in the event's state, not arrays.
- An unkeyed aggregation policy is a table of one entry.
- Panic on an exhausted critical reservation, last-status and last-failure fields, and the cached pending counts of the event facility.
- Event processors, log intents and the deadlines of drain and flush beyond their effect on the wake-up handshake.
- BusTokens.TokensConserved: holds for runs in which every clear finds nobody halfway; the exact condition per step is `BusTokens.ConservedStep`.
- Admission.AdmissionHolds: assumes that submissions succeed and that the stop stores are one step; the exact condition per step is `Admission.HoldsStep`. Suspension after a failed invocation and re-activation are not modelled.
- Inline routes beyond their answer, and the bus facility's own stop and drain loops.
- Poll-triggered and delayable registrations, deadline misses and quiescence waits.
- Signed 64-bit overflow of release times.
- The ISR ingress queue of health reports and the supervisor wake-up.
- HealthHistory.History.Read: returns the page as a sequence instead of filling the caller's span.
- Pairwise identity checks of catalogs and lookup by stable id.
- Infinite families of expanding declarations: the expansion map is finite.
- IEEE bit patterns of doubles, which are taken as given; CBOR arrays, tags, byte strings and indefinite lengths, which no encoder writes.
- Hardware, kernel wrappers, lifecycle, parameters, metrics, remote, supervisor, log front end, tools and examples.
