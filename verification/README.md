# Cobalt on-device pipeline: a verified model

Cobalt collects events on a device, aggregates them over rolling windows of days, stores the resulting observations and
ships them. This project models the stateful parts of that pipeline in Dafny and proves what they promise over whole
runs. `dafny verify dfyconfig.toml` checks all of it.

- `aggregation_windows`, `aggregate_*`: the local aggregate store. `aggregate_store` is the object with its maps and
  loops; `aggregate_model` is the same on values, with a generation call as a script of steps run against an oracle of
  encoder and writer outcomes; the other files prove theorems about runs of that model. `aggregate_once` and
  `aggregate_runs`: nothing is written twice or left out. `aggregate_log`, `aggregate_written` and `aggregate_labels`:
  what is written tells the raw event log. `aggregate_scripts` and `aggregate_series`: what a whole call does to one
  series. `aggregate_complete`: nothing that is due is missing. `aggregate_gc`: garbage collection is invisible to the
  next call. `aggregate_visible`, `aggregate_exact` and `aggregate_retries`: the output of a run as a function of what was
  logged, without failures and with them. `aggregate_limits` and `aggregate_witnesses`: where those promises stop.
- `consistent_proto_store`: the tmp/override/primary protocol as a step machine that refines an atomic register.
- `envelope_maker`, `memory_observation_store`, `file_observation_store`: ownership, byte accounting and conservation
  of observations, and the delta-encoded log of the file store with its reader.
- `shipping_manager`, `file_send_loop`: the retry loop on either store, and the worker thread against its clients as an
  interleaved state machine.
- `undated_event_manager`: the bounded queue of events saved before the clock is accurate, and re-based timestamps.
- `packed_event_codes`, `buckets_config`, `count_min`, `rappor`, `calendar`: codecs and arithmetic.
- `common`, `arithmetic`, `map_sums`: shared declarations and facts about products, quotients and sums over maps.

Methods and classes follow the code; each is proved equal to a function on values or to a stated property, and the
theorems over runs are lemmas about those functions. What the environment decides (clocks, random masks, digests,
encoder, writer, backend and file-system outcomes, the order in which an unordered map is iterated, new file names) is
a parameter and ranges over everything.

## Where the code does less than its documentation says

Each has a lemma at a concrete input or run and, where the code meets the promise on some inputs, a condition; it is
exact except where the entry says that it is sufficient.

- MAX over a window starts from 0: `AggregateLog.MaxOfNegativeValues`, `AggregateLog.MaxIsMaximum`.
- A daily window listed twice is written twice by the numeric path: `AggregateWitnesses.RepeatedWindow`; exactly the
  numeric series of repeated windows are concerned (`AggregateComplete.RepeatedWindowWrittenTwice`,
  `AggregateRuns.WrittenAtMostOnce`).
- The packed event code of a numeric observation is cut to 32 bits on its way to the encoder:
  `PackedEventCodes.LabelOf2000`, `PackedEventCodes.EmittedLabelIff`, `AggregateLabels.LabelIsLoggedIff`.
- Numeric event codes that agree in their low 32 bits shadow each other: `AggregateWitnesses.EqualLowHalves`,
  `AggregateLimits.ShadowedEntry`, and `AggregateLimits.IndependentCells` for those that do not agree.
- A numeric event for a day that was already generated can tell whether garbage collection ran:
  `AggregateWitnesses.LateEventRevealsGc`. That there are no such events is sufficient for it not to
  (`AggregateExact.GcInvisibleOverRuns`); some of them are harmless.
- A write that is shorter than what an interrupted one left in tmp is not published intact on a file system that does
  not truncate: `ConsistentProtoStore.ShorterWriteAfterCrash`, `ConsistentProtoStore.LeftoverMustBeCovered`.
- A Write whose last flush fails is published as if it were whole: `ConsistentProtoStore.LostTail`; that flushes succeed
  is sufficient (`ConsistentProtoStore.RefinesRegisterWhenTruncating`).
- The memory store loses observations of size zero on Take: `MemoryObservationStore.ZeroSizeIsLost`,
  `MemoryObservationStore.TakeLosesExactly`.
- A send callback can be told true although nothing was sent: `ShippingWorker.CallbackToldTooEarly` and
  `ShippingWorker.DisabledCallbackToldTrue`, exactly when `ShippingWorker.CallbackPromise` and
  `ShippingWorker.IdleCallbackPromise` say.
- Codes that fit neither layout do not round-trip: `PackedEventCodes.FifthCodeLost`, `PackedEventCodes.RoundTripIff`.
- Linear bucket offsets wrap at 32 bits, exponential floors at 64: `BucketsConfig.LinearWraps`,
  `BucketsConfig.LinearIff`, `BucketsConfig.ExponentialWraps`, `BucketsConfig.ExponentialIff`.
- The count-min digest is reduced by the number of hash functions instead of the number of cells:
  `CountMinSketch.CellOutOfRange`, `CountMinSketch.InRangeIff`, `CountMinSketch.UnusedCells`,
  `CountMinSketch.OneHashCountsEverything`.
- The day index accepts day numbers that a month does not have: `Calendar.ThirtiethOfFebruary`,
  `Calendar.OverlongMonth`.

## Model

| member | source | states |
|---|---|---|
| `AggregationWindows.GetSortedAggregationWindows` | src/local_aggregation/aggregate_store.cc:58-110 | Accepts exactly the non-empty requests whose sizes are all in range; the stored windows are a permutation of the requested ones with a known unit, hours before days, ascending; a window without a unit is neither stored nor a reason to refuse. |
| `AggregationWindows.SortCorrect` | src/local_aggregation/aggregate_store.cc:101-102 | Sorting yields an ascending permutation. |
| `AggregateStoreClass.AggregateStore.MaybeInsertReportConfig` | src/local_aggregation/aggregate_store.cc:249-275 | kOK exactly for a known report, which is left alone, and for a new one of an aggregated type whose windows are acceptable, which is stored with the requested windows in sorted order and empty aggregates of its type; a refused one changes nothing. |
| `AggregateStoreClass.AggregateStore.SetActive` | src/local_aggregation/aggregate_store.cc:277-303 | Refines the map update on values, including the 32-bit key of the event-code map, the refusals and the disabled case. |
| `AggregateStoreClass.AggregateStore.UpdateNumericAggregate` | src/local_aggregation/aggregate_store.cc:305-345 | Refines the update of one component, event code and day by the report's aggregation type, with its refusals. |
| `AggregateStoreClass.EraseOldComponents` | src/local_aggregation/aggregate_store.cc:407-434 | Erasing while iterating leaves exactly the days after the cutoff, and no event code or component without days. |
| `AggregateStoreClass.EraseOldCodes` | src/local_aggregation/aggregate_store.cc:386-405 | The same for event codes and days. |
| `AggregateStoreClass.AggregateStore.GarbageCollect` | src/local_aggregation/aggregate_store.cc:438-507 | The in-place loop over all reports equals collecting each report on values; the subtraction cannot wrap. What is kept is stated by CollectedExactly. |
| `AggregateStoreClass.FirstActiveDayIndexInWindow` | src/local_aggregation/aggregate_store.cc:613-624 | The first active day of the window, and 0 exactly when the window has none. |
| `AggregateStoreClass.AggregateStore.GenerateUniqueDays` | src/local_aggregation/aggregate_store.cc:722-757 | With the remembered active day most windows are not searched, and yet every observation says whether its own window holds an active day; the history advances only past written observations. |
| `AggregateStoreClass.AggregateStore.GenerateUniqueActivesObservations` | src/local_aggregation/aggregate_store.cc:688-761 | The loops over event codes, windows and days refine the script of observations, under any pattern of failures. |
| `AggregateStoreClass.WindowsByDay` | src/local_aggregation/aggregate_store.cc:922-938 | The helper map lists for each day exactly the daily windows that still need an observation, in stored order. |
| `AggregateStoreClass.AccumulateDay` | src/local_aggregation/aggregate_store.cc:960-997 | One day added to the shared accumulator turns the fold over n days into the fold over n + 1 days, for SUM, MAX and MIN. |
| `AggregateStoreClass.AggregateStore.GenerateCellDay` | src/local_aggregation/aggregate_store.cc:956-1027 | The accumulator shared by ascending windows gives each window the aggregate of a fold over that window alone. |
| `AggregateStoreClass.AggregateStore.GenerateParticipation` | src/local_aggregation/aggregate_store.cc:1032-1041 | A failed participation observation goes unnoticed and its day counts as generated. |
| `AggregateStoreClass.AggregateStore.GenerateObsFromNumericAggregates` | src/local_aggregation/aggregate_store.cc:909-1043 | The nested loops refine the numeric script, under any pattern of failures. |
| `AggregateStoreClass.AggregateStore.GenerateObservations` | src/local_aggregation/aggregate_store.cc:509-603 | The whole call refines the script of its reports; the first failure ends it and leaves the history as far as it got. |
| `AggregateModel.CompletedHistory` | src/local_aggregation/aggregate_store.cc:509-603 | A call that returns kOK went through its whole script. |
| `AggregateOnce.PlanAdvances` | src/local_aggregation/aggregate_store.cc:722-757 | Every step of every call, on every store, moves its series to a later day than the history records, except on a numeric series whose window its report lists more than once. |
| `AggregateRuns.WrittenAtMostOnce` | src/local_aggregation/aggregate_store.cc:636-665 | Over every run of registrations, events, collections and generation calls with any failures, from any store: no observation is written twice and each series is written in ascending day order, except for a numeric series whose window its report lists more than once. |
| `AggregateRuns.CompleteAfterOk` | src/local_aggregation/aggregate_store.cc:688-761 | After any run of calls with non-decreasing days, some cut short by failures, a kOK call leaves every day from its own day minus the backfill period to its own day written for every event code and daily window: the UTC day for a UTC report, the local day, or the UTC day where none was given, for a local one. |
| `AggregateGc.GcInvisible` | src/local_aggregation/aggregate_store.cc:386-507 | From any store, history and output: collecting on a day no later than the final day and then generating writes the same bag of observations as generating alone, in any iteration order before and after. |
| `AggregateExact.WrittenExactly` | src/local_aggregation/aggregate_store.cc:509-603 | The whole output of a run: over every run in which nothing fails and no numeric event is for a day already generated, each observation, repeated windows and participation included, was written exactly as often as a function of the registrations, the logged events and the days of the calls says; stored aggregates, history, garbage collection and iteration order do not occur in that function. |
| `AggregateExact.GcInvisibleOverRuns` | src/local_aggregation/aggregate_store.cc:386-507 | Two such runs that differ only in their garbage collections and iteration orders write the same bag of observations. |
| `AggregateRetries.CaughtUp` | src/local_aggregation/aggregate_store.cc:509-603 | Exactly once with the right content despite failures: after any timely run in which encoding and writing fail any number of times, a kOK call leaves every observation for a day of its backfill period written exactly once if the logged events tell it and never otherwise, for unique-actives series and numeric series whose window is listed once. |
| `AggregateRetries.AlwaysOnce` | src/local_aggregation/aggregate_store.cc:509-603 | The invariant behind it, between any two operations of such a run: an observation beyond the history of its series was never written; one that the history has passed, in the latest backfill period, was written once or never, as the events tell. |
| `AggregateRetries.SameOnceCaughtUp` | src/local_aggregation/aggregate_store.cc:386-603 | Garbage collection, iteration order and failures are invisible once a call has returned kOK: two timely runs with the same registrations, events and days of calls agree on every such observation. |
| `AggregateVisible.AttemptTells` | src/local_aggregation/aggregate_store.cc:509-603 | Whatever failed before, a report attempts an observation of its backfill period exactly when it tells the logged events. |
| `AggregateExact.CallExact` | src/local_aggregation/aggregate_store.cc:509-603 | Everything that one call of such a run attempts, with multiplicities, is what it owes: the observations for the days of its backfill period that no earlier call reached and whose windows the logged events fill. |
| `AggregateExact.PassedOver` | src/local_aggregation/aggregate_store.cc:909-938 | A day that an earlier call reached for the report but not for a series has an empty window: entries that were collected, or not yet logged, leave no gap. |
| `AggregateSeries.BusyCall` | src/local_aggregation/aggregate_store.cc:909-1043 | A call brings each series that its report generates to the final day and attempts, once per listing of the window, the observation that the store asks for on each day from the first open one, whatever else is in the store. |
| `AggregateSeries.IdleCall` | src/local_aggregation/aggregate_store.cc:509-603 | A call leaves every other series alone. |
| `AggregateSeries.PlanAttempts` | src/local_aggregation/aggregate_store.cc:509-603 | How often a whole call attempts an observation is a function of the report's own entries and of the history of that one series, in whatever order reports and entries are visited. |
| `AggregateSeries.FailingCall` | src/local_aggregation/aggregate_store.cc:688-1043 | When attempts fail, a call still goes through the open days of a series in order up to some day, and to the final day if it returns kOK; nothing else of the call touches the series. |
| `AggregateWitnesses.LateEventRevealsGc` | src/local_aggregation/aggregate_store.cc:922-938 | A late value is written after garbage collection of the old entry and never written without it. |
| `AggregateGc.FoldAfterDrop` | src/local_aggregation/aggregate_store.cc:412-424 | A window that starts after the cutoff has the same aggregate before and after days are dropped. |
| `AggregateGc.PlanCollected` | src/local_aggregation/aggregate_store.cc:509-603 | The attempts of a whole call do not change when the store is collected first, although whole entries vanish. |
| `AggregateLog.UpdateFold` | src/local_aggregation/aggregation_utils.cc:27-45 | Updating one day's aggregate combines the new value into the aggregate of every window that holds the day. |
| `AggregateLog.FoldMeaning` | src/local_aggregation/aggregate_store.cc:971-991 | The fold is the sum, the minimum, and the maximum of the values and 0. |
| `AggregateLog.MaxIsMaximum` | src/local_aggregation/aggregate_store.cc:957-981 | A MAX observation carries the maximum of the logged values if and only if one of them is not negative. |
| `AggregateLog.MaxOfNegativeValues` | src/local_aggregation/aggregate_store.cc:957-981 | MAX over -5 and -3 gives 0. |
| `AggregateLog.WindowsFollowLog` | src/local_aggregation/aggregate_store.cc:305-345 | Over every run, every window that a later call can ask for folds to the aggregate of the raw values logged for that report, component and event code on its days. |
| `AggregateLog.UniqueObservationFollowsLog` | src/local_aggregation/aggregate_store.cc:277-303 | Over every run, a window of a later call is active exactly when an event was logged on one of its days. |
| `AggregateLog.CollectedExactly` | src/local_aggregation/aggregate_store.cc:438-507 | Collecting keeps exactly the stored days above the call's day minus the backfill period minus the largest daily window, that day being the UTC day of a UTC report and the local day of a local one, and every value on them; no entry without days is left, and a report of an unknown time zone stays as it is. |
| `AggregateWritten.PlanTruthful` | src/local_aggregation/aggregate_store.cc:509-603 | Every observation that a call attempts is for a day of its backfill period and tells what the store holds for its window. |
| `AggregateWritten.WrittenFollowsLog` | src/local_aggregation/aggregate_store.cc:509-603 | End to end: every observation that any call of any run writes is for a day of the call's backfill period, ending on the UTC or local day of the call as the report's time zone says, and tells exactly the raw events logged for its window; a numeric one those of an entry with its label. |
| `AggregateWritten.CallFailsFor` | src/local_aggregation/aggregate_store.cc:509-603 | With known aggregation types, a call that does not return kOK returns the status that its last attempt got from the encoder or writer, and that attempt was for an observation with content that tells what the store holds; a participation observation is never the reason. |
| `AggregateLabels.WrittenNamesItsEvents` | src/local_aggregation/aggregate_store.cc:841-886 | When the logged packed codes fit in 32 bits, that entry is the one the label names: the label is the packed code that was logged and the value the fold of the values logged for exactly that code and component. |
| `AggregateLabels.LabelIsLoggedIff` | src/local_aggregation/aggregate_store.cc:841-886 | The label of an emitted observation is the packed code that was logged if and only if that fits in 32 bits: the first three codes below 1024, the fourth below 4, the fifth zero. |
| `AggregateComplete.DueIsWritten` | src/local_aggregation/aggregate_store.cc:909-1029 | A kOK call has written, for every numeric window and day that was still due and holds a stored value, the observation with that window's aggregate and the payload of its report type, exactly as often as the report lists the window. |
| `AggregateComplete.LoggedIsWritten` | src/local_aggregation/aggregate_store.cc:909-1029 | Over every run: a kOK call writes, for every due window in which some value was logged, the fold of exactly the values logged in it, exactly as often as the report lists the window. |
| `AggregateComplete.RepeatedWindowWrittenTwice` | src/local_aggregation/aggregate_store.cc:925-938 | The converse of at-most-once: over every run, a kOK call writes the same observation at two positions for every due window with logged values that the report lists more than once. |
| `AggregateWitnesses.RepeatedWindow` | src/local_aggregation/aggregate_store.cc:925-938 | A run of one registration, one event and one call that writes an observation twice. |
| `AggregateLimits.IndependentCells` | src/local_aggregation/aggregate_store.cc:918-920 | Entries that differ in component or in the low 32 bits of the event code are generated independently of each other. |
| `AggregateLimits.UnknownTypeRefused` | src/local_aggregation/aggregation_utils.cc:27-45 | A report of an unknown aggregation type stores the first value of a day and refuses every further one, which changes nothing. |
| `AggregateLimits.UnknownTypeAborts` | src/local_aggregation/aggregate_store.cc:992-994 | A window of such a report that is due ends the call with kInvalidArguments, without another attempt. |
| `AggregateLimits.ShadowedCell` | src/local_aggregation/aggregate_store.cc:909-943 | Of two entries of a component whose event codes agree in their low 32 bits the one visited later, whatever is visited in between, adds no step: the script of the report is the same without it. |
| `AggregateLimits.ShadowedEntry` | src/local_aggregation/aggregate_store.cc:509-603 | The same for a whole call from any state and under any failures: it writes and records exactly what it would without the later entry. |
| `AggregateWitnesses.EqualLowHalves` | src/local_aggregation/aggregate_store.cc:918-921 | Event codes [7] and [7, 0, 0, 4]: a value is logged for each, and only the first is written. |
| `ConsistentProtoStore.ProtoStore.Write` | src/lib/util/consistent_proto_store.cc:60-84 | The call with its early returns is a run of the step protocol. It returns OK exactly when none of the file-system calls it makes fails, apart from the delete during the recovery and the last flush; if none at all fails, the message is published over what tmp held and no other file is left. |
| `ConsistentProtoStore.ProtoStore.WriteToTmp` | src/lib/util/consistent_proto_store.cc:119-125 | A failed write, and a last flush that fails unnoticed after success was decided, leave some prefix of the message over what tmp held; otherwise tmp holds the message over it. |
| `ConsistentProtoStore.ProtoStore.Read` | src/lib/util/consistent_proto_store.cc:91-112 | The override file if there is one that parses; else NotFound without a primary file, Corrupt for one that does not parse, and otherwise the primary file. |
| `ConsistentProtoStore.ReadChangesAtCommit` | src/lib/util/consistent_proto_store.cc:78-81 | A step changes what Read returns exactly when it renames tmp to override, and then to the message being written. |
| `ConsistentProtoStore.RefinesRegister` | src/lib/util/consistent_proto_store.cc:60-112 | Over every run of writes, each crashed, failed or completed at any step, in which no reported success loses its tail or leaves an older tail in place, Read returns the value of an atomic register: the last committed message, never a partial or missing one. |
| `ConsistentProtoStore.RefinesRegisterWhenTruncating` | src/lib/util/consistent_proto_store.cc:60-112 | The same with no other condition than that flushes succeed when opening tmp truncates it. |
| `ConsistentProtoStore.OkMakesReadReturnIt` | src/lib/util/consistent_proto_store.cc:60-84 | After a Write that returned OK, Read returns its message. |
| `ConsistentProtoStore.LeftoverMustBeCovered` | src/lib/util/posix_file_system.cc:91-95 | Every Write whose flush succeeds and that returns OK, from every disk and through recovery, leaves precisely its message if and only if the file system truncates or tmp was not longer than the message. |
| `ConsistentProtoStore.ShorterWriteAfterCrash` | src/lib/util/posix_file_system.cc:91-95 | From an empty disk: a crash while tmp is written, then a shorter Write that returns OK, and the store holds a mix of the two. |
| `ConsistentProtoStore.LostTail` | src/lib/util/consistent_proto_store.cc:119-125 | A Write of three bytes whose last flush fails returns OK, and the store holds two of them. |
| `EnvelopeMaker.MergeWith` | src/observation_store/envelope_maker.cc:104-131 | The loop over the other envelope's batches moves every message and adds the sizes. |
| `EnvelopeMaker.MergeCounts` | src/observation_store/envelope_maker.cc:104-131 | A merged envelope holds each item as often as the two together. |
| `EnvelopeMaker.MergedOrder` | src/observation_store/envelope_maker.cc:104-131 | In a batch that both envelopes have, its own messages come first, in order, and then those of the other envelope, last one first. |
| `EnvelopeMaker.MergeSound` | src/observation_store/envelope_maker.cc:104-131 | The byte count of a merged envelope is the sum of the sizes of what it holds. |
| `EnvelopeMaker.AddSound` | src/observation_store/envelope_maker.cc:47-58 | The byte count stays the sum of the sizes when an observation is added. |
| `MemoryObservationStore.MemoryStore.StoreObservation` | src/observation_store/memory_observation_store.cc:30-69 | Refuses when the total is exceeded, finalizes a full envelope, and adds or refuses by size, zero included; the accounting stays exact. |
| `MemoryObservationStore.AcceptedExactly` | src/observation_store/memory_observation_store.cc:30-69 | In any state of any run: an observation is accepted exactly when it is within the size limit and what the store holds, current and finalized, is not above the total; each refusal has its own condition. |
| `MemoryObservationStore.StoredWhere` | src/observation_store/memory_observation_store.cc:45-66 | Where it goes: to the end of its batch in the current envelope if that has room; otherwise that envelope goes to the back of the queue and the observation is alone in a new one; a refused one changes nothing. |
| `MemoryObservationStore.MemoryStore.TakeOldest` | src/observation_store/memory_observation_store.cc:75-85 | The branch that clamps the tracked size to 0 is never taken. |
| `MemoryObservationStore.MemoryStore.TakeNextEnvelopeHolder` | src/observation_store/memory_observation_store.cc:96-118 | The merging loop and the current envelope give the holder of the value-level definition. |
| `MemoryObservationStore.TakenExactly` | src/observation_store/memory_observation_store.cc:96-118 | What a holder is made of: the longest run of oldest envelopes that fits, at least one if there is one, in order, and then the current envelope if it still fits. |
| `MemoryObservationStore.MemoryStore.ReturnEnvelopeHolder` | src/observation_store/memory_observation_store.cc:120-124 | A returned holder goes to the back of the queue and is accounted for. |
| `MemoryObservationStore.TakeKeepsValid` | src/observation_store/memory_observation_store.cc:96-118 | A holder is within the envelope limit and not of size 0, and there is none exactly when the store has size 0. |
| `MemoryObservationStore.NullExactlyWhenEmpty` | src/observation_store/memory_observation_store.cc:96-118 | Over every run that stores only observations of positive size, there is no holder exactly when the store is empty. |
| `MemoryObservationStore.RunConserves` | src/observation_store/memory_observation_store.cc:30-124 | Over every run of storing, taking, returning and discarding, the accepted bag is the bag in the store, in outstanding, discarded and dropped holders; only observations of size 0 are ever in a dropped one; every tracked size is the sum it stands for. |
| `MemoryObservationStore.TakeLosesExactly` | src/observation_store/memory_observation_store.cc:113-115 | Taking loses an observation if and only if the store holds it and everything the store holds has size zero. |
| `MemoryObservationStore.ZeroSizeIsLost` | src/observation_store/memory_observation_store.cc:113-115 | An observation of size 0 is accepted, and the next Take drops it. |
| `FileObservationStore.FileStore.StoreObservation` | src/observation_store/file_observation_store.cc:78-159 | The method with its early returns is the step on values, or nothing at all and kOk when the store is disabled. |
| `FileObservationStore.AcceptedExactly` | src/observation_store/file_observation_store.cc:78-159 | In any state of any run: an observation is accepted exactly when its message is set, it is within the size limit, and the files on disk, the active file and its own size together are within the total; each refusal has its own condition. |
| `FileObservationStore.StoredWhere` | src/observation_store/file_observation_store.cc:96-159 | Where it goes, in any state of any run: a refused observation changes no finalized file and nothing that the active file decodes to; the records of an accepted one, metadata only where it changed, go to the end of the active file, which is finalized exactly when it has then reached the envelope limit. |
| `FileObservationStore.FileStore.FinalizeActiveFile` | src/observation_store/file_observation_store.cc:161-189 | An existing non-empty active file becomes a finalized one and its bytes are counted; the metadata flag is cleared in every case. |
| `FileObservationStore.FileStore.GetOldestFinalizedFile` | src/observation_store/file_observation_store.cc:244-271 | The smallest name among the files that are not taken, none exactly when all are taken. |
| `FileObservationStore.FileStore.TakeNextEnvelopeHolder` | src/observation_store/file_observation_store.cc:273-295 | Hands out the oldest available file, finalizing the active one first when there is none. |
| `FileObservationStore.FileStore.ReturnEnvelopeHolder` | src/observation_store/file_observation_store.cc:297-307 | Exactly the holder's files become available again. |
| `FileObservationStore.FileStore.DestroyHolder` | src/observation_store/file_observation_store.cc:324-330 | Exactly the holder's files are deleted and the tracked bytes stay the size of what is left. |
| `FileObservationStore.FileStore.DeleteData` | src/observation_store/file_observation_store.cc:419-436 | The store is as new. |
| `FileObservationStore.StoreExtendsLog` | src/observation_store/file_observation_store.cc:117-145 | The records that a call appends decode to the observation it stores, under its own metadata, whatever came before. |
| `FileObservationStore.RunInvariant` | src/observation_store/file_observation_store.cc:78-344 | In every state of every run with fresh names: each finalized file is available or in exactly one live holder, the tracked bytes are the size of the finalized files, every file decodes to what was stored in it, and the files in order are the accepted observations. |
| `FileObservationStore.ReadsBackWhatWasStored` | src/observation_store/file_observation_store.cc:346-405 | In any state of any run, each finalized file decodes to exactly the observations that the run stored in it, and several files to those of all of them in turn. |
| `FileObservationStore.ReadFile` | src/observation_store/file_observation_store.cc:359-400 | The read loop adds to every batch exactly the messages that the file holds under its metadata, in order. |
| `FileObservationStore.GetEnvelope` | src/observation_store/file_observation_store.cc:346-405 | One batch per metadata value, holding exactly the messages of the files under it, in order; a message stored in the clear is what encrypting it leaves. |
| `FileObservationStore.EnvelopeOfHolder` | src/observation_store/file_observation_store.cc:346-405 | Round trip: in any state of any run the envelope of a holder has one batch per metadata value with exactly the messages that were stored with it in the holder's files, in the order of storing. |
| `SendLoop.SendAllEnvelopes` | src/uploader/shipping_manager.cc:243-281 | With the memory store: terminates for every backend; what was stored was sent or is still stored; success is reported exactly when every attempt succeeded, and then the store is empty; it stops after three failures in a row. |
| `FileSendLoop.SendAllFiles` | src/uploader/shipping_manager.cc:243-281 | With the file store: terminates for every backend; every file that no holder had, the active one included, was sent and deleted once or is still there with its content; oldest first, a failed file again before any other; success is reported exactly when every attempt succeeded, and then no file waits. |
| `SendLoop.TakeSize` | src/uploader/shipping_manager.cc:253-257 | Taking a holder lowers the store's size by the holder's. |
| `ShippingWorker.Reachable` | src/uploader/shipping_manager.cc:52-241 | In every state of every interleaving after Start, whatever clients requested, queued or announced before it: callbacks are invoked exactly once and in order of registration, idle with uploads enabled means nothing announced is stored, sends are at least the minimum interval apart, and no observation is lost or doubled. |
| `ShippingWorker.OrderKept` | src/uploader/shipping_manager.cc:283-294 | Every step keeps: the registered callbacks are those invoked and then those queued. |
| `ShippingWorker.IdleKept` | src/uploader/shipping_manager.cc:187-217 | Every step keeps the meaning of idle. |
| `ShippingWorker.SpacingKept` | src/uploader/shipping_manager.cc:164-186 | Every step keeps the distance between sends. |
| `ShippingWorker.AllPairsSpaced` | src/uploader/shipping_manager.cc:171-186 | Any two sends are at least the minimum interval apart, not only neighbours. |
| `ShippingWorker.CallbackPromise` | src/uploader/shipping_manager.cc:276-280 | A callback that is invoked with true at the end of a send has everything it waited for sent if and only if none of that was added after the loop found the store empty. |
| `ShippingWorker.IdleCallbackPromise` | src/uploader/shipping_manager.cc:187-199 | A callback told true on going idle has everything it waited for sent if and only if nothing was stored or in flight when it was registered; with uploads enabled that always holds. |
| `ShippingWorker.ToldExactly` | src/uploader/shipping_manager.cc:187-294 | What each callback of each run is told: by the step that ends a send, true if and only if the backend took every upload of that send; by any other step true, and that step is the worker going idle or a request that finds the worker idle and the store empty. |
| `ShippingWorker.SendEndsWhen` | src/uploader/shipping_manager.cc:243-281 | Over every run: a send ends exactly when the worker finds the store empty or the third upload in a row has failed. |
| `ShippingWorker.SentIsDelivered` | src/uploader/shipping_manager.cc:253-275 | In every state of every run, what counts as sent is exactly what was in the uploads that the backend took. |
| `ShippingWorker.NoSendUnasked` | src/uploader/shipping_manager.cc:187-238 | In any run from a state in which no send is under way or asked for: without a request, an almost-full store or a due time, no send starts. |
| `ShippingWorker.RequestsAreServed` | src/uploader/shipping_manager.cc:187-294 | One send serves every request made before it ends, and so does going idle: in any run after it, no further send starts before the next request or scheduled time. |
| `ShippingWorker.DisabledSendsNothing` | src/uploader/shipping_manager.cc:149-162 | From any state in which no envelope is taken or uploaded: once uploads are disabled, nothing is taken or sent in any run until they are enabled, whatever is requested or due. |
| `ShippingWorker.WakesUpTo` | src/uploader/shipping_manager.cc:176-238 | A worker that falls asleep wakes up after the minimum interval: idle, with every callback told, if there is nothing that may be sent, and waiting for the schedule if there is but nothing is due or requested. |
| `ShippingWorker.IdleEnds` | src/uploader/shipping_manager.cc:202-214 | An idle worker is woken by an observation that is added and announced and by uploads being enabled again; what is stored then goes out when a send is due, after the minimum interval. |
| `ShippingWorker.AnsweredAtOnce` | src/uploader/shipping_manager.cc:100-120 | In any state of any run: a request with a callback is answered at once, with no callback left waiting, exactly when the worker is idle and the store empty; otherwise it joins the end of the queue and nobody is told anything. |
| `ShippingWorker.WaitsForSchedule` | src/uploader/shipping_manager.cc:226-238 | In any run the wait for the schedule lasts until the time has come, a send is requested or the worker is shut down. |
| `ShippingWorker.RequestStartsSend` | src/uploader/shipping_manager.cc:66-123 | A request, with or without a callback, and an almost full store start a send that is not due: after the minimum interval, counted from when the worker sleeps. |
| `ShippingWorker.ScheduleStartsSend` | src/uploader/shipping_manager.cc:187-217 | A send that is due starts unasked, after the minimum interval. |
| `ShippingWorker.WaitingIsTrue` | src/uploader/shipping_manager.cc:205-217 | Over every run, the flag for waiting on the schedule is up only while the worker does. |
| `ShippingWorker.ShutDownExits` | src/uploader/shipping_manager.cc:136-163 | After a shutdown a worker that is not sending exits within two steps. |
| `ShippingWorker.CallbackToldTooEarly` | src/uploader/shipping_manager.cc:243-281 | A run in which a callback is told true while its observation is still in the store. |
| `ShippingWorker.DisabledCallbackToldTrue` | src/uploader/shipping_manager.cc:187-199 | With uploads disabled: a run in which a callback is told true and nothing was ever sent. |
| `UndatedEventManager.EventManager.Save` | src/logger/undated_event_manager.cc:36-63 | After a flush one event is logged at once, near the shift by the reference of that flush; before it the record is queued, dropping and counting the oldest one when full. |
| `UndatedEventManager.EventManager.Flush` | src/logger/undated_event_manager.cc:65-109 | The popping loop logs the queue in order, each event less than a second from the shift by the two times that were passed in; the counters are reported and cleared. |
| `UndatedEventManager.RunInvariant` | src/logger/undated_event_manager.cc:36-109 | In every state of every run: before a flush the queue is the most recent records in order and the counters are exact; after it everything saved was dropped or logged once, in order. |
| `UndatedEventManager.CountersMatchQueue` | src/logger/undated_event_manager.cc:51-60 | For each project, cached minus dropped is what the queue holds. |
| `UndatedEventManager.RebasedWithinASecond` | src/logger/undated_event_manager.cc:111-118 | A re-based timestamp is less than a second from the exact shift, on a known side before and after the reference time. |
| `UndatedEventManager.RebasedKeepsOrder` | src/logger/undated_event_manager.cc:111-118 | Re-basing keeps the order of the monotonic clock, also across the reference time. |
| `UndatedEventManager.TimestampsInOrder` | src/logger/undated_event_manager.cc:36-128 | With one flush, the timestamps of everything logged, by the flush and after it, are in the order of saving. |
| `UndatedEventManager.StampedByLatestFlush` | src/logger/undated_event_manager.cc:65-128 | Over every run with any number of flushes: what an operation logs is stamped a whole number of seconds from the system time, and less than a second from the exact shift, by the two times that the latest flush in the run was given. |
| `UndatedEventManager.StampedByOnlyFlush` | src/logger/undated_event_manager.cc:65-128 | With one flush in the run, every logged timestamp is near the shift by the two times that flush was given, whether the event was saved before or after. |
| `UndatedEventManager.FlushReports` | src/logger/undated_event_manager.cc:76-108 | The first flush reports for each project how many events were saved and how many were pushed out of the queue; the rest is what has been logged. |
| `PackedEventCodes.PackEventCodes` | src/registry/packed_event_codes.h:103-121 | The loop with its early fallback packs the fields of the layout that the first five codes ask for. |
| `PackedEventCodes.PackEventCodesV1` | src/registry/packed_event_codes.h:80-94 | Four 15-bit fields under version 1. |
| `PackedEventCodes.PackTenBits` | src/registry/packed_event_codes.h:103-121 | If the first five codes are all below 1024, the word is their sum with the weights 1024^0 to 1024^4. |
| `PackedEventCodes.PackFifteenBits` | src/registry/packed_event_codes.h:80-94 | Otherwise the word is the version bit 2^60 plus the first four codes, each modulo 2^15, with the weights 2^0, 2^15, 2^30 and 2^45. |
| `PackedEventCodes.UnpackEventCodes` | src/registry/packed_event_codes.cc:20-46 | The loop reads the fields of the word's version, and five zeros for an unknown one. |
| `PackedEventCodes.UnpackMeaning` | src/registry/packed_event_codes.cc:20-46 | Each unpacked code by division and remainder of the word, for both versions, and five zeros for every other one. |
| `PackedEventCodes.UnpackOfPack` | src/registry/packed_event_codes.h:80-121 | What comes back for any list: its first five codes, or with the fallback its first four cut to 15 bits. |
| `PackedEventCodes.RoundTripIff` | src/registry/packed_event_codes.h:80-121 | Unpacking gives the codes back, up to trailing zeros, if and only if at most five are below 1024 or at most four are below 2^15. |
| `PackedEventCodes.FifthCodeLost` | src/registry/packed_event_codes.h:80-94 | The list [2000, 0, 0, 0, 1] loses its fifth code. |
| `PackedEventCodes.PackIsInjective` | src/registry/packed_event_codes.h:80-121 | On codes that fit, packing is injective up to trailing zeros. |
| `PackedEventCodes.OnlyFirstFiveMatter` | src/registry/packed_event_codes.h:107-110 | Packing depends on the first five codes only. |
| `PackedEventCodes.RepackIff` | src/registry/packed_event_codes.h:80-121 | Packing the unpacked codes again gives the same word if and only if the fallback was not used or a code that it kept still asks for it. |
| `PackedEventCodes.EmittedLabelIff` | src/local_aggregation/aggregate_store.cc:841-886 | The stored word passes through a 32-bit parameter before it is unpacked and packed again: the result is its low half, and equals the word of the codes if and only if that fits in 32 bits; the fallback never survives. |
| `PackedEventCodes.LabelOf2000` | src/logger/encoder.cc:100-128 | Code 2000 goes out with the word of the codes 976 and 1. |
| `PackedEventCodes.OrIsAddV1` | src/registry/packed_event_codes.h:80-94 | Or-ing a 15-bit field into a word with the version bit is adding it. |
| `BucketsConfig.BucketIndex` | src/registry/buckets_config.cc:11-26 | On any floors, the first bucket whose ceiling is above the value; its floor is not above the value. |
| `BucketsConfig.IndexIsMonotone` | src/registry/buckets_config.cc:11-26 | On any floors, sorted or not, a larger value has no smaller index, and a larger one exactly when it reaches the ceiling of the smaller value's bucket. |
| `BucketsConfig.PartitionIff` | src/registry/buckets_config.cc:11-26 | The buckets partition the values if and only if the floors do not decrease; then the index is the number of floors not above the value. |
| `BucketsConfig.CreateLinear` | src/registry/buckets_config.cc:53-74 | Refuses zero buckets or steps; else the floors with offsets wrapped at 32 bits. |
| `BucketsConfig.LinearIff` | src/registry/buckets_config.cc:67-70 | The floors are the documented ones, and they do not decrease, if and only if the last offset fits in 32 bits. |
| `BucketsConfig.LinearWraps` | src/registry/buckets_config.cc:67-70 | Two buckets of 2^31 give the floors 0, 2^31 and 0, which do not partition the values. |
| `BucketsConfig.CreateExponential` | src/registry/buckets_config.cc:76-102 | Refuses zero parameters; else the documented floors reduced to 64 bits, although the running offset wraps. |
| `BucketsConfig.ExponentialIff` | src/registry/report_definition.proto:812-826 | The floors are the documented ones if and only if the last is a 64-bit signed number; then they do not decrease. |
| `BucketsConfig.ExponentialWraps` | src/registry/buckets_config.cc:94-99 | Initial step and multiplier 2^31: the fourth floor is 0, and the buckets do not partition the values. |
| `CountMinSketch.CountMin.Increment` | src/algorithms/experimental/count_min.cc:22-26 | After every sequence of increments each counter holds, modulo 2^32, the total of what was counted in it. |
| `CountMinSketch.CountMin.GetCount` | src/algorithms/experimental/count_min.cc:40-49 | The least of the item's counters. |
| `CountMinSketch.InRangeIff` | src/algorithms/experimental/count_min.cc:53-56 | Every digest selects a counter inside the sketch if and only if there are at least as many cells in a row as hash functions. |
| `CountMinSketch.CellOutOfRange` | src/algorithms/experimental/count_min.cc:53-56 | One cell and two hash functions: an odd digest selects a counter past the end. |
| `CountMinSketch.SketchLayout` | src/algorithms/experimental/count_min.cc:53-56 | Rows do not overlap and no counter is out of range. |
| `CountMinSketch.CountedIsColliding` | src/algorithms/experimental/count_min.cc:22-26 | A counter holds the total of exactly the items that collide with the item in that row. |
| `CountMinSketch.EstimateBounds` | src/algorithms/experimental/count_min.cc:40-49 | Without overflow the estimate is the least over the rows of the colliding totals: at least the true count, at most the grand total, and exact if and only if in some row nothing else collides. |
| `CountMinSketch.UnusedCells` | src/algorithms/experimental/count_min.cc:53-56 | Of every row only the first num_hashes counters are ever used. |
| `CountMinSketch.OneHashCountsEverything` | src/algorithms/experimental/count_min.cc:40-56 | With one hash function the estimate of every item, counted or not, is the grand total modulo 2^32, however many cells there are. |
| `BasicRappor.Validate` | src/algorithms/rappor/rappor_config_validator.cc:113-134 | Valid if and only if the probabilities and categories are acceptable; then every category has a bit of its own and nothing else has one. |
| `BasicRappor.ExtractCategories` | src/algorithms/rappor/rappor_config_validator.cc:51-94 | The categories in order, with the refusals of each kind. |
| `BasicRappor.FlipBits` | src/algorithms/rappor/rappor_encoder.cc:59-78 | Mixes the masks into the data byte by byte; untouched when p <= 0 and q >= 1; fails only above 256 bytes. |
| `BasicRappor.Encode` | src/algorithms/rappor/rappor_encoder.cc:88-119 | Refused for an invalid configuration or secret and for a value that is no category; else the value's own bit comes from the q mask and all others from the p mask, and the random source never fails. |
| `BasicRappor.BitIsLayout` | src/algorithms/rappor/rappor_encoder.cc:88-119 | Which bit of the encoded bytes stands for category i: bit i % 8, from the low end, of byte i / 8 from the end. |
| `BasicRappor.EncodeNullObservation` | src/algorithms/rappor/rappor_encoder.cc:121-135 | Every bit comes from the p mask. |
| `BasicRappor.BasicRapporAnalyzer.CountBits` | src/algorithms/rappor/basic_rappor_analyzer.cc:63-87 | The walk whose outer guard is always true ends without reading outside the observation, at every width, and adds exactly the set bits. |
| `BasicRappor.BasicRapporAnalyzer.AddObservation` | src/algorithms/rappor/basic_rappor_analyzer.cc:45-87 | Accepts exactly observations of the right width; after any sequence each count is the number of accepted observations with that bit. |
| `BasicRappor.BasicRapporAnalyzer.Analyze` | src/algorithms/rappor/basic_rappor_analyzer.cc:89-118 | One result per category, in order: the estimate and the squared standard error over exact counts; the square is not negative for probabilities in range. |
| `BasicRappor.ErrorIsReal` | src/algorithms/rappor/basic_rappor_analyzer.cc:112-114 | What the root is taken of is never negative, for every count up to the number of observations and all probabilities. |
| `BasicRappor.ErrorIsBinomial` | src/algorithms/rappor/basic_rappor_analyzer.cc:112-114 | The squared error is the variance of the number of set bits, scaled as the estimate is, when as many observations as the estimate says had the bit. |
| `BasicRappor.BitsCountValues` | src/algorithms/rappor/rappor_encoder.cc:103-108 | For every sequence of noise-free encodings, the count of a bit is the number of times its category was encoded. |
| `BasicRappor.NoiseFreeAnalysisIsExact` | src/algorithms/rappor/basic_rappor_analyzer.cc:110-113 | With p = 0 and q = 1 the estimate of a category is the number of times it was encoded, with error 0. |
| `BasicRappor.EstimateInvertsFlipping` | src/algorithms/rappor/basic_rappor_analyzer.cc:93-113 | If the flipping kept and set the exact expected numbers, the estimate is the original count, for every p and q that differ. |
| `BasicRappor.AnalyzeEncodings` | src/algorithms/rappor/basic_rappor_analyzer_test.cc:447-458 | Encoding any values with p = 0 and q = 1, adding them and analyzing gives the exact number of each category, with error 0. |
| `Calendar.ClosedFormCountsDays` | src/lib/util/datetime_util.cc:126-157 | For every month of every year from 1970 on the closed form is the count of days since 1970-01-01, with leap years by 4, 100 and 400. |
| `Calendar.IndexCountsDays` | src/lib/util/datetime_util.cc:107-158 | For every valid date below the year limit the index is that count. |
| `Calendar.InvalidExactly` | src/lib/util/datetime_util.cc:107-125 | The invalid index is returned for exactly the dates before 1970 or from the year 10000 on, and those with a month outside 1 to 12 or a day outside 1 to 31. |
| `Calendar.NextDayIsOneMore` | src/lib/util/datetime_util.cc:126-157 | The next calendar day has the next index. |
| `Calendar.IndexFollowsCalendar` | src/lib/util/datetime_util.cc:126-157 | Later dates have larger indices, and dates with equal indices are equal. |
| `Calendar.DateOf` | src/lib/util/datetime_util.cc:126-157 | Every index is the index of a date. |
| `Calendar.OverlongMonth` | src/lib/util/datetime_util.cc:117-121 | A day number that the guard lets through but the month does not have gets the index of a later date. |
| `Calendar.ThirtiethOfFebruary` | src/lib/util/datetime_util.cc:117-121 | 30 February 1970 gets the index of 2 March. |

## Left out

- Protobuf, base64 and metadata serialization, the delimited record codec: taken as injective encodings; a file is a
  sequence of records.
- Encryption, SHA-256, HTTP and POSIX calls: abstract functions or outcomes that the environment decides.
- Differential privacy and unbiasedness of Basic RAPPOR: there is no probability in the model.
- Rounding of floating point: probabilities and estimates are exact reals.
- Overflow of 64-bit signed sums in numeric aggregates: integers are unbounded there, which is the code's behaviour as
  long as no sum overflows.
- The version upgrade and the restore from disk of the aggregate store, `DeleteData` and `Disable` in its runs: they
  reset or freeze history by design.
- `Logger`, `EventLogger` dispatch, `ProjectContext`, configuration lookups, internal metrics, tracing, the status
  counters of the shipping manager: plumbing with only easy claims. An event that the undated event manager hands to an
  event logger counts as logged, whether or not the logger accepts it.
- `UploadScheduler` and the Clearcut retry loop: short doubling loops around clocks; when a scheduled send is due is a
  parameter of the worker's step.
- `DayIndexToCalendarDate` and the other conversions through the C library.
- `src/local_aggregation_1.1`: its procedures are stubs.
- BasicRappor.BasicRapporAnalyzer.Analyze: reports the square of `std_error`; the square root is the C library's.
- FileObservationStore.RunInvariant: assumes fresh file names, a rename and delete that succeed, and records that are
  written whole and take space; an active file that survives a restart is not modelled.
- FileObservationStore.FileStore.StoreObservation: opening the active file and writing a record succeed; a failed open
  or write, which returns kWriteFailed, is not modelled.
- FileObservationStore.FileStore.FinalizeActiveFile: the rename succeeds.
- FileObservationStore.GetEnvelope: encryption while reading is a function of the payload; one that fails, which leaves an
  empty message, is a value of that function.
- AggregateGc.GcInvisible: for the next call, and one in which no encode or write fails: which observations a call
  writes before its first failure depends on the iteration order. `GcInvisibleOverRuns` is about whole runs.
- AggregateExact.WrittenExactly: for runs from an empty store in which nothing fails, with usable configurations, logged
  event codes with distinct low 32 bits, and calls that are not earlier than the calls and collections before them. After
  a call that fails the bag depends on the iteration order; `AggregateRetries.CaughtUp` is about runs with failures.
- AggregateExact.GcInvisibleOverRuns: the same; `AggregateRetries.SameOnceCaughtUp` is about runs with failures.
- AggregateExact.CallExact: the same.
- AggregateExact.PassedOver: the same; after a failure a day can be passed over that has values, until a call returns kOK.
- AggregateRetries.CaughtUp: not for participation observations, whose failures the code ignores, and not for numeric
  windows that are listed twice, of which a failure in between can write one; no event is for a day already generated.
- AggregateWritten.WrittenFollowsLog: ties a numeric observation to the entry that its label names only when the logged
  codes fit in 32 bits (`WrittenNamesItsEvents`); for runs that start from a store without logged events and that
  collect on days no later than those of the call.
- AggregateComplete.LoggedIsWritten: the same, and for entries with distinct low 32 bits of the event code. A value that
  is logged for a day whose observation was already generated is not generated again; that is the code's design.
- ConsistentProtoStore.RefinesRegister: for runs in which no last flush fails unnoticed and no write is shorter than what
  an interrupted one left in tmp; without the second condition on file systems that truncate
  (`RefinesRegisterWhenTruncating`).
- EnvelopeMaker.MergeWith: envelopes are values; moving them between owners is not modelled as sharing of objects.
- FileSendLoop.SendAllFiles: without concurrent additions; those are in ShippingWorker.
- SendLoop.SendAllEnvelopes: without concurrent additions. In both loops and in ShippingWorker an envelope is sent when SendEnvelopeToBackend returns no holder: that includes one that is
  dropped because it could not be encrypted (shipping_manager.cc:333-338) and one for a local file that could not be opened
  (shipping_manager.cc:421-428).
- ShippingWorker.Reachable: threads interleave at lock releases; an unannounced observation that is in the store before
  Start counts as announced or not as the caller says.
- BucketsConfig.CreateLinear: assumes that the number of floors fits in 32 bits and that the signed sums do not
  overflow, both undefined otherwise.
- CountMinSketch.CountMin.Increment: the sketch has at least as many cells in a row as hash functions; otherwise the
  code indexes out of range. The constructor that takes over existing cells is not modelled.
- PackedEventCodes.PackEventCodes: words are numbers; or-ing a field into zero bits is adding it (`OrIsAdd`,
  `OrIsAddV1`).
