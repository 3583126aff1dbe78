# gomm2 in Dafny

A model of the parts of gomm2, a Kafka mirror, on which its data guarantees rest, with proofs.

* `SyncStore`, `SyncHistory`, `SyncTranslation`: the store that keeps 64 offset syncs per partition in
  place of the whole history and translates consumer positions. The slots are related to the history
  since its last restart, to the ideal translation an unbounded store would give, and to the true
  upstream-to-downstream mapping. Offsets are int64 and the repair check wraps as Go's does.
* `RingBuffer`: the offset-indexed ring buffer as an object, one call at a time, as a map from the
  offsets of a window to records.
* `Pipeline`, `PipelineOrder`, `PipelineProgress`, `PipelineLimits`, `PipelineDeadlock`,
  `PipelineComplete`, `PipelineRaces`: the catch-up of one partition, with any number of fetchers, one
  drainer, failure, closing and cancellation as interleaved atomic steps; termination of every run;
  exactly which pipelines keep order in every interleaving and which of those can deadlock, over sources
  with or without gaps; exactly which emit all of a source without gaps; what races cost the others.
* `Replication`: the asynchronous produce-and-commit loop over any number of partitions, with callbacks
  in any order, crashes and restarts; what a committed offset means.
* `Wire`, `Recovery`: byte formats of the internal topics, and rebuilding the store from a log that has
  been compacted in any way.
* `Naming`: the default topic-naming policy and discovery runs over any set of flows.
* `PipelineCalls`: what one call of Put or DrainBatch does when its atomic steps are not interrupted.
* `Breaker`: the circuit breaker over all event histories, and the retry loop.
* `Machine`, `Wrappers`: int64 wrap-around, powers of two, division facts; the option type.

Where code and documentation disagree the model follows the code:

* `DESIGN.md` line 88 states that slots i < j are at least 2^(i-2) apart. Slots are often equal (after the
  first sync all 64 are, `SyncHistory.DesignSpacingFails`). It holds of exactly the pairs with different
  offsets (`DesignSpacingIff`), and those are even further apart (`SlotsSeparated`).
* `internal/mirror/ring_buffer.go` lines 38-42 promise strict offset order. `PipelineLimits.InOrderIff`
  says for which pipelines the code keeps it in every interleaving; `DefaultsOvertake` shows the usual
  settings, and `GapOvertakes` one fetcher at a gap, on the other side.
* The same lines and `internal/mirror/ring_buffer.go` lines 123-133 let one expect that without failure
  every record is drained. `PipelineComplete.CompleteIff` says for which pipelines; the usual settings
  are not among them (`DefaultsIncomplete`), and `PipelineRaces.RaceLoses` loses a record silently.
* `internal/mirror/parallel_source.go` lines 283-296 close the buffer once the fetchers have finished, so
  that the drainer ends. At a gap in the offsets they may never finish: `PipelineDeadlock.DeadlockIff`,
  `GapDeadlocks`.
* `internal/mirror/source.go` lines 494-496 say that failed records are consumed again after a restart.
  `Replication.AtLeastOnceIff` says when; `ForgottenFailure` is a run in which one is not.
* `pkg/types/types.go` has no length limit on topics; `Wire.RoundTripIff` gives the one the reader has.

## Model

| member | source | states |
|---|---|---|
| SyncStore.SyncStore.Repair | internal/offset/sync_store.go:88-101 | the in-place repair pass leaves copies of the new sync up to the first slot whose check held before the update, and every later slot untouched |
| SyncStore.SyncStore.HandleSync | internal/offset/sync_store.go:51-104 | first sync, rewind and initial read fill all slots; otherwise a repair pass; other partitions and readiness unchanged |
| SyncStore.SyncStore.TranslateDownstream | internal/offset/sync_store.go:108-134 | unavailable before the initial read or without syncs; otherwise the first slot at or below the offset answers, with its downstream offset at its very offset and with the next one past it; -1 when there is none |
| SyncStore.TranslateExact | internal/offset/sync_store.go:121-133 | the same of the translation function the other results speak of |
| SyncStore.HandleExact | internal/offset/sync_store.go:55-104 | what one sync does, slot by slot: a first, rewinding or early one fills all slots; any other is copied into the slots before the first one, from slot 1 on, whose old sync is near enough; nothing else changes |
| SyncStore.SyncStore.MarkReadToEnd | internal/offset/sync_store.go:36-41 | sets both flags and touches no sync |
| SyncHistory.StoreHoldsHistory | internal/offset/sync_store.go:51-104 | after any events each partition's slots are a function of its syncs since the last restart of its history, which have non-decreasing upstream offsets |
| SyncHistory.LatestFirst | DESIGN.md:86 | invariant A: slot 0 is the latest sync |
| SyncHistory.SpacedExact | internal/offset/sync_store.go:92-98 | for all int64 offsets the wrapped check, 1<<63 included, is the mathematical bound restricted to non-negative int64 results |
| SyncHistory.SlotsOrdered | internal/offset/sync_store.go:88-101 | after any history of any int64 offsets the slots are non-increasing, within the bound from neighbour to neighbour, and taken from the history |
| SyncHistory.BoundBetween | DESIGN.md:87 | invariant B for every pair of slots |
| SyncHistory.SlotsSeparated | DESIGN.md:88-89 | for all non-negative int64 offsets, distinct slots i < j (i >= 1) are more than 2^(i-1) apart (invariant C, corrected); below 2^62 slot 63 is the first sync of the history (invariant D) |
| SyncHistory.DesignSpacingIff | DESIGN.md:88 | for all non-negative int64 offsets, invariant C as written holds of exactly those pairs of slots i < j, 0 and 1 included, that hold different offsets |
| SyncHistory.DesignSpacingFails | DESIGN.md:88 | after one sync it fails for every pair |
| SyncHistory.FirstKeptIff | internal/offset/sync_store.go:91-101 | an update of any int64 offsets keeps slot 63 exactly when it repeats that sync or some slot's check held before the update |
| SyncHistory.FirstLost | internal/offset/sync_store.go:91-101 | from 2^62 on a jump can fail every check by wrap-around and lose the first sync |
| SyncHistory.BreakIsSound | internal/offset/sync_store.go:91-101 | below 2^62 the loop with its early break computes the same slots as the loop without it |
| SyncTranslation.TranslateByHistory | internal/offset/sync_store.go:108-134 | translation after any events, in terms of the history alone |
| SyncTranslation.AnswersNearHistory | internal/offset/sync_store.go:121-133 | against the full history, for all int64 offsets: exact when slot 0 answers, less than 2^(j-1) upstream offsets behind the latest usable sync when slot j answers, no answer below the first sync, which is where the history has none; below 2^62 some slot answers everywhere else |
| SyncTranslation.LagIsTight | internal/offset/sync_store.go:87-133 | that lag is attained at every power of two by consecutive syncs |
| SyncTranslation.NeverSkip | internal/offset/sync_store.go:51-134 | for any order of arrivals, if all syncs are true of one increasing mapping, a translated offset is at most the downstream offset of every record at or after the position |
| SyncTranslation.ResumesPastSync | internal/offset/sync_store.go:124-128 | the answer is the downstream offset of a sync of the history, or the next one when the position is past it: strictly beyond all that sync covers, and before nothing from the position on is left out |
| SyncTranslation.NeverBeyondIdeal | internal/offset/sync_store.go:108-134 | for all int64 offsets the answer never exceeds the downstream offset of the latest usable sync, one more when the position is past it, and is -1 below the first sync; below 2^62 only there |
| SyncTranslation.TranslationMonotone | internal/offset/translation_test.go:151-199 | translation is monotone in the upstream offset |
| SyncTranslation.UpdateDirection | internal/offset/sync_store.go:87-103 | an update ahead of a position can only lower its translation, one at or behind it can only raise it |
| SyncTranslation.StopsAfterTrailingOnes | internal/offset/sync_store.go:91-101 | after n consecutive syncs the next repair pass stops one slot past the trailing one bits of n |
| SyncTranslation.TrailingOnesExact | internal/offset/sync_store.go:91-101 | which bits those are: the low bits of n up to its first zero are all one |
| SyncTranslation.ClosedForm | internal/offset/sync_store.go:87-103 | after consecutive syncs b..b+n slot i holds the sync at b plus n with its low i bits cleared |
| RingBuffer.SameSlot | internal/mirror/ring_buffer.go:71-77 | slotIndex, with Go's remainder, identifies offsets exactly modulo the capacity, negative ones included |
| RingBuffer.SlotInjective | internal/mirror/ring_buffer.go:71-77 | slotIndex is injective on every window of capacity offsets |
| RingBuffer.PlaceExact | internal/mirror/ring_buffer.go:71-77 | an offset lands at its own place in the window exactly when it lies in the window |
| RingBuffer.OrderedRingBuffer.constructor | internal/mirror/ring_buffer.go:60-68 | an empty open buffer at the start offset |
| RingBuffer.OrderedRingBuffer.PutFast | internal/mirror/ring_buffer.go:82-95 | stores exactly when the slot is empty, adding one entry at the offset's place and changing nothing else |
| RingBuffer.OrderedRingBuffer.PutSlow | internal/mirror/ring_buffer.go:97-117 | refuses when closed or cancelled, waits while the slot is occupied, otherwise adds one entry |
| RingBuffer.OrderedRingBuffer.DrainBatch | internal/mirror/ring_buffer.go:123-173 | removes exactly the longest filled run from the drain offset up to the batch limit, in order, and keeps the rest; drains a filled run even when closed |
| RingBuffer.OrderedRingBuffer.Close | internal/mirror/ring_buffer.go:176-188 | closing changes no entry |
| Pipeline.PlanSegments | internal/mirror/parallel_source.go:208-281 | the launch loop hands out segments that tile the range: one if a share would be below 1000 offsets, else one per worker, all of equal size but the last, which takes the remainder |
| PipelineCalls.PutCall | internal/mirror/ring_buffer.go:82-95 | the atomic steps of Put, with nothing in between, fill an empty slot whatever `closed` says, and wait at a filled one |
| PipelineCalls.WaitCall | internal/mirror/ring_buffer.go:97-117 | a waiting call is stuck exactly while the slot is filled and the buffer open and not cancelled; then it gives up or fills the slot |
| PipelineCalls.DrainCall | internal/mirror/ring_buffer.go:123-173 | those of DrainBatch(512) emit exactly the longest filled run up to 512 records and empty its slots, or end the drainer, or are stuck, and when which |
| PipelineCalls.NextBatch | internal/mirror/parallel_source.go:411-420 | between batches the drainer stops exactly if cancelled |
| PipelineCalls.AnythingMayHappen | internal/mirror/parallel_source.go:343-391 | nothing is assumed of deliveries, failures and cancellation |
| PipelineOrder.SegmentsDisjoint | internal/mirror/parallel_source.go:258-268 | segments are disjoint and lie in the range |
| PipelineOrder.PendingSlotFree | internal/mirror/ring_buffer.go:87-112 | under the window discipline the slot of a pending record is empty, so no write destroys a record |
| PipelineOrder.InvStep | internal/mirror/ring_buffer.go:82-173 | every step of every fetcher, the drainer, failure, closing and cancellation keeps the invariant from a state with no foreign record in the drainer's next slot, whatever writers race elsewhere |
| PipelineOrder.NoMeetingIsClean | internal/mirror/ring_buffer.go:147-164 | where no two records can meet, by a condition on source, ring and segments alone, no foreign record is ever there |
| PipelineOrder.WindowIsClean | internal/mirror/ring_buffer.go:147-164 | nor under the window discipline |
| PipelineOrder.OrderedIfOrderly | internal/mirror/ring_buffer.go:82-173 | in every interleaving that keeps the window discipline, and in all of a pipeline without meeting records, the output is the source's own records, offset and payload, from the start, with no gap, repeat or reorder |
| PipelineOrder.SingleWaits | internal/mirror/ring_buffer.go:97-102 | one fetcher on a source without gaps waits rather than write beyond the window |
| PipelineOrder.OrderedAlways | internal/mirror/parallel_source.go:217-239 | the discipline, and so order, follows when the range fits the ring or one fetcher reads a source without gaps |
| PipelineProgress.CompleteIfOrderly | internal/mirror/parallel_source.go:283-296 | an orderly run that stops without failure or cancellation has emitted exactly the range, or exactly up to its first offset gap |
| PipelineProgress.ReasonsAlways | internal/mirror/parallel_source.go:283-296 | in every run of any pipeline: the buffer is closed only for a failure or after all fetchers have returned, a fetcher finishes only at its segment's end or by refusal, and the drainer stops only then and at an unfilled slot |
| PipelineProgress.StepDecreases | internal/mirror/ring_buffer.go:82-173 | every step of every run, in order or not, uses up work: offsets not put, slots not emptied, program counters, flags |
| PipelineProgress.RunsEnd | internal/mirror/parallel_source.go:207-297 | no run of any pipeline takes more than 17 steps per offset, 10 per fetcher and 7 more |
| PipelineLimits.MeetingOvertakes | internal/mirror/ring_buffer.go:147-164 | if two records can meet, some interleaving emits the later for the earlier one |
| PipelineLimits.InOrderIff | internal/mirror/parallel_source.go:207-297 | for any number of fetchers, any segments, any ring and any gaps: order holds in every interleaving if and only if no two records can meet |
| PipelineLimits.SingleInOrderIff | internal/mirror/parallel_source.go:217-220 | with one fetcher: if and only if no record laps the first gap while the records in between have slots of their own |
| PipelineLimits.GaplessInOrderIff | internal/mirror/parallel_source.go:213-268 | without gaps: if and only if the range fits the configured ring or a single fetcher is launched |
| PipelineLimits.DefaultsOvertake | internal/mirror/engine.go:192-256 | a range the engine starts a catch-up for, the default ring and 2 to 100 workers do not meet that condition |
| PipelineLimits.GapOvertakes | internal/mirror/ring_buffer.go:147-164 | nor does one fetcher with the first offset missing and a full lap of records behind it |
| PipelineDeadlock.WaitingClash | internal/mirror/ring_buffer.go:97-146 | if nothing but an error or a cancellation can happen and a fetcher waits, two records beyond the first gap share a slot |
| PipelineDeadlock.NoDeadlock | internal/mirror/ring_buffer.go:97-146 | until the drainer has stopped, some fetcher, the drainer or the closing can step, unless two records beyond the first gap share a slot or a fetcher polls behind the last record of the source |
| PipelineDeadlock.RunCanContinue | internal/mirror/parallel_source.go:207-297 | the same for every orderly run; no fetcher polls in vain once the source has a record at the last offset or beyond |
| PipelineDeadlock.ShortSourceNeverStops | internal/mirror/parallel_source.go:364-391 | before that no run of any pipeline stops of itself |
| PipelineDeadlock.CancelEnds | internal/mirror/parallel_source.go:338-341 | after a cancellation nothing is left to do only when all fetchers have returned, the buffer is closed and the drainer has stopped |
| PipelineDeadlock.FailureEnds | internal/mirror/parallel_source.go:272-278 | after a failure has closed the buffer: only when the drainer has stopped and no fetcher waits or holds a record |
| PipelineDeadlock.ParksForEver | internal/mirror/ring_buffer.go:97-117 | if two such records share a slot, ordinary steps alone lead into the deadlock |
| PipelineDeadlock.DeadlockIff | internal/mirror/ring_buffer.go:97-146 | a pipeline that keeps order, with any number of fetchers, can deadlock if and only if two records beyond the first gap share a slot |
| PipelineDeadlock.SingleNeverStops | internal/mirror/parallel_source.go:283-296 | with one fetcher it then never ends: no run stops without failure or cancellation |
| PipelineDeadlock.SingleAtGap | internal/mirror/parallel_source.go:217-220 | one fetcher at the first gap: overtaken, deadlocked, or stopped with exactly what precedes the gap, and when which |
| PipelineDeadlock.GapDeadlocks | internal/mirror/ring_buffer.go:97-146 | one such input: the first offset missing, the second present and the next record one lap on; a state is reached that only a cancellation can change |
| PipelineComplete.MeetingSpoils | internal/mirror/ring_buffer.go:82-173 | if two records can meet, a run over a source without gaps stops of itself with something else in the place of the earlier one |
| PipelineComplete.CompleteIff | internal/mirror/parallel_source.go:207-297 | over a source without gaps, whatever stops without failure or cancellation has emitted exactly the range if and only if no two records can meet |
| PipelineComplete.NilIff | internal/mirror/ring_buffer.go:87-94 | the drainer can be handed a nil record, which parallel_source.go:426 dereferences, if and only if two records can meet |
| PipelineComplete.PlanCompleteIff | internal/mirror/parallel_source.go:213-268 | in terms of the settings: if and only if the range fits the configured ring or a single fetcher is launched |
| PipelineComplete.DefaultsIncomplete | internal/mirror/engine.go:192-256 | a range the engine starts a catch-up for, the default ring and 2 to 100 workers do not meet that condition |
| PipelineRaces.RaceLoses | internal/mirror/ring_buffer.go:97-112 | two fetchers pass the same wait: a run without gaps, failure or cancellation stops of itself with one record fewer |
| PipelineRaces.LossDeadlocks | internal/mirror/ring_buffer.go:97-146 | three do: a pipeline without gaps deadlocks |
| Replication.InvStep | internal/mirror/source.go:332-518 | polls, callbacks, boundaries, commits, shutdown, crashes and restarts keep the invariant |
| Replication.NothingSkipped | internal/mirror/source.go:332-518 | in every run a source record is acknowledged, still to be polled from the committed offsets, or lost, and the lost ones are exactly the committed, never acknowledged ones, all exhausted |
| Replication.PolledAccounted | internal/mirror/source.go:355-460 | polled records are in flight, acknowledged or exhausted and only one of these; nothing is in flight at a commit |
| Replication.AnythingMayHappen | internal/mirror/source.go:332-460 | nothing is assumed of polls, of how a produce ends, and of crashes |
| Replication.BatchIff | internal/mirror/source.go:489-490 | after a batch the loop goes to a commit boundary if and only if the interval is over or at least commitBatch records are polled and not committed |
| Replication.FewUncommitted | internal/mirror/source.go:489-517 | over runs: between polls, unless a boundary was skipped or a commit failed, fewer than commitBatch records are uncommitted |
| Replication.QuitDrains | internal/mirror/source.go:244-250 | shutdown gives nothing in flight up and commits only when nothing is left in flight |
| Replication.FinalCommitIff | internal/mirror/source.go:252-269 | the final commit covers everything polled if no record is exhausted since the last boundary and it succeeds, and nothing otherwise |
| Replication.BoundaryIff | internal/mirror/source.go:491-506 | a boundary commits exactly when no record was exhausted since the last one |
| Replication.AtLeastOnceIff | internal/mirror/source.go:494-516 | after any run every committed record is acknowledged if and only if at every commit the failures cleared at earlier boundaries of that process had been acknowledged to some process |
| Replication.AtLeastOnce | internal/mirror/source.go:248-269 | without exhausted retries every record below a committed offset has been acknowledged, whatever crashes |
| Replication.ForgottenFailure | internal/mirror/source.go:497-506 | a run in which a skipped boundary clears a failure and the next commit passes over it |
| Wire.SerializeKey | pkg/types/types.go:33-40 | the buffer holds the length, the topic and the partition |
| Wire.SerializeValue | pkg/types/types.go:43-48 | the buffer holds both offsets |
| Wire.SerializeCheckpointKey | pkg/types/types.go:123-138 | the buffer, filled at a moving offset, holds group, topic and partition |
| Wire.SerializeHeartbeatKey | pkg/types/types.go:88-98 | the buffer holds source and target |
| Wire.KeyLayouts | pkg/types/types.go:33-138 | byte by byte: each string after its length in two bytes, high byte first, a partition as four bytes, most significant first |
| Wire.ValueLayout | pkg/types/types.go:43-48 | byte by byte: the upstream, then the downstream offset, most significant byte first |
| Wire.ReaderExact | pkg/types/types.go:51-73 | for any bytes: exactly when the key is too short, announces more than it has, makes the reader panic, or the value is too short |
| Wire.RoundTripIff | pkg/types/types.go:33-73 | a written sync is read back, for all int32 and int64 values, if and only if its topic has at most 65533 bytes |
| Wire.LongTopicPanics | pkg/types/types.go:55-60 | at 65534 and 65535 bytes the uint16 bound wraps and the reader panics |
| Wire.DecodeEncode | pkg/types/types.go:51-73 | whatever bytes are accepted, writing the result gives them back |
| Wire.KeyInjective | pkg/types/types.go:33-40 | offset-sync keys identify topic and partition |
| Wire.CheckpointKeyInjective | pkg/types/types.go:123-138 | checkpoint keys identify their contents when the group has fewer than 65536 bytes, or the two groups equally many |
| Wire.HeartbeatKeyInjective | pkg/types/types.go:88-98 | the same for heartbeat keys and the source alias |
| Wire.CheckpointKeysCollide | pkg/types/types.go:123-138 | two different checkpoint keys beyond that length are equal |
| Wire.HeartbeatKeysCollide | pkg/types/types.go:88-98 | and two different heartbeat keys |
| Wire.KeysIdentifyIff | pkg/types/types.go:88-138 | under a length limit on the first string, checkpoint and heartbeat keys identify their contents if and only if the limit is at most 65535 |
| Recovery.HandleRecords | internal/offset/sync_reader.go:93-102 | feeds every well-formed record in order and skips malformed ones |
| Recovery.FeedExact | internal/offset/sync_reader.go:93-102 | one record within a log: handled after those before it, of no effect if malformed, the end if it makes the reader panic |
| Recovery.ReadToEnd | internal/offset/sync_reader.go:63-113 | at the first poll that times out, is cancelled, comes back empty without errors or makes the reader panic it is over; it is ready exactly after a timeout or such an empty poll, and only then marks the store ready |
| Recovery.OutcomeExact | internal/offset/sync_reader.go:70-112 | the same of the outcome function |
| Recovery.RecordsExact | internal/offset/sync_reader.go:92-102 | the records fed by then are those of the polls, end to end, of failed polls too |
| Recovery.RecordsStop | internal/offset/sync_reader.go:104-112 | and none of any later poll |
| Recovery.RecoversLast | internal/offset/sync_reader.go:92-102 | a fresh store that reads a writer-produced log, however compacted by key and split into polls, holds each partition's last sync in all slots |
| Recovery.RecoveredAnswers | internal/offset/sync_store.go:108-134 | a fresh store whose initial read ends by timeout or an empty poll is ready; it reports a position before a partition's last written sync as too old, answers that sync's own offset with its downstream offset, and any later one with the next |
| Recovery.LastOnlyExact | internal/offset/sync_store.go:77-85 | which sync that is |
| Recovery.CompactionKeepsLast | pkg/types/types.go:33-40 | compaction by serialised key drops no partition's last sync |
| Recovery.CompactionCovers | pkg/types/types.go:33-40 | every part of a log that keeps the latest record of each key counts as compacted |
| Recovery.CompactionIsPart | pkg/types/types.go:33-40 | and nothing else does |
| Naming.InverseIff | internal/policy/replication.go:51-69 | TopicSource undoes FormatRemoteTopic if and only if the separator first occurs right after the alias; UpstreamTopic if and only if moreover the alias is not empty, or the name begins with the separator and the topic is empty |
| Naming.SingleCharacterInverse | internal/policy/replication.go:55-61 | for a one-character separator: if and only if the alias is free of it |
| Naming.RemoteDetectedIff | internal/mirror/topic_discovery.go:231-236 | a replicated topic is recognised as remote if and only if its name does not begin with the separator |
| Naming.OwnTopicsInternal | internal/policy/replication.go:71-86 | sync and checkpoint topics are internal and never replicated |
| Naming.RefreshLoop | internal/mirror/topic_discovery.go:154-180 | one refresh lists exactly the source topics that pass the filter, begin with neither "__" nor ".", and are neither heartbeats nor internal nor remote, and adds exactly their missing remote names whose creation succeeds |
| Naming.RefreshExact | internal/mirror/topic_discovery.go:220-240 | the same of the function that the discovery results speak of; other clusters stay |
| Naming.InternalExact | internal/policy/replication.go:71-74 | which names are internal |
| Naming.SourceExact | internal/policy/replication.go:55-69 | for every name: source, separator and upstream topic put together again; no source exactly without a separator or with one at the beginning |
| Naming.AddsOnlyFirstHand | internal/mirror/topic_discovery.go:123-240 | whatever ran before, a run adds only alias, separator and a topic its source had from the start that passes the filter, begins with neither "__" nor ".", and is neither heartbeats nor internal; it is free of the separator unless it begins with it |
| Naming.Fixpoint | internal/mirror/topic_discovery.go:103-120 | once every flow has had a successful run, each cluster has its original topics and their remote names, and no further run changes any cluster |
| Breaker.CircuitBreaker.Allow | internal/mirror/retry.go:164-179 | applies the timed transition and allows exactly when not open |
| Breaker.CircuitBreaker.RecordSuccess | internal/mirror/retry.go:183-198 | the whole new state after a success |
| Breaker.CircuitBreaker.RecordFailure | internal/mirror/retry.go:202-219 | the whole new state after a failure |
| Breaker.CountsFailures | internal/mirror/retry.go:155-237 | after every history: closed means exactly the failures since the last success or reset, fewer than the threshold; open or half-open means at least the threshold |
| Breaker.TripsIff | internal/mirror/retry.go:209-213 | it opens exactly when that count reaches the threshold |
| Breaker.StaysOpen | internal/mirror/retry.go:200-237 | open, it refuses everything until the timeout after the last recorded failure, however many failures and successes come in between |
| Breaker.AllowedIff | internal/mirror/retry.go:232-237 | open, a question is allowed exactly from the timeout on |
| Breaker.ClosesIff | internal/mirror/retry.go:187-197 | half-open, it closes exactly at the success that completes the probes |
| Breaker.FailureReopens | internal/mirror/retry.go:214-218 | half-open, one failure before that opens it again |
| Breaker.ResetRenews | internal/mirror/retry.go:221-228 | after a reset it is closed and behaves as a new breaker would, whatever came before and comes after |
| Breaker.Retry | internal/mirror/retry.go:43-73 | success is the first success within the attempts; exhaustion means every attempt failed and no look at the context found it cancelled; cancellation ends it at the first look that does |

## Left out

- franz-go, admin calls, TLS and SASL, configuration, HTTP and metrics: foreign libraries and I/O; a source partition is a set of offset-tagged records and a produce ends in success or failure at any time.
- Condition-variable wake-ups: a wait is a guard that may be examined again at any time, so progress is claimed for guards, not for delivery of signals.
- Mutexes of the sync store and the breaker: each method is one atomic step.
- PipelineDeadlock.DeadlockIff: pipelines that keep order; of the others only that a deadlock is possible even without gaps (`LossDeadlocks`). With several fetchers a shared slot makes a deadlock possible, not certain.
- PipelineComplete.CompleteIff: sources without gaps; a pipeline with gaps in which records can meet may have no run that stops of itself, so that there is nothing to be complete.
- The two plain writes of record and offset in Put are one step (the stored offset is never read again), as are the reads of `closed` and the slot state after the drainer's wait; the consecutive-error count of a fetcher is a failure at any poll. A nil record is a value in the output here, where the process would panic; runs shown to lose records contain none.
- SyncTranslation.NeverSkip: that syncs come from one increasing mapping is a premise; a late retry can produce a sync that breaks it.
- SyncHistory.SlotsSeparated: non-negative offsets, as Kafka assigns them, and for slot 63 offsets below 2^62; `FirstKeptIff` and `FirstLost` describe larger ones, `SlotsOrdered` holds for all.
- Replication: rebalances, the writer goroutine of offset syncs, dead letters and the target log itself; an acknowledged record is one whose produce succeeded.
- Replication.AtLeastOnce: exhausted records are excluded because a later commit can pass them, see `AtLeastOnceIff`.
- Wire: value formats of checkpoints and heartbeats, which are fixed concatenations without a reader.
- Naming: the identity policy, partition counts and topic configuration, and the engine's own topic creation before a catch-up, which does not apply the replication test; filter patterns are an arbitrary predicate.
- Breaker.Retry: back-off durations and jitter; cancellation is seen at the first look at the context after it happens.
- RetryWithCircuitBreaker, heartbeats, checkpoints emission, logging: they would add no harder property.
