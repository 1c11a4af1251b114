# Verified models of the Aigis-Zero platform

Dafny models of the parts of the Aigis-Zero endpoint detection platform that keep state or run a protocol: the agent's
osquery client, differential scheduler, offline buffer and configuration editor, the fleet server's node and health
stores, the rule engine's deduplicator, scan buffer and alert batcher, the API backend's log persistence, and the
dashboard's query cache. `dafny verify dfyconfig.toml` checks all of it.

| file | models |
|---|---|
| `Collections.dfy` | a few definitions the models share |
| `ThriftBinary.dfy`, `ThriftValues.dfy` | reading, writing and skipping values of the Thrift Binary protocol |
| `OsqueryReply.dfy`, `OsqueryRoundTrip.dfy` | what the osquery reply parser computes, on replies and exceptions, and that it inverts encoding |
| `OsqueryClient.dfy` | the parser's nested loops over a cursor, and the read-and-retry loop |
| `Dedup.dfy`, `ShardedDedup.dfy` | one LRU shard against a history-only reference; the sharded deduplicator and the scanner loop |
| `FleetDb.dfy`, `FleetStore.dfy` | enrollment, heartbeat and operator writes, interleaved statement by statement and as calls |
| `AlertBatcher.dfy`, `LogStore.dfy` | the two batching select loops, and first-write-wins persistence |
| `DiffScheduler.dfy` | snapshot, added and removed results, and a consumer that replays them |
| `OfflineBuffer.dfy`, `DrainLoop.dfy` | the bounded event table, and the drain and re-queue loop |
| `ConfigEditor.dfy`, `ConfigReadBack.dfy` | the in-place node id editor and a reader of its result |
| `ScanBuffer.dfy` | flattening a payload to the text that rules scan |
| `QueryCache.dfy` | the cache with in-flight deduplication |

## How the models are built

Code that changes state is a class or a method with the loops of the source. Its contract equates the result with a
function of the inputs (`ReadReply`, `Step`, `Run`, `Edited`, `Scannable`, `Apply`), and the theorems are about those
functions, over all runs or all inputs. Select loops and transactions are runs of steps in which every interleaving and
every outcome of an outside call is a choice: a send or an insert succeeds or fails, a tick gives an error or rows, a
clock reading is any instant unless a lemma asks for more.

What the environment decides is a parameter: the hash of a node id, which stored strings parse as JSON, how JSON is
serialized, the instant of a clock reading, the bytes a socket delivers and where it cuts them, fresh node ids.

- **Thrift.** The Thrift library is not part of this model's sources. The wire format follows the Apache Thrift Binary
  protocol encoding specification (sections "Message", strict encoding, "Struct", "List and Set" and "Map"); skipping
  stops at nesting depth 64, and every string, skipped ones included, is read as UTF-8 text. The client tells "need more bytes" from
  "broken" by looking for EOF in the error text (client.rs:80-83); the model states the intended three outcomes, a value,
  end of file, or a fatal error.
- **PostgreSQL.** Statements run at the READ COMMITTED level: reads see committed rows, an update keeps its row locked until
  the transaction ends, the unique index on `machine_id` and the primary key make an insert wait for an open one of the same
  key and refuse it once one is committed, and the foreign key refuses a heartbeat of an unknown node. Fresh node ids are
  arbitrary, so even a collision is covered.
- **SQLite.** The buffer is a table in id order; the arithmetic of `COUNT(*)` and `max_events as i64` is 64-bit and wraps.

## Where the code and its documents or expectations differ

- `agent/guide.md:146-151` says buffered rows are deleted when the server acknowledges them. The code deletes them when they
  are drained (`agent/crates/event-buffer/src/lib.rs:97-101`) and pushes a failed batch back behind newer events; the model
  follows the code (`OfflineBuffer.EventBuffer.Drain`, `DrainLoop.DrainTick`).
- The upsert transaction does not turn a racing first enrollment into a re-enrollment: the later insert fails
  (`FleetDb.RacingEnrollmentLoses`), exactly when another upsert of the machine was committed since its lookup
  (`FleetDb.LateInsertFails`). No two rows for one machine are ever committed.
- The event bound holds if and only if `max_events` is below 2^63; beyond it every push empties the buffer
  (`OfflineBuffer.BoundHoldsIffSigned`).
- An unknown `binary` field that is not UTF-8 text makes a well-formed reply unreadable (`OsqueryRoundTrip.BinaryFieldCanBreakReply`);
  `OsqueryRoundTrip.ParseEncoded` and
  `OsqueryRoundTrip.EveryCutWaitsIff` give the exact condition, for replies and exceptions.
- One flush interval bounds the wait of every alert if and only if a batch holds at most two alerts or the interval is at most
  one tick (`AlertBatcher.OneIntervalIsABoundIff`); otherwise almost two are reached, and two never
  (`AlertBatcher.AnAlertCanWaitAlmostTwoIntervals`, `AlertBatcher.NoAlertWaitsTwoIntervals`).
- The saved node id reads back if and only if the save point lies in the `[agent]` table and nothing else there sets it;
  an indented header defeats it (`ConfigReadBack.ReadBackIff`, `ConfigReadBack.IndentedHeaderTakesTheId`). On whole files a save
  survives, and saving again changes nothing else, exactly when the file keeps to one condition on its lines
  (`ConfigEditor.SaveSurvives`); a blank last line breaks it (`ConfigEditor.BlankLastLineIsLost`).
- Clearing the query cache keeps one fetch per key from then on if and only if nothing is being fetched
  (`QueryCache.ClearHoldsIff`, `QueryCache.ClearBreaksSingleFlight`). Invalidating a key keeps older values out if and only if no fetch of it is under way
  (`QueryCache.InvalidationHoldsIff`).

## Model

| member | source | states |
|---|---|---|
| OsqueryClient.Query | agent/crates/osquery-client/src/client.rs:64-92 | the outcome depends only on the bytes of the whole stream, never on how the socket cut them; it stops at the first chunk that settles the parse, and every shorter prefix needed more bytes |
| OsqueryClient.AnyChunkingGivesTheReply | agent/crates/osquery-client/src/client.rs:64-104 | every encoded reply or exception, in any chunks and with anything after it: the reply comes back as its meaning exactly when its unknown fields can be skipped, everything else is a parse failure |
| OsqueryClient.TruncatedReplyIsReported | agent/crates/osquery-client/src/client.rs:66-91 | a reply or exception that stops short, wherever and in whatever chunks, ends as a closed connection or a read error, if and only if its unknown fields can be skipped |
| OsqueryClient.RequestCarriesTheStatement | agent/crates/osquery-client/src/client.rs:36-56 | a strict reader finds in the request bytes the call `query`, sequence 1, one string argument equal to the statement, and the end |
| OsqueryClient.ParseQueryResponse | agent/crates/osquery-client/src/client.rs:95-174 | the cursor loops compute the recursive parse of the buffer, for every buffer |
| OsqueryClient.ParseResult | agent/crates/osquery-client/src/client.rs:118-164 | the response struct loop: fields 1 and 2 by id alone, others skipped, up to the stop field |
| OsqueryClient.ParseStatus | agent/crates/osquery-client/src/client.rs:127-143 | the status struct loop, with later fields replacing earlier ones |
| OsqueryClient.ParseRows | agent/crates/osquery-client/src/client.rs:144-159 | the row list appends to the rows read before |
| OsqueryClient.ParseRow | agent/crates/osquery-client/src/client.rs:148-156 | one map of strings, a repeated key keeping its last value |
| OsqueryClient.ParseException | agent/crates/osquery-client/src/client.rs:100-104 | the exception struct loop: text in field 1, kind in field 2, others skipped, up to the stop field, so a short exception still asks for more |
| OsqueryReply.ParseIsStable | agent/crates/osquery-client/src/client.rs:75-91 | a value or a fatal error is unchanged by appended bytes |
| OsqueryReply.StrictPrefixIsEof | agent/crates/osquery-client/src/client.rs:78-104 | cutting bytes off a buffer that holds one reply or exception up to its last byte leaves end of file |
| OsqueryRoundTrip.ParseEncoded | agent/crates/osquery-client/src/client.rs:95-174 | a well-formed reply parses to its meaning and consumes exactly its bytes if and only if its unknown fields can be skipped; otherwise, and for every exception, the parse fails for good |
| OsqueryRoundTrip.EncodedPrefixIsEof | agent/crates/osquery-client/src/client.rs:75-104 | each strict prefix of a readable reply or exception is end of file, never a value or a fatal error |
| OsqueryRoundTrip.EveryCutWaitsIff | agent/crates/osquery-client/src/client.rs:75-104 | all strict prefixes of a reply or exception are end of file if and only if each of its unknown fields can be skipped |
| OsqueryRoundTrip.DecodeInvertsEncode | agent/crates/osquery-client/src/client.rs:106-173 | decoding inverts encoding for every status and every list of string-to-string rows, whatever the order of columns |
| OsqueryRoundTrip.UnknownFieldsAreIgnored | agent/crates/osquery-client/src/client.rs:100-167 | unknown fields at any of the three struct levels, nested ones included, do not change the response as long as they can be skipped; nor, in an exception, the failure |
| OsqueryRoundTrip.BinaryFieldCanBreakReply | agent/crates/osquery-client/src/client.rs:160-166 | a well-formed reply with a non-text binary field fails, since skipping reads it as text |
| ThriftValues.SkipEncoded | agent/crates/osquery-client/src/client.rs:138-166 | skipping an encoded value of any type and nesting moves exactly past it, if and only if it is within the depth and its strings are UTF-8 |
| ThriftBinary.SkipIsStable | agent/crates/osquery-client/src/client.rs:138-166 | a completed skip is unchanged by appended bytes |
| Dedup.ShardContents | rule-engine/src/engine/dedup.rs:48-65 | after any run of checks a shard holds exactly its most recently checked distinct signatures in recency order, each with the time of its last admission and one plus the suppressions since |
| Dedup.ShardAnswers | rule-engine/src/engine/dedup.rs:53-64 | every answer is the one the history prescribes; the window is fixed, not sliding |
| Dedup.SuppressedWithinWindow | rule-engine/src/engine/dedup.rs:53-57 | a check is suppressed only when the signature was admitted less than a window before |
| Dedup.CloseAdmissionsNeedPressure | rule-engine/src/engine/dedup.rs:48-65 | two admissions of one signature inside the window need at least a shard's capacity of distinct other signatures checked in between |
| Dedup.RoomyCacheIsUnbounded | rule-engine/src/engine/dedup.rs:48-65 | a shard that never overflows answers like an unbounded last-admission map |
| ShardedDedup.ShardedDeduplicator.New | rule-engine/src/engine/dedup.rs:28-40 | fails exactly below one entry a shard, and otherwise gives each shard a sixteenth of the capacity, rounded down |
| ShardedDedup.ShardedDeduplicator.CheckAndRecord | rule-engine/src/engine/dedup.rs:48-65 | answers as the history of the signature's shard prescribes, records the check, and changes no other shard |
| ShardedDedup.CapacityIsRespected | rule-engine/src/engine/dedup.rs:28-34 | after any history all shards together hold at most the configured capacity |
| ShardedDedup.ChecksOnDifferentShardsCommute | rule-engine/src/engine/dedup.rs:42-51 | checks on different shards commute in answers and in state |
| ShardedDedup.RoomyShardsAreOneUnboundedMap | rule-engine/src/engine/dedup.rs:42-65 | if no shard sees more distinct signatures than it can hold, all answers are those of one unbounded map over the whole history |
| ShardedDedup.ScannerLoop | rule-engine/src/main.rs:94-150 | forwards exactly the admitted alerts in order, and every generated alert is forwarded or counted as suppressed |
| FleetDb.StepKeeps | fleet-server/crates/postgres-interface/src/node_store.rs:49-112 | each statement of each transaction keeps the whole invariant of tables, logs and open transactions |
| FleetDb.MachinesHaveOneNode | fleet-server/crates/postgres-interface/src/node_store.rs:49-112 | over every interleaving a machine never has two committed rows, and all successful upserts of it return the same node |
| FleetDb.StatusesFollowTheirOwners | fleet-server/crates/postgres-interface/src/health_store.rs:54-76 | operator_status is the last operator command, agent_status the last committed heartbeat and only healthy or degraded, the profile that of the last upsert |
| FleetDb.AuditTrail | fleet-server/crates/postgres-interface/src/node_store.rs:94-108 | the audit rows of a node are one enrollment then re-enrollments, one for each successful upsert |
| FleetDb.NodesPersist | fleet-server/crates/postgres-interface/src/node_store.rs:79-88 | over every continuation of a run a node row stays and keeps its machine |
| FleetDb.LateInsertFails | fleet-server/crates/postgres-interface/src/node_store.rs:52-75 | over every run, an upsert that looked and found nothing fails at its unblocked insert if and only if an upsert of the machine was committed between look and insert, or the new id is taken |
| FleetDb.RacingEnrollmentLoses | fleet-server/crates/postgres-interface/src/node_store.rs:52-75 | in any state where two upserts of one machine both looked and found nothing, when one goes through the other fails at its insert and leaves nothing behind |
| FleetDb.HeartbeatsAreReported | fleet-server/crates/health-tracker/src/tracker.rs:34-45 | over every run, each health row repeats what an agent reported for that node, except that any word but healthy is recorded as degraded; so no agent can report itself isolated |
| FleetDb.SomeoneCanMove | fleet-server/crates/postgres-interface/src/node_store.rs:49-112 | no deadlock: whenever transactions are open, the next statement of one of them is not blocked, whatever id it would insert |
| FleetDb.AllCanFinish | fleet-server/crates/postgres-interface/src/health_store.rs:54-76 | from every reachable state the open transactions can all be ended by their own statements |
| FleetStore.PgStore.UpsertNode | fleet-server/crates/postgres-interface/src/node_store.rs:41-123 | alone, returns the machine's node with the new profile and one more audit row, touches no other node, and fails only on a taken id with nothing written |
| FleetStore.PgStore.RecordHeartbeat | fleet-server/crates/postgres-interface/src/health_store.rs:43-86 | alone, both writes happen or neither, the coerced status is set and nothing else of the row changes |
| FleetStore.PgStore.UpdateOperatorStatus | api-backend/src/repositories/node_repo.rs:123-141 | sets one node's operator status or reports it missing, and changes nothing else |
| FleetStore.SoloUpsert | fleet-server/crates/postgres-interface/src/node_store.rs:49-112 | the five statements of an upsert that runs alone add up to one commit, or to nothing when the id is taken |
| FleetStore.SoloHeartbeat | fleet-server/crates/postgres-interface/src/health_store.rs:54-76 | the four statements of a heartbeat that runs alone add up to one commit, or to nothing for an unknown node |
| AlertBatcher.BatcherTask | rule-engine/src/main.rs:160-217 | the task's loop computes the step-by-step run for every sequence of events |
| AlertBatcher.BatchesPartitionTheStream | rule-engine/src/main.rs:165-214 | batches sent followed by the buffer are the alerts received, in order; routine batches have size 1 to max(1, batch_max_size); the counter is the size of accepted batches apart from the one at channel close |
| AlertBatcher.NoAlertWaitsTwoIntervals | rule-engine/src/main.rs:181-213 | with timely timers and instant sends a non-empty buffer has its deadline before last_flush plus two intervals, so no alert waits two intervals in the buffer or in any batch |
| AlertBatcher.AnAlertCanWaitAlmostTwoIntervals | rule-engine/src/main.rs:203-213 | with room for three alerts in a batch, a timely run reaches one tick less than two intervals, for every interval |
| AlertBatcher.OneIntervalIsABoundIff | rule-engine/src/main.rs:165-214 | one interval bounds every wait in every timely run if and only if batch_max_size is at most two or the interval at most one tick |
| LogStore.InsertBatch | api-backend/src/repositories/log_repo.rs:75-90 | inserts row by row, keeping the existing row of an event id |
| LogStore.FirstWriteWins | api-backend/src/repositories/log_repo.rs:82-87 | an old row stays, and otherwise an id gets its first occurrence in the batch |
| LogStore.BatchingDoesNotMatter | api-backend/src/repositories/log_repo.rs:75-90 | any split of a stream into batches gives the table of the stream inserted at once |
| LogStore.RedeliveryDoesNotMatter | api-backend/src/repositories/log_repo.rs:82-87 | delivering an event id again, however late and whatever its content, leaves the final table unchanged |
| LogStore.Worker | api-backend/src/kafka/consumer.rs:55-97 | the worker's loop computes the step-by-step run for every sequence of events |
| LogStore.WorkerAccounts | api-backend/src/kafka/consumer.rs:59-95 | batches of 1 to 50 carry the received logs in order, and the table is the first-write-wins map of those whose insert succeeded |
| LogStore.ScheduleDoesNotMatter | api-backend/src/kafka/consumer.rs:59-95 | when all inserts succeed the table does not depend on how ticks and sizes cut the stream |
| DiffScheduler.BuildResult | agent/crates/osquery-client/src/scheduler.rs:230-247 | the columns of each built row convert back to the row, in order |
| DiffScheduler.ComputeDiff | agent/crates/osquery-client/src/diff.rs:36-52 | exactly the set differences in both directions, each row once |
| DiffScheduler.EmissionUpdatesTable | agent/crates/osquery-client/src/scheduler.rs:183-223 | replaying what one tick emits turns the previous table into the new one, in either mode |
| DiffScheduler.SilentIffSameRows | agent/crates/osquery-client/src/scheduler.rs:206-222 | a differential tick is silent exactly when the set of rows is the same |
| DiffScheduler.ResultsOf | agent/crates/osquery-client/src/scheduler.rs:183-223 | a snapshot, or additions and then removals, each only when not empty |
| DiffScheduler.QueryTask | agent/crates/osquery-client/src/scheduler.rs:154-225 | after every completed tick the replayed stream is the table of the latest successful tick, through errors and non-zero codes, until the channel closes |
| DiffScheduler.ConsumerHoldsTheTable | agent/crates/osquery-client/src/scheduler.rs:154-225 | the same for one query among many tasks that interleave on the shared channel |
| DiffScheduler.LastIsLatest | agent/crates/osquery-client/src/scheduler.rs:158-180 | the table a task compares with is the answer of its latest successful tick in the run |
| OfflineBuffer.EventBuffer.Push | agent/crates/event-buffer/src/lib.rs:44-69 | appends under the next id and keeps the newest rows up to the capacity, one step of the FIFO; fails only when the ids are used up |
| OfflineBuffer.EventBuffer.Drain | agent/crates/event-buffer/src/lib.rs:73-106 | returns and removes the oldest min(batch, len) rows in order, one step of the FIFO |
| OfflineBuffer.PushKeepsNewest | agent/crates/event-buffer/src/lib.rs:55-63 | counting and deleting by id in 64-bit arithmetic keeps exactly the newest rows |
| OfflineBuffer.BoundHoldsIffSigned | agent/crates/event-buffer/src/lib.rs:57-58 | the configured bound is met if and only if it fits a signed 64-bit integer; otherwise a push empties the table |
| OfflineBuffer.BufferIsFifo | agent/crates/event-buffer/src/lib.rs:44-106 | under any pushes and drains the rows removed are a prefix of all rows ever inserted, the rows kept are the rest, and they never exceed the capacity; the class keeps this as its invariant |
| DrainLoop.SendEvents | agent/crates/fleet-client/src/lib.rs:149-196 | sends a prefix of the batch in order, the whole of it exactly when it is accepted; without a connection nothing |
| DrainLoop.EventsAreConserved | agent/crates/agent-bin/src/main.rs:246-284 | over every run, collected events are the accepted, the discarded unparsed, the evicted, and those buffered or in hand, as multisets |
| DrainLoop.TwiceOnlyAfterFailure | agent/crates/agent-bin/src/main.rs:262-279 | an event enters the outbound channel more often than it was collected, so twice if collected once, only if a batch that held it failed |
| DrainLoop.DrainTick | agent/crates/agent-bin/src/main.rs:250-281 | one turn on the real buffer is the machine's turn: an accepted batch is gone, a failed one stands whole behind the younger events, an all-unparsable one is dropped |
| DrainLoop.QuietTick | agent/crates/agent-bin/src/main.rs:250-281 | the machine's turn without interference rotates a failed batch behind the younger events, removes any other, and evicts nothing |
| DrainLoop.RunIsBuffer | agent/crates/agent-bin/src/main.rs:250-281 | every run of the machine is a run of the event buffer, payload by payload and eviction by eviction, so conservation holds of the real table |
| DrainLoop.RequeueBatch | agent/crates/agent-bin/src/main.rs:269-278 | pushing a failed batch back event by event is the machine's re-queue |
| ConfigEditor.SaveNodeId | agent/crates/agent-bin/src/main.rs:35-62 | the flag-and-break loop computes the edit of the lines and joins them |
| ConfigEditor.LastSaveWins | agent/crates/agent-bin/src/main.rs:39-59 | saving a and then b gives the lines of saving b alone, and so saving twice changes nothing |
| ConfigEditor.AtMostOneLine | agent/crates/agent-bin/src/main.rs:41-59 | one line is replaced, which began with node_id, or one is added; all others stay in place, and without an [agent] line all do |
| ConfigEditor.LinesOfJoin | agent/crates/agent-bin/src/main.rs:37-60 | written lines read back as themselves if and only if the last is not empty and no earlier one ends in a carriage return |
| ConfigEditor.SaveSurvives | agent/crates/agent-bin/src/main.rs:36-61 | what is written reads back as the edited lines if and only if the lines read have no carriage return before the saved line and survive behind it; and the last save wins on the whole text exactly then, or for a file of one blank line |
| ConfigEditor.BlankLastLineIsLost | agent/crates/agent-bin/src/main.rs:37-60 | a blank last line disappears when the written file is read again |
| ConfigReadBack.ReadBackIff | agent/crates/agent-bin/src/main.rs:43-59 | every saved id is the one id read from the [agent] table if and only if the save point lies in that table and nothing else there sets it |
| ConfigReadBack.PlainConfigIsReadBack | agent/crates/agent-bin/src/main.rs:43-59 | one [agent] table whose header has no comment, with unindented keys of that name and next header: any saved id is read back, whatever the other tables hold |
| ConfigReadBack.IndentedHeaderTakesTheId | agent/crates/agent-bin/src/main.rs:53-59 | the editor does not see an indented header, so the id lands in the next table |
| ScanBuffer.ExtractScannableBuffer | rule-engine/src/engine/scanner.rs:36-67 | the text is every scannable string and a newline, in order; the serialized payload only when there is none |
| ScanBuffer.ScanObject | rule-engine/src/engine/scanner.rs:9-32 | appends the string values of the fifteen keys in the order of the list |
| ScanBuffer.SplitRecoversIff | rule-engine/src/engine/scanner.rs:27-29 | splitting on newlines gives the strings back if and only if none holds a newline |
| ScanBuffer.ResultIsScanned | rule-engine/src/engine/scanner.rs:36-58 | of an osquery result exactly the action name and then every column value of every row is scanned |
| ScanBuffer.EveryValueIsContiguous | rule-engine/src/engine/scanner.rs:47-52 | every column value of every row of a built result stands unbroken in the text |
| QueryCache.OneFetchPerKey | frontend/lib/cache.ts:58-86 | in every run that clears only while idle, each key has at most one outstanding fetch and the in-flight keys are exactly those with one |
| QueryCache.LateCallersJoin | frontend/lib/cache.ts:63-71 | while a fetch is under way every caller of its key gets the cached value or that fetch, never another |
| QueryCache.FetchesAreFinal | frontend/lib/cache.ts:73-82 | a fetch keeps its key, and settles once: all who hold it share the outcome |
| QueryCache.CachedValuesAreFresh | frontend/lib/cache.ts:27-32 | in every run a value given without fetching is not null and was stored for that key less than the time to live ago, neither replaced nor invalidated since |
| QueryCache.ClearKeepsSingleFlightIff | frontend/lib/cache.ts:53-56 | clearing keeps the in-flight map exact if and only if nothing is outstanding |
| QueryCache.SingleFlightRunIff | frontend/lib/cache.ts:53-86 | the in-flight map is exact at every point of a run if and only if each clear of the run happens while nothing is outstanding |
| QueryCache.ClearHoldsIff | frontend/lib/cache.ts:53-86 | after a clear, in every continuation up to the next, each key has at most one outstanding fetch, if and only if nothing was outstanding at the clear |
| QueryCache.ClearBreaksSingleFlight | frontend/lib/cache.ts:53-77 | a fetch outstanding across a clear forgets the newer one, and a third starts beside it |
| QueryCache.InvalidationHoldsIff | frontend/lib/cache.ts:41-82 | after a key is invalidated (or matched by a pattern, or cleared), in every continuation without a set of it its entry comes from a fetch started afterwards, if and only if no fetch of it was under way; while the in-flight map is exact, if and only if the key is not in it |
| QueryCache.QueryCache.FetchWithDedupe | frontend/lib/cache.ts:58-86 | replies and changes the maps as the run semantics says, for every state |
| QueryCache.QueryCache.OnSettled | frontend/lib/cache.ts:73-82 | the callbacks store a result and forget the key's fetch, or only forget it on an error |
| QueryCache.QueryCache.DropPattern | frontend/lib/cache.ts:45-51 | removes exactly the matching keys |

## Left out

- OsqueryClient.Query: classification of errors by their text is modelled as three outcomes, so a fatal error whose text happens to contain "EOF" (retried by the source) is not covered; connecting and writing to the socket are not modelled.
- ShardedDedup.ScannerLoop: the mutexes and a closed alert channel are not modelled; scans are arbitrary lists of alerts or failures, and YARA matching is not part of this model.
- FleetDb.MachinesHaveOneNode: pool failures, isolation levels other than READ COMMITTED, and deletes, which no modelled code issues, are not covered.
- AlertBatcher.NoAlertWaitsTwoIntervals: requires timely timers and instantaneous sends; nothing is claimed about alerts still in the channel when the batcher stops.
- LogStore.RedeliveryDoesNotMatter: the parsing of Kafka messages into rows, and the random event id given to a message without one, are not modelled, so two such deliveries count as two events.
- DiffScheduler.ComputeDiff: the row hash is not modelled, only the equality it must agree with; the order of a hash set is arbitrary.
- OfflineBuffer.EventBuffer.Drain: batch sizes beyond the signed 64-bit range, which the SQLite binding refuses, and database errors are not modelled.
- DrainLoop.EventsAreConserved: assumes that pushes to the buffer succeed; an event whose push fails is dropped by the source.
- DrainLoop.SendEvents: the fields copied from JSON into a protocol event are not modelled.
- ConfigReadBack.ReadBackIff: the reader knows bare keys and values on one line; multi-line values and quoted keys are outside it.
- ScanBuffer.ExtractScannableBuffer: strings are sequences of characters, not UTF-8 bytes; the newline is one of either.
- QueryCache.OneFetchPerKey: fetchers that call the cache again while starting are not modelled.
- Kafka, gRPC and WebSocket clients, connection pools and TLS; a channel is a sequence, a send succeeds or fails.
- Rule compilation, MITRE data and building of alerts; topic routing, log formats, metrics and backoff formulas: finite matches or one-line arithmetic.
- Login, tokens and enrollment secrets; nftables, systemd, preflight checks and installers.
- Dashboard pages, components and hooks other than the query cache.
- Order of events after shutdown: the batcher may stop while the scanner still drains its channel.
