# Event stores, pollers and codecs: a verified model

This project models the stateful core of a C++ event-store library and proves what it keeps and promises.

- **The PostgreSQL event store.** `AppendProtocol` is the stored procedure `mt_append_event` run by any number of
  concurrent transactions, one atomic statement at a time: it reads the stream version without a lock, draws a sequence
  value and inserts a row for each event, and writes the version back as an absolute value. Only the primary key and the
  two unique constraints of `mt_events` keep concurrent callers apart. `AppendRuns` is about every run of it,
  and `AppendOutcomes` says what committed calls leave and how rejected ones end. `AppendProcedure` is the procedure as it is
  written, on a database object. `PgEventStore` is the client: a buffer, `Append`, `Reset`, and `Save`, which groups the
  buffer by stream and sends one call for each group, with a failure possible at every call and other clients at work
  between the calls. `PgSaves` is about one `Save`, `PgRuns` about every run. `SqlText` is the statement `Save` prints.
- **The Mongo event store.** `MongoProtocol` interleaves any number of `SaveOne` clients over the three shared
  collections; `MongoStreams` says when a type keeps to one stream document and `MongoSnapshots` when that document is the
  newest; `MongoEventStore` is `SaveOne` as it is written and what serial saves leave; `MongoRaces` holds the races.
- **The Cassandra change poller.** `ResourcePoller` is the polling loop with its two tables and a producer.
- **Codecs and texts.** `Base64`, `Base64Alphabet`, `Base64Laws` and `LineBreaks` (section 4 of RFC 4648, section 2 of RFC 7468, section
  6.8 of RFC 2045), `Text` (`string_replace`, `split`, `join`), `LargeObjects` (chunked upload and download), `GroupBy`
  and `Events` (`groupBy`, `getMaxEvent`).
- **The WebSocket server** (`WebSocketServer`, with `Reassembly` for section 5.4 of RFC 6455) and **the container** that
  resolves dependencies (`SimpleContainer`).

Code that changes things in place is a class or a method with a loop, proved equal to a function of its inputs or of its
old state; the promises are lemmas about these functions and about every run of them.

## What turns out not to hold

Each of these is stated with the exact condition under which the code does meet the property.

- `mt_append_event` called without events breaks the version of its stream when another call commits between its read and
  its write. `AppendRuns.CommitKeepsInvIff` gives the condition for a commit, `AppendRuns.EmptyCallBreaksVersions`
  a run, and `GroupBy.GroupsAreNotEmpty` with `PgEventStore.PendingGroupsExist` shows that `Save` never makes such a call.
- A `Save` that fails after some streams were committed sends those streams again on the next attempt, under new ids:
  `PgRuns.StoredTwice` is such a run. `PgSaves.CommittedIff` says which streams a `Save` commits, from the faults its calls
  meet, and `PgRuns.StoredExactlyOnceIff` when an event is stored once.
- Dollar quoting is read back exactly for the items in which `$Q$` does not begin before the closing tag:
  `SqlText.StatementIff`. An item ending in `$Q` is already lost: `SqlText.HalfTagIsNotQuotable`.
- What is downloaded is what was uploaded exactly when there was no single quote: `LargeObjects.UploadThenDownload`.
- `base64_decode` stops at the first line feed, so of a broken text it returns the bytes of the first line only:
  `LineBreaks.DecodeOfBroken`. Its buffer suffices exactly when the input does not end in an unpadded quantum of two or three
  characters: `Base64.FitsIff`, and `Base64.UnpaddedOverruns` for a short input. The source notes beside `decoded_size` that
  the length must be a multiple of four, which is sufficient and not necessary; nothing checks it.
- The stream document is not always the newest event of its type, even without failures (`MongoRaces.SnapshotMayBeStale`):
  it is exactly when the last client to replace it was the last one to draw a version, `MongoSnapshots.UpToDateIff`.
- A type may get two stream documents, without failures (`MongoRaces.TypeMayHaveTwoStreams`) and through a failing find,
  which leads to a document under the empty id (`MongoRaces.FailedFindMayDouble`): `MongoStreams.OneAtTheEndIff` and
  `MongoStreams.AlwaysOnePerTypeIff` say exactly when it does not.
- The request line of a handshake loses its last word unless a space follows it: `WebSocketServer.RequestOfWords`.
- `GetInstance` ends exactly for types from which no dependency path meets a type twice: `SimpleContainer.EndsIff`.
- `join` and `split` undo each other exactly up to leading delimiters and one final delimiter: `Text.SplitOfJoin`,
  `Text.JoinOfSplit`.

## Model

| member | source | states |
|---|---|---|
| AppendRuns.Serializable | test/README.md:154-196 | after any interleaving of calls with at least one event each, the committed tables are those of the committed calls run one after the other in commit order |
| AppendRuns.VersionsGapFree | test/README.md:119-142 | after any such interleaving every stream's log carries exactly the versions 1 to mt_streams.version in order, and no two rows share a seq_id, an id or a (stream, version) |
| AppendRuns.CommittedCall | test/README.md:171-194 | a committed call returned its final version followed by strictly increasing sequence values that no other call, committed or aborted, ever drew; its rows stand in the log right after the old version, in call order |
| AppendOutcomes.CommittedRow | test/README.md:174-186 | row k of a committed call, field by field: its k-th sequence value, the k-th id, type and body, the stream, and the k-th version after the one it read |
| AppendOutcomes.StreamTypeIsTheFirst | test/README.md:164-192 | a stream exists if and only if a call for it has committed, and it keeps the type given by the first one |
| AppendRuns.ActionKeepsInv | test/README.md:154-196 | every statement, commit and rollback of every transaction keeps the protocol's invariant |
| AppendRuns.RunKeepsInv | test/README.md:154-196 | so does every run |
| AppendProtocol.FirstInsertIsFresh | test/README.md:183-186 | an insert that gets through proves that the version read is still the committed one |
| AppendRuns.CommitKeepsInvIff | test/README.md:192-194 | a commit keeps the invariant if and only if the call has an event or the version it read is still current; otherwise the versions are no longer gap free |
| AppendRuns.EmptyCallBreaksVersions | test/README.md:172-192 | a run with a call without events that leaves a stream whose version is below its number of events |
| AppendRuns.StaleNeverCommits | test/README.md:164-186 | a transaction that has read a version no longer current never commits, whatever happens next |
| AppendRuns.StaleInsertAborts | test/README.md:140-141 | its next insert is not blocked but hits a constraint and aborts |
| AppendRuns.StaleStaysStale | test/README.md:164-186 | no action of any transaction makes a stale one current again |
| AppendRuns.CallAloneCommits | test/README.md:154-196 | progress: an acceptable call that runs undisturbed commits with the serial effect and the documented return value |
| AppendOutcomes.CallAloneRejected | test/README.md:174-190 | a lone call whose event k is the first to fail, by a stored or repeated id, a sequence value above 2147483647 or a missing type or body, aborts with the tables as they were and exactly k + 1 sequence values drawn |
| AppendOutcomes.CallAloneTooLong | test/README.md:172 | a lone call whose final version would exceed 2147483647 aborts with nothing drawn |
| AppendRuns.InsertClashesIff | test/README.md:132-142 | an insert of an undisturbed call hits a constraint if and only if its event id is stored already or occurs earlier in the call |
| AppendProtocol.AppendKeepsGapFree | test/README.md:171-192 | the serial effect of a call keeps every stream gap free |
| AppendProtocol.AppendExtendsLog | test/README.md:174-192 | it extends the log of its own stream by the call's rows and leaves every other log and version alone |
| AppendProcedure.Database.AppendEvent | test/README.md:154-196 | the procedure replies if and only if the call is acceptable; then the tables change by the serial effect and the reply is the new version with consecutive sequence values; otherwise the tables stay, and the sequence has advanced by k + 1 if event k is the first rejected one and not at all if the final version does not fit. Values returned exceed every value ever drawn before |
| AppendProcedure.Database.InsertEvents | test/README.md:174-190 | the loop inserts row i under version old+i, or stops at the first row that cannot be inserted; the values drawn are consecutive and stay drawn |
| AppendProcedure.Database.InsertEvent | test/README.md:176-189 | one round of the loop: one sequence value is drawn, and the row is added unless it hits a constraint or overflows an integer |
| AppendProcedure.AppendKeepsTablesOk | test/README.md:119-142 | an acceptable call keeps gap-free versions, distinct keys and used-up sequence values |
| AppendProcedure.DrawnIs | test/README.md:172-176 | a call draws nothing if it is too long, and otherwise one value for each event up to the first rejected one |
| AppendProcedure.AloneAsProtocol | test/README.md:154-196 | the procedure run alone leaves the tables and the sequence that some steps of its transaction in the protocol leave, for every call, and commits exactly when it is acceptable |
| AppendProcedure.RepliesAreLater | test/README.md:128-129 | over every run of calls the sequence only grows, by each call's inserted or attempted events, so that later replies exceed all values drawn earlier, by rejected calls too |
| PgEventStore.EventStore.Append | store.events/src/eventstore.hpp:14-18 | the event is added at the end of the buffer, and nothing else changes |
| PgEventStore.EventStore.Reset | store.events/src/eventstore.hpp:24-26 | the buffer is empty |
| PgEventStore.EventStore.RunOthers | store.storage.pgsql/src/pg_eventstore.hpp:32-81 | the calls of other clients that the database handles in the meantime |
| PgEventStore.EventStore.Execute | store.storage.pgsql/src/pg_eventstore.hpp:35-77 | the call built from the group takes effect or not according to its fate, and Save stops with code 503, 400 or 500 on an error |
| PgEventStore.EventStore.Send | store.storage.pgsql/src/pg_eventstore.hpp:32-80 | one round of Save, after whatever other clients did |
| PgEventStore.EventStore.Save | store.storage.pgsql/src/pg_eventstore.hpp:28-87 | Save sends one call for each stream in stream order up to the first error, and empties the buffer if it returns 200 and leaves it whole otherwise |
| PgEventStore.PendingGroupsExist | store.storage.pgsql/src/pg_eventstore.hpp:29-32 | every group Save sends has an event |
| PgEventStore.CallFitsIff | store.storage.pgsql/src/pg_eventstore.hpp:35-57 | the database accepts a call of Save if and only if the sequence values and the versions it needs fit into 32-bit integers |
| PgSaves.CommittedIsPrefix | store.storage.pgsql/src/pg_eventstore.hpp:32-81 | the committed streams are a prefix of the streams in order, and all of them when Save returns 200 |
| PgSaves.CommittedIff | store.storage.pgsql/src/pg_eventstore.hpp:32-81 | a Save commits a stream if and only if the stream is buffered, every stream before it is answered and fits, and its own call does not fail before the database handles it and fits there, whatever other clients do in between |
| PgSaves.SaveSucceedsIff | store.storage.pgsql/src/pg_eventstore.hpp:83-86 | Save returns 200 if and only if every call is answered and fits |
| PgSaves.SaveCode | store.storage.pgsql/src/pg_eventstore.hpp:59-86 | Save returns 200 if every call works, and otherwise 503, 400 or 500 by what the first call that does not work met |
| PgSaves.SavedStreamType | store.storage.pgsql/src/pg_eventstore.hpp:43-45 | a Save never changes a stream's type, and a stream it creates undisturbed has the type of the first event buffered for it |
| PgSaves.UndisturbedCommitIff | store.storage.pgsql/src/pg_eventstore.hpp:32-81 | with no other client at work, the same condition read off the store and the buffer before the Save: group sizes, versions and fates |
| PgSaves.SaveStores | store.storage.pgsql/src/pg_eventstore.hpp:28-87 | one Save among other clients adds one own copy of each buffered event whose stream's call takes effect, and none otherwise |
| PgRuns.CopiesAreCommittedAttempts | store.storage.pgsql/src/pg_eventstore.hpp:28-87 | over every run among other clients, the copies of an event this client stored are its saves, while it was buffered, whose call for its stream took effect |
| PgRuns.Conservation | store.storage.pgsql/src/pg_eventstore.hpp:28-87 | over every run of Append, Reset and Save among other clients, stored plus buffered plus discarded equals appended plus what failing saves had stored |
| PgRuns.StoredExactlyOnceIff | store.storage.pgsql/src/pg_eventstore.hpp:59-86 | an event no longer buffered nor discarded is stored at least once, and exactly once if and only if every save that found it buffered either met no error at all or met one before the event's stream took effect |
| PgRuns.StoredTwice | store.storage.pgsql/src/pg_eventstore.hpp:59-77 | a run with one failing call that stores an event twice |
| PgSaves.SavedInBufferOrder | store.storage.pgsql/src/pg_eventstore.hpp:32-48 | a Save extends this client's part of the log of each committed stream by its buffered events in buffer order and leaves its part of every other log |
| PgRuns.SaveCallsAreAcceptableIff | store.storage.pgsql/src/pg_eventstore.hpp:35-57 | in every run among other clients, and after whatever they do next, a call of this client is accepted if and only if its numbers fit into 32 bits |
| PgRuns.RunKeepsIdsBelow | store.storage.pgsql/src/pg_eventstore.hpp:35 | every own event id stored was issued, so a fresh one is never stored already |
| SqlText.PrintListIsGlue | store.models/src/extensions.hpp:74-91 | join never skips a delimiter between wrapped items: the list is the wrapped items with commas between them |
| SqlText.ReadWrapped | store.models/src/extensions.hpp:87-91 | reading a wrapped item gives it back with what follows if it is quotable, and something else if it is not |
| SqlText.ReadPrintedItems | store.storage.pgsql/src/pg_eventstore.hpp:45-47 | a printed list followed by anything but a comma is read as exactly its items and what follows if every item is quotable, and never as its items if one is not |
| SqlText.ReadPrintedIff | store.storage.pgsql/src/pg_eventstore.hpp:35-48 | reading a printed non-empty list as dollar-quoted constants gives the list back if and only if every item is quotable |
| SqlText.HalfTagIsNotQuotable | store.models/src/extensions.hpp:87-91 | an item ending in `$Q` is not quotable |
| SqlText.DollarFreeIsQuotable | store.models/src/extensions.hpp:87-91 | an item without dollar signs is |
| SqlText.StatementIff | store.storage.pgsql/src/pg_eventstore.hpp:39-48 | the whole statement, with its stream, stream type and three arrays in their context, is read back as what was printed if and only if all of them are quotable |
| SqlText.StatementCarriesCall | store.storage.pgsql/src/pg_eventstore.hpp:35-48 | the statement for a group has one id, type and body for each event in order, and is read back exactly if and only if the stream and all types and bodies are quotable |
| SqlText.StatementText | store.storage.pgsql/src/pg_eventstore.hpp:39-48 | the printed text: the call of mt_append_event with stream, stream type and the three arrays with their casts, in this order |
| SqlText.FirstItemText | store.models/src/extensions.hpp:87-91 | a list of one item is the item between two tags |
| SqlText.MoreItemsText | store.models/src/extensions.hpp:74-91 | a further item is put before a list with a comma |
| MongoProtocol.NumbersAreUnique | store.storage.mongo/src/mongo_client.hpp:45-85 | in every interleaving with any failures, stored events with numbers have different sequence ids and different (type, version), and every number lies between 1 and its counter |
| MongoProtocol.RunKeepsInv | store.storage.mongo/src/mongo_client.hpp:45-138 | every action of every client keeps the invariant behind it |
| MongoProtocol.SnapshotsMatchEvents | store.storage.mongo/src/mongo_client.hpp:65-82 | when no insert fails, every stream document with a version matches a stored event of the same stream, type, version and data |
| MongoProtocol.ReplaceMatchesIff | store.storage.mongo/src/mongo_client.hpp:116-138 | a replaced document matches a stored event if and only if the client's insert took effect, whatever the client was told |
| MongoRaces.SnapshotMayBeStale | store.storage.mongo/src/mongo_client.hpp:51-82 | a failure-free run of two clients that ends with the document at version 1 and an event of version 2 |
| MongoRaces.TypeMayHaveTwoStreams | store.storage.mongo/src/mongo_base_client.hpp:176-204 | a failure-free run of two clients that leaves two stream documents of one type |
| MongoRaces.FailedFindMayDouble | store.storage.mongo/src/mongo_base_client.hpp:176-204 | a run with one failing find that leaves a second stream document of the type, under the empty id |
| MongoStreams.CreateKeepsOneIff | store.storage.mongo/src/mongo_base_client.hpp:195-199 | inserting a stream document keeps at most one per type if and only if the type has none at that moment |
| MongoStreams.ReplaceKeepsOneIff | store.storage.mongo/src/mongo_base_client.hpp:110-127 | replacing one keeps at most one per type, except under the empty id of a client whose find or insert failed: then if and only if the type has no document under a name |
| MongoStreams.StepKeepsOneIff | store.storage.mongo/src/mongo_client.hpp:45-138 | any step of any client keeps at most one document per type if and only if it is neither of these two |
| MongoStreams.AlwaysOnePerTypeIff | store.storage.mongo/src/mongo_client.hpp:45-138 | in every run with any failures there is never more than one document per type if and only if no step is one of the two |
| MongoStreams.OneAtTheEndIff | store.storage.mongo/src/mongo_client.hpp:45-138 | in every run without failures every type has at most one document at the end if and only if every document was created while its type had none |
| MongoStreams.FailedFindIsUnnamed | store.storage.mongo/src/mongo_base_client.hpp:184-203 | a client whose find fails goes on with the empty stream id |
| MongoStreams.UnnamedStaysUnnamed | store.storage.mongo/src/mongo_base_client.hpp:176-204 | a client that was told of no stream id stores its event and its document under the empty id |
| MongoSnapshots.ReplaceUpToDateIff | store.storage.mongo/src/mongo_client.hpp:116-138 | a document just replaced is at least as new as every stored event of its type if and only if the client's version is the greatest one stored |
| MongoSnapshots.UpToDateIff | store.storage.mongo/src/mongo_client.hpp:45-138 | in every run without failures in which all clients have finished, a stream document is at least as new as every event of its type if and only if the last client to replace it is the last one to draw a version of the type |
| MongoEventStore.EventStore.GetNextSequenceValue | store.storage.mongo/src/mongo_base_client.hpp:153-174 | the counter goes up by one and its new value is returned, or -1 when the caller sees an error; without a connection nothing is returned |
| MongoEventStore.EventStore.GetUid | store.storage.mongo/src/mongo_base_client.hpp:176-204 | the id of a document of the type if there is one, else a new document under the given id; the empty string when the caller sees an error, and nothing without a connection |
| MongoEventStore.EventStore.InsertOne | store.storage.mongo/src/mongo_base_client.hpp:90-103 | the event is added unless the insert fails, and the caller counts 1 only when it is told so |
| MongoEventStore.EventStore.UpsertOne | store.storage.mongo/src/mongo_base_client.hpp:110-127 | the document under the id is replaced, or created if there is none, as the upsert option asks |
| MongoEventStore.EventStore.SaveOne | store.storage.mongo/src/mongo_client.hpp:45-85 | SaveOne leaves what an uninterrupted client of the protocol leaves, for every combination of outcomes, and returns the number of successes, or nothing when a missing connection throws |
| MongoEventStore.StreamIdFound | store.storage.mongo/src/mongo_client.hpp:50-52 | for every combination of outcomes, which stream id a save works with and which document its getUid creates |
| MongoEventStore.SavedFromId | store.storage.mongo/src/mongo_client.hpp:54-84 | for every combination of outcomes, the counters all_events and of the type, the event inserted and the document replaced, field by field, with -1 for a number that failed, and the successes counted |
| MongoEventStore.ThrownEnds | store.storage.mongo/src/mongo_base_client.hpp:92-95 | a thrown string ends the save where it is |
| MongoEventStore.SaveAlone | store.storage.mongo/src/mongo_client.hpp:45-138 | a failure-free save adds one event, advances both counters and replaces the stream document |
| MongoEventStore.SerialSaves | store.storage.mongo/src/mongo_client.hpp:45-138 | after serial saves, event k has sequence id k+1, its type's running number as version and the saved data; the documents hold the number of saves and the last data of their type |
| MongoEventStore.TypeHasOneStream | store.storage.mongo/src/mongo_base_client.hpp:176-204 | after serial saves all events of a type share the id of the one document of that type |
| ResourcePoller.CaResourceManager.HandleGroup | store.storage.cassandra/src/ca_resource_manager.hpp:249-276 | of any group, a row with the greatest start time, handled |
| ResourcePoller.CaResourceManager.HandleLatest | store.storage.cassandra/src/ca_resource_manager.hpp:247-280 | the records of any batch: for each id in id order a row with the greatest start time, handled |
| ResourcePoller.CaResourceManager.FetchNextTasks | store.storage.cassandra/src/ca_resource_manager.hpp:221-333 | a poll adds the records of the oldest rows above the newest processed row, up to the limit; a failing read or write leaves the table as it was |
| ResourcePoller.RecordsInGrowingRows | store.storage.cassandra/src/ca_resource_manager.hpp:247-280 | when start times grow with the uids these are the last fetched rows of the ids, handled |
| ResourcePoller.FetchedAre | store.storage.cassandra/src/ca_resource_manager.hpp:199-205 | a poll fetches at most the limit of rows above the cursor, the oldest ones, and all of them if there are fewer |
| ResourcePoller.CursorIs | store.storage.cassandra/src/ca_resource_manager.hpp:391-405 | a poll starts at the greatest processed uid, or at the default if nothing is processed |
| ResourcePoller.NothingTwiceNothingMissed | store.storage.cassandra/src/ca_resource_manager.hpp:191-333 | over every run and for any limit, no row is recorded twice, every record is that of a modified row, and every modified row between the start and the cursor has a record of its id at least as new |
| ResourcePoller.RunKeepsInv | store.storage.cassandra/src/ca_resource_manager.hpp:191-333 | every step of producer and poller keeps the invariant behind it |
| ResourcePoller.DrainedMeansNewestProcessed | store.storage.cassandra/src/ca_resource_manager.hpp:191-333 | once nothing is left above the cursor, the newest row of every id above the starting cursor has been processed |
| ResourcePoller.CursorIncreases | store.storage.cassandra/src/ca_resource_manager.hpp:191-205 | a poll without fault moves the cursor up as long as rows wait above it |
| ResourcePoller.OneRowAtATime | store.storage.cassandra/src/ca_resource_manager.hpp:191-333 | with the limit of one row the processed table is exactly the handled modified rows above the starting cursor, in uid order and without a hole |
| ResourcePoller.BatchIsRecorded | store.storage.cassandra/src/ca_resource_manager.hpp:247-280 | the records of a batch have different uids, stem from its rows and cover every one of them |
| GroupBy.GroupBy | store.common/src/group_by.hpp:97-108 | the loop builds the nested grouping |
| GroupBy.PutExtendsGrouping | store.common/src/group_by.hpp:80-90 | putting one element at any depth turns the grouping of a list into that of the list with the element at its end |
| GroupBy.KeysAreTheKeyValues | store.common/src/group_by.hpp:97-108 | the keys are exactly the distinct key values, in ascending order |
| GroupBy.GroupAt | store.common/src/group_by.hpp:80-84 | group i holds the elements with key i in input order |
| GroupBy.GroupsPartition | store.common/src/group_by.hpp:97-108 | the groups together are a permutation of the input |
| GroupBy.GroupsAreNotEmpty | store.common/src/group_by.hpp:80-84 | no group is empty |
| GroupBy.GroupingIsNested | store.common/src/group_by.hpp:86-90 | grouping by several functions is grouping each group again by the rest |
| GroupBy.SelectFromFront | store.common/src/group_by.hpp:80-84 | a group keeps the input order |
| GroupBy.LessIff | store.common/src/group_by.hpp:65-71 | the order of keys: a proper prefix comes first, otherwise the text with the smaller character at the first difference |
| Events.Latest | store.events/src/event.hpp:63-71 | the fold returns the first event with the greatest sequence id, or the base if none is above -1 |
| Events.GetMaxEvent | store.events/src/event.hpp:55-77 | one event is reported for each data id; for sequence ids of at least 0, for every `data.id` of the input, a missing one counting as the empty text, exactly one event, the first one with that id and the greatest sequence id |
| Events.LatestByDataId | store.events/src/event.hpp:55-77 | for sequence ids of at least 0 the result holds, in ascending order of data id, for every data id the first event with the greatest sequence id |
| Events.ReportedOnePerId | store.events/src/event.hpp:58-74 | the same told by the fields of the events |
| Events.DifferentIdsApart | store.events/src/event.hpp:58 | events whose `data.id` texts differ are never reported by one event |
| Text.StringReplace | store.models/src/extensions.hpp:217-225 | the in-place loop ends for every input, also when the new text contains the old one, and leaves the text with the pieces between leftmost occurrences glued by the new text |
| Text.ReplacedMeaning | store.models/src/extensions.hpp:217-225 | these pieces are cut at the leftmost non-overlapping occurrences of the original, and the length changes by the difference for each of them |
| Text.PiecesAreLeftmost | store.models/src/extensions.hpp:221 | each piece ends where the first occurrence after its start begins, the last holds none, and glued they are the original |
| Text.LeftmostCutIsUnique | store.models/src/extensions.hpp:221 | there is only one such cut |
| Text.ReplaceBack | store.models/src/extensions.hpp:217-225 | replacing back restores the text if the new text first occurs at the end of each piece it is put behind, and not at all in the last one |
| Text.Split | store.models/src/extensions.hpp:132-140 | the getline loop returns the pieces without a final empty one |
| Text.SplitMeaning | store.models/src/extensions.hpp:132-140 | no token holds the delimiter, and with delimiters between them, and behind the last one if the text ends in one, the tokens are the text |
| Text.Join | store.models/src/extensions.hpp:74-85 | the loop joins the tokens, leaving out the delimiter while the result is empty |
| Text.JoinedDropsLeadingEmpty | store.models/src/extensions.hpp:80-82 | which amounts to dropping the leading empty tokens |
| Text.SplitOfJoin | store.models/src/extensions.hpp:74-140 | for delimiter-free tokens split undoes join if and only if the first and last token are not empty |
| Text.JoinOfSplit | store.models/src/extensions.hpp:74-140 | for every text, join after split gives the text without its leading delimiters and one final delimiter |
| LargeObjects.LargeObject.Write | store.storage.pgsql/src/pg_largeobject.hpp:69 | a write at the end of the object extends it by the text, a failing one changes nothing |
| LargeObjects.LargeObject.Read | store.storage.pgsql/src/pg_largeobject.hpp:143 | a read returns the next characters, at least one unless the end is reached, and moves the position behind them |
| LargeObjects.Upload | store.storage.pgsql/src/pg_largeobject.hpp:59-78 | the object holds the quote-doubled image of the data written, wherever the chunk boundaries fall; a failing write ends it after whole chunks, and one that fails on the server leaves no object at all |
| LargeObjects.WholeChunks | store.storage.pgsql/src/pg_largeobject.hpp:62-73 | what is written are chunks of 32768 characters up to the first one whose write fails, or everything |
| LargeObjects.Download | store.storage.pgsql/src/pg_largeobject.hpp:135-144 | any sequence of short reads reassembles the content exactly, and a read error leaves a prefix |
| LargeObjects.DoubledConcat | store.storage.pgsql/src/pg_largeobject.hpp:65-67 | doubling works piece by piece |
| LargeObjects.DoubledIsReplaced | store.storage.pgsql/src/pg_largeobject.hpp:67 | it is the leftmost replacement of a quote by two |
| LargeObjects.DoubledInjective | store.storage.pgsql/src/pg_largeobject.hpp:67 | different data are stored differently |
| LargeObjects.UploadThenDownload | store.storage.pgsql/src/pg_largeobject.hpp:40-158 | after an undisturbed upload the download gives the doubled image, and it is the data if and only if they hold no single quote; with faults it gives a prefix of the image of what was written |
| Base64.TablesAreInverse | store.common/src/base64.hpp:49-80 | the two tables undo each other, and padding and line feed are outside the alphabet |
| Base64Alphabet.AlphabetAt | store.common/src/base64.hpp:49-55 | sextet v is spelled by character v of the alphabet |
| Base64Alphabet.PlaceInAlphabet | store.common/src/base64.hpp:57-80 | the inverse table gives the place of a character in the alphabet, or -1 |
| Base64.Encode | store.common/src/base64.hpp:112-150 | encode writes exactly the encoding, encoded_size(n) characters, and no cell behind it |
| Base64.EncodeTail | store.common/src/base64.hpp:129-147 | the last one or two bytes become a padded quantum |
| Base64.Base64Encode | store.common/src/base64.hpp:210-227 | the encoding of every byte string |
| Base64Alphabet.ThreeBytes | store.common/src/base64.hpp:120-127 | three bytes become the four base-64 digits of their 24-bit value, from the top, spelled in the alphabet |
| Base64Alphabet.TwoBytes | store.common/src/base64.hpp:131-136 | two bytes become the first three digits and a padding character |
| Base64Alphabet.OneByte | store.common/src/base64.hpp:138-143 | one byte becomes the first two digits and two padding characters |
| Base64Alphabet.GroupByGroup | store.common/src/base64.hpp:120-127 | longer inputs are encoded three bytes at a time |
| Base64Alphabet.ManIsTWFu | store.common/src/base64.hpp:112-150 | the bytes of `Man` are encoded as `TWFu` |
| Base64.Decode | store.common/src/base64.hpp:163-206 | on arbitrary input decode reads exactly the longest prefix of v alphabet characters and writes exactly the 3*(v/4) + max(0, v%4-1) bytes they stand for, whatever the four-cell buffer held |
| Base64Alphabet.DecodedPlaces | store.common/src/base64.hpp:175-180 | decoded are the places in the alphabet of the characters up to the first one outside it |
| Base64Alphabet.QuantumBytes | store.common/src/base64.hpp:182-202 | up to four sextets stand for the leading bytes of their 24-bit value, one fewer than there are sextets |
| Base64Alphabet.QuantumByQuantum | store.common/src/base64.hpp:182-191 | longer inputs are decoded four sextets at a time |
| Base64.StaleCellsDoNotShow | store.common/src/base64.hpp:194-201 | the bytes of a partial quantum depend on its own characters only |
| Base64.BytesLength | store.common/src/base64.hpp:175-202 | the number of bytes v characters stand for |
| Base64.FitsIff | store.common/src/base64.hpp:91-98 | the bytes fit into decoded_size(len) if and only if the input does not end in an unpadded quantum of two or three alphabet characters; always when len is a multiple of 4 |
| Base64.UnpaddedOverruns | store.common/src/base64.hpp:91-98 | two characters without padding stand for one byte, for which decoded_size has no room |
| Base64.Base64Decode | store.common/src/base64.hpp:262-272 | the decoded bytes, or nothing exactly when they do not fit the string that was sized for them |
| Base64Laws.DecodeOfEncode | store.common/src/base64.hpp:112-272 | decoding an encoding gives the bytes back and fits the buffer, for every byte string |
| Base64Laws.RoundTrip | store.common/src/base64.hpp:221-272 | base64_decode after base64_encode returns its argument |
| Base64Laws.EncodedIsCanonical | store.common/src/base64.hpp:112-150 | every encoding is canonical in the sense of section 3.5 of RFC 4648 |
| Base64Laws.EncodeOfDecodeIff | store.common/src/base64.hpp:112-272 | encoding a decoded text gives the text back if and only if it is canonical |
| Base64Laws.StrToHex | store.models/src/extensions.hpp:202-208 | the loop writes two lower-case digits for each byte |
| Base64Laws.UpperCaseOfHex | store.models/src/extensions.hpp:210-213 | their upper case is the upper-case spelling |
| Base64Laws.HexAt | store.models/src/extensions.hpp:202-208 | characters 2i and 2i+1 spell the high and the low half of byte i |
| Base64Laws.Base64ToHex | store.models/src/extensions.hpp:210-213 | the upper-case hexadecimal form of the decoded bytes when they fit; of an encoding, that of its bytes |
| LineBreaks.InsertLinebreaks | store.common/src/base64.hpp:229-245 | the in-place loop ends although the text grows, and leaves the lines with feeds between them |
| LineBreaks.LinesAreEven | store.common/src/base64.hpp:237-242 | every line but the last has exactly the given length, the last one is not empty and no longer, and without the feeds the lines are the text |
| LineBreaks.LinesAreThePieces | store.common/src/base64.hpp:229-245 | cutting the broken text at its feeds gives these lines, for a text without feeds |
| LineBreaks.DecodeOfBroken | store.common/src/base64.hpp:247-272 | decoding a broken encoding gives the bytes of its first line |
| LineBreaks.Base64EncodePem | store.common/src/base64.hpp:252-255 | lines of 64 characters, of which base64_decode returns the first 48 bytes |
| LineBreaks.Base64EncodeMime | store.common/src/base64.hpp:257-260 | lines of 76 characters, of which base64_decode returns the first 57 bytes |
| Reassembly.Receive | store.servers/src/rs256-secure-ws-server.hpp:62-69 | keeping the begun message is enough: one more frame completes it or extends it |
| Reassembly.NoPayloadIsLost | store.servers/src/rs256-secure-ws-server.hpp:62-69 | the messages and the begun rest hold every payload, in order and once |
| Reassembly.OneMessagePerFinal | store.servers/src/rs256-secure-ws-server.hpp:66-69 | there is one message for each final frame |
| Reassembly.FragmentedMessagesArrive | store.servers/src/rs256-secure-ws-server.hpp:62-69 | messages sent in any fragments arrive as they were sent, and the fragments of an unfinished one wait |
| WebSocketServer.User.ParseWebRequestLine | store.servers/src/rs256-secure-ws-server.hpp:99-133 | the index loop sets method, path and version from the words that a space ends and keeps the others; an empty request changes nothing |
| WebSocketServer.RequestOfWords | store.servers/src/rs256-secure-ws-server.hpp:103-130 | for every request, spelled as words without spaces, which words become method, path and version |
| WebSocketServer.EveryRequestIsWords | store.servers/src/rs256-secure-ws-server.hpp:103-116 | every request is spelled so |
| WebSocketServer.Server.ParseQuerystring | store.servers/src/rs256-secure-ws-server.hpp:80-97 | the first access token of the query decides |
| WebSocketServer.Server.Listen | store.servers/src/ws-server.hpp:95-116 | a new user with an invalid session is listed last |
| WebSocketServer.Server.OnHandshake | store.servers/src/rs256-secure-ws-server.hpp:22-40 | the request is taken over, and the session opens only with a valid token whose header and payload are objects |
| WebSocketServer.Server.OnFrameReceived | store.servers/src/rs256-secure-ws-server.hpp:53-70 | without a session the client is refused and nothing else changes; with one the payload is appended, and a final frame delivers and clears the message |
| WebSocketServer.Server.OnFrameWritten | store.servers/src/rs256-secure-ws-server.hpp:43-50 | a user without a session is disconnected |
| WebSocketServer.Server.Disconnect | store.servers/src/ws-server.hpp:77-88 | the first entry of the user is erased from the list and the user destroyed |
| WebSocketServer.Server.OnClose | store.servers/src/ws-server.hpp:90-93 | a closed connection disconnects its user |
| WebSocketServer.DeliveryIsReassembly | store.servers/src/rs256-secure-ws-server.hpp:53-70 | over every run, a user's delivered messages are the reassembly of the frames it sent once admitted, one at each final frame, and with its buffer they hold all their payloads |
| WebSocketServer.SessionValidIff | store.servers/src/rs256-secure-ws-server.hpp:22-36 | over every run the session of a user is valid if and only if, in some handshake of the user, the query held an access token and the first one was valid with objects for header and payload |
| WebSocketServer.BadTokenKeepsSession | store.servers/src/rs256-secure-ws-server.hpp:30-31 | a handshake without such a token, an expired one for instance, leaves the session as it was |
| WebSocketServer.SessionOfLastToken | store.servers/src/session.hpp:23-36 | after the last handshake that opened it, the session holds the sid of that token's header and the user and expiry of its payload |
| WebSocketServer.PathIs | store.servers/src/rs256-secure-ws-server.hpp:117-130 | the path in which the token is looked for is the second word of the user's last handshake that had one |
| WebSocketServer.AdmittedIff | store.servers/src/rs256-secure-ws-server.hpp:53-60 | a user is admitted by exactly such a handshake |
| WebSocketServer.NothingWithoutToken | store.servers/src/rs256-secure-ws-server.hpp:22-60 | the session is valid if and only if the user was admitted, and nothing is delivered before |
| WebSocketServer.TakenOrRefused | store.servers/src/rs256-secure-ws-server.hpp:56-60 | every frame is either taken or answered with a refusal |
| WebSocketServer.ListedIff | store.servers/src/ws-server.hpp:77-109 | the list has no duplicates and holds exactly the users that connected and were not dropped, by closing or by being written to before they were admitted |
| SimpleContainer.EndsIff | store.models/src/ioc/simple_container.hpp:67-90 | resolving a type ends, within as many nested creator calls as there are creators, if and only if no dependency path from it, cut at types with an instance, meets a type twice |
| SimpleContainer.CycleNeverEnds | store.models/src/ioc/simple_container.hpp:67-90 | resolving a type on a dependency cycle does not end within any number of calls |
| SimpleContainer.IOCContainer.GetInstance | store.models/src/ioc/simple_container.hpp:76-90 | whenever resolving ends: a registered instance is returned itself, also when the type has a creator; a type without registration is null; and any other type is a new object with an argument for each dependency, resolved in the same way, where every node built is a new object used once |
| SimpleContainer.IOCContainer.BuildArgs | store.models/src/ioc/simple_container.hpp:67-74 | the arguments of a creator, each built from objects made for it alone |
| SimpleContainer.OneObjectPerNode | store.models/src/ioc/simple_container.hpp:67-90 | one object is made for each node of the unfolded dependency tree |
| SimpleContainer.MatchingResolves | store.models/src/ioc/simple_container.hpp:76-90 | being of the shape of the tree means: the registered instance if there is one, null without a creator, otherwise an object of the type with one argument for each dependency, which resolves it in the same way |
| SimpleContainer.UnfoldIsUnique | store.models/src/ioc/simple_container.hpp:76-90 | the tree depends on the registrations only |
| SimpleContainer.IOCContainer.RegisterSingletonClass | store.models/src/ioc/simple_container.hpp:40-46 | the type is built once, as a new graph of the shape of its dependency tree with every node used once, and registered as the instance |
| SimpleContainer.IOCContainer.RegisterInstance | store.models/src/ioc/simple_container.hpp:48-54 | the instance replaces any earlier one of its type |
| SimpleContainer.IOCContainer.RegisterClass | store.models/src/ioc/simple_container.hpp:67-74 | the creator and its dependencies are stored; nothing is built yet |
| SimpleContainer.IOCContainer.RegisterInstanceWithKey | store.models/src/ioc/simple_container.hpp:59-65 | the instance is stored under type and key |
| SimpleContainer.IOCContainer.InstanceWithKeyExist | store.models/src/ioc/simple_container.hpp:124-134 | whether an instance is stored under type and key |
| SimpleContainer.IOCContainer.GetInstanceWithKey | store.models/src/ioc/simple_container.hpp:92-117 | the instance stored under type and key, or null |
| SimpleContainer.LastInstanceWins | store.models/src/ioc/simple_container.hpp:40-90 | over every run a type has an instance if and only if one was registered, and it is the last one, whatever creators were registered |
| SimpleContainer.LastCreatorHeld | store.models/src/ioc/simple_container.hpp:67-74 | over every run a type has a creator if and only if one was registered, with the dependencies registered last |
| SimpleContainer.ResolvedAfterRun | store.models/src/ioc/simple_container.hpp:40-90 | after every run what is resolved for a type is the last instance registered, else an object over the last dependencies registered, else null |
| SimpleContainer.KeyedLookup | store.models/src/ioc/simple_container.hpp:36-117 | over every run the creators with key stay empty, type and key are occupied if and only if an instance was registered under them, and a keyed lookup gives the last one |

## Left out

- Isolation levels other than READ COMMITTED, and deadlock detection as a mechanism: any transaction may be rolled back at any time, which covers its effect.
- Deletion of streams (`ON DELETE CASCADE`), timestamps, the `snapshot` columns and the length limit of `varchar(100)`; no operation of the core uses them.
- PgEventStore.EventStore.Execute: how an error text is told apart from a lost connection by its beginning is a flag of the error. A connection borrowed for a failing call is not given back to the pool in the source; the pool is not modelled.
- PgEventStore.EventStore.Save: other clients act between the calls of a Save as whole calls; statements of different transactions interleave in `AppendProtocol`, and `AppendRuns.Serializable` shows that committed calls amount to whole ones.
- SqlText.StatementCarriesCall: the formatted statement around the arrays goes through C strings in the source, so an item with a NUL character ends early; characters are not told apart that way here.
- `LastExecution` and `Search`: their queries are single statements of the database; `Search` has no ordering, so no completeness is claimed.
- ResourcePoller.CaResourceManager.HandleGroup: sorting is a library call; the model takes any row that a sort by falling start time may put first.
- ResourcePoller.NothingTwiceNothingMissed: growing uids and start times of modified rows and a handler that keeps id and uid are hypotheses of the runs; that the tables are read in uid order (newest processed first, oldest modified first) is how they are clustered. A row that arrives between the two reads of a poll is seen by that poll as if it had come before.
- `CaResourceManager.run`: the endless loop with its pause is a sequence of polls.
- LargeObjects.Upload: opening and closing the object, and errors thrown by the connection, are left out; failing writes and reads are inputs.
- Base64.Base64Decode: what the source makes of a string it has overrun is undefined in C++, and is no result here.
- LineBreaks.InsertLinebreaks: a distance of 0, for which the source's loop does not end, is excluded.
- `trim`, `ltrim`, `rtrim`, `strip_unicode` and the JSON conversions: short library calls with little to prove.
- WebSocketServer.Server.OnHandshake: query parsing, token verification and JSON decoding are inputs (`Config`); an exception from a JSON field of the wrong type is not modelled.
- WebSocketServer.Server.OnFrameReceived: the message handler given by the application is an entry in the server's log; what it does is not modelled.
- WebSocketServer.Server.Disconnect: that the library makes no callback for a freed connection is a hypothesis of the runs; an address used again by a later connection is a new user.
- SimpleContainer.IOCContainer.GetInstance: dynamic casts and type names are exact types; a constructor does nothing but keep its arguments.
- The SQL Server notifier, the HTTP servers, process execution, the Kudu and Redis clients and the build scripts: foreign protocols and input/output.
