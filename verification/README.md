# A verified model of the vector database

The server keeps documents (a vector and some integer fields per id) in a scalar store, indexes the vectors in a
FLAT list and an HNSW map and the integer fields in bitmaps, replicates every upsert through a Raft log, writes it
to a write-ahead log (WAL) first, and takes snapshots of the indexes. This project models four parts of it and
proves what they promise. Where the code falls short of a promise, the project proves the exact condition under
which the promise holds and gives a run or an input on which it fails.

**Durable state and recovery.** `Durability` says what one upsert does to the scalar store and the three indexes, and
what replaying the WAL does; `Settledness` and `ReplayTheory` say what holds of a state that a part of the WAL has
still to reach, and what replay makes of it. `RecoveryRuns` is the server as a state machine: start, replay step by
step, serve, append, write_at, apply_pack, compact, the parts of a commit (removal of the old vector, insertion of
the new one, the fields, the scalar store), the five file operations of a snapshot, which may fall between these parts
and between those of other snapshots, and a crash at any point, also inside a snapshot or a replay. The main theorems
of `RecoveryTheorems` are about every run: when a reload finishes, when it is last-writer-wins in the documents and
labels, and when in the FLAT list, each as an if-and-only-if about the disk it starts from. Invariants give sufficient
conditions for their right-hand sides: ids and filter shapes hold in every run; documents, labels, bitmaps and the
newest FLAT vector of each id in every run that commits logged entries only; the whole FLAT list (`FlatListRuns`) in
every such run in which no earlier reload doubled a vector, in particular if no snapshot saves the list inside a
commit. They say that a state is *settled from position p* of the WAL: every id that no record from p on touches
already is as the whole log says. The disk is settled from the first record the snapshot does not claim, a reload from
the record it reads next, a running server from the start of its epoch. `ShortfallRuns` holds the runs in which a
condition fails. `TextFormats`, `FilterDump` and `TextReplay` go down to the bytes of the two text files, `SavedFiles`
is the reload from those bytes, and `RecoveryFromFiles` joins both: the recovery theorems about what a new process
makes of the files it finds, on the condition that the files are legible: nothing in them gets in the way of the text
formats. `TornLines` is the reload of a log whose last line a crash has cut off. `SearchAfterRecovery` joins recovery
with the search. `Persistence`, `FilterIndex`, `VectorDatabase` and `LogStateMachine` are the classes of the program,
proved method by method against these functions, from log lines and dumped bitmaps on.

**The Raft log store.** `LogStore` holds the operations on (start index, map of entries) and their meaning on
(base, sequence of entries); `InMemLogStore` is the class.

**Ordered scan and bounded heap.** `ScalarScan`, `TopK`, and the filtered FLAT search in `Search`.

**Parsers and the log ring.** `MultipartBody`, `ChunkedCoding`, `PercentCoding`, `QueryString`, `QueryKeys`,
`QueryReading` and `Base64` model the corresponding parts of `httplib.h`. `LogRing`, `LogRingInvariant`,
`LogRingTheorems` and `LogRingFifo` are the logger's ring of slots as interleaved atomic steps of any number of
threads, and of one; `RingFifo` is the same ring as a class, for whole calls one after the other.

The laws come in two sorts: those that tie an operation to its counterpart (round trips, invariants, what a reload
makes of what a run has left), and those that say in numbers, characters and positions what one operation does to any
input, whoever made it, so that the counterparts cannot be wrong together. `Numerals` and `KeyOrder` hold the few
notions the latter need.

What the proofs found out about the code, all stated as lemmas below:

- A bitmap {10} contains a newline byte, and the saved filter index then cannot be loaded: one document with the id 10,
  committed, and a snapshot, and the server does not start again (`IdTenStopsTheServer`). A request body whose
  second line does not start with a number does the same (`NewlineInBodyStopsTheServer`), and a '|' in a document silently truncates it
  (`BarInPayloadTruncates`).
- A value that changes after a snapshot of a later epoch leaves a stale bit in the filter after reload, for good
  (`StaleBitSurvivesReload`); the bitmaps are exact if and only if the saved bits are accounted for
  (`FilterAfterRecovery`).
- An upsert that brings an integer field which the stored document of its id lacks trips an assertion, and since it is
  in the WAL by then, no reload gets past it: after one such request the server never serves again
  (`AddedFieldStopsTheServer`). A reload finishes if and only if every replayed record finds all its integer fields in
  the document of its id before it (`ReloadFinishesIff`), and if it does not, no number of further attempts helps
  (`ServesAgainIff`).
- A snapshot that saves the FLAT list inside a commit can leave two vectors of one id after a crash
  (`SnapshotInsideCommitDuplicates`), and if the next snapshot saves both, they stay until the id is upserted again
  (`DuplicateOutlivesSnapshot`). A
  reload leaves one vector per id if and only if the saved list was right for the ids that are not replayed, and no
  saved vector is doubled: has no stored document, a FLAT upsert as the first replayed record of its id, and no other
  FLAT upsert of the id after that (`ReloadIsLastWriterWins`).
- Entries that arrive by `apply_pack` never reach the WAL (`PackedEntryLosesItsVector`); `CommitIff` says when
  a reload is right all the same. Entries that `write_at` overwrites stay in the WAL and come back
  (`OverwrittenEntryComesBack`).
- A crash in the first append after a snapshot that claims the whole log, between the id and the operation of the line:
  the operation of the line before is taken for its own, its empty document does not parse, and the server does not
  start (`TornAfterSnapshotStopsTheServer`). `TornLineStopsIff` says what every other cut does.
- An upsert that drops an integer field leaves its bit behind, and ids beyond 32 bits make the filter disagree with
  the documents (`UpsertKeepsAgreement`, `LiveAgreement`, `WideIdsCollide`).
- A crash that cuts off a WAL line behind its id costs the next record that is acknowledged (`CutLosesNextRecordIff`).
- A log message is lost when its slot is not clean at the compare-and-swap, which takes another thread
  (`DroppedOnlyIfDisturbed`, `SharedSlotLosesAMessage`, `FlusherLosesAMessage`).
- `find_top_k_similar_vectors` is commented as returning the most similar vectors; it returns the least similar ones
  (`MostSimilarIff`). The model follows the code.
- A provider that writes zero bytes ends the chunked response with success and without a terminator
  (`EmptyWriteLosesTheEnd`).

## Model

| member | source | states |
|---|---|---|
| RecoveryFromFiles.RecoveryIsLastWriterWins | vector_database.cpp:19-50 | In every run of starts, appends, packs, commits, snapshot steps and crashes, a reload from legible files finishes if and only if each replayed record finds all its integer fields in the document of its id before it; it then leaves the scalar store and the HNSW map as the last upsert of each id (and type) says if and only if the ids that are not replayed were so already, and the FLAT list with exactly one vector per id, that of its last FLAT upsert, if and only if the same holds of the saved list and no id is doubled |
| RecoveryFromFiles.LoggedRunsRecoverFromFiles | vector_database.cpp:19-50 | Runs that commit logged entries only recover documents, labels and the newest FLAT vector of each id from legible files; documents that keep their fields guarantee that the reload finishes; if no snapshot saves the FLAT list inside a commit, everything is recovered |
| RecoveryFromFiles.LastWriterByPosition | vector_database.cpp:19-164 | The same by position in the log: a record that no later one of its id follows is the stored document, the last HNSW record of an id gives its label, the last FLAT record the last of its vectors in the list, and an id that is not in the log is nowhere |
| RecoveryFromFiles.FilterAfterRecovery | vector_database.cpp:139-163 | After any reload of schema-stable documents from legible files every document is in the bitmap of each of its stored values; the bitmaps hold nothing else if and only if each saved bit belongs to the stored value or to a value that the replayed records write |
| RecoveryFromFiles.RecoveredBits | vector_database.cpp:139-163 | In numbers, against the log: a recovered bitmap holds an id if its last logged upsert has the value in the field, other than the id and between -2147483648 and 2147483647, and no other id if the saved bits are accounted for |
| RecoveryFromFiles.FilterIsExactAfterFullReplay | persistence.cpp:100-115 | As long as the saved id does not exceed the initial counter, replay covers the whole log and the recovered bitmaps are exact |
| RecoveryFromFiles.FilesReload | vector_database.cpp:19-50 | In every run, parsing legible log and filter files and applying what comes out is the reload of the records and indexes, and leaves the counter at the highest id |
| RecoveryFromFiles.IdTenStopsTheServer | filter_index.cpp:114-138 | A run of one regular document, committed and snapshotted, after which no reload finishes, whatever the libraries do otherwise |
| RecoveryFromFiles.NewlineInBodyStopsTheServer | http_server.cpp:278 | A run that logs a request body over two lines, after which no reload finishes |
| RecoveryTheorems.ReloadIsLastWriterWins | vector_database.cpp:19-50 | The same for records and indexes, in every run: a reload that finishes is right in documents and labels if and only if they are carried by the disk, and in the FLAT list if and only if that is carried and no id is doubled |
| RecoveryTheorems.ReloadFinishesIff | vector_database.cpp:148-155 | In every run a reload finishes if and only if no replayed record brings an integer field which the document it will find stored lacks |
| RecoveryTheorems.ServesAgainIff | vector_database.cpp:19-50 | After a crash in any run there is a continuation in which the server serves if and only if an undisturbed reload finishes |
| RecoveryTheorems.LoggedRunsRecover | vector_database.cpp:19-50 | In runs that commit logged entries only every snapshot carries the documents and labels, a reload that finishes is right in them and in the newest FLAT vector of each id, also at the end of a step-by-step reload, and documents that keep their fields guarantee that it finishes |
| RecoveryTheorems.UndoubledRunsCarryFlat | vector_database.cpp:90-137 | In such runs whose earlier reloads doubled no vector the snapshot carries the FLAT list, so the reload is right in it if and only if none is doubled now |
| RecoveryTheorems.QuietRunsRecover | persistence.cpp:100-109 | If moreover no snapshot saves the FLAT list inside a commit, every reload that finishes reflects the whole log |
| RecoveryTheorems.FlatListAfterReload | vector_database.cpp:90-137 | The FLAT list after a reload, id by id and in every run: the saved vectors if no FLAT upsert of the id is replayed or the id is doubled, followed by the last replayed FLAT vector |
| RecoveryTheorems.FilterAfterReload | vector_database.cpp:139-163 | The filter after a reload of records and indexes: complete, and exact if and only if the saved bits are accounted for |
| ShortfallRuns.StaleBitSurvivesReload | vector_database.cpp:148-155 | A reachable run whose recovered filter still holds the old value of a changed field |
| ShortfallRuns.OpenedIdFileClaimsNothing | persistence.cpp:117-126 | A run that crashes between opening and writing the id file: it reads as 0, and the next reload replays the whole log |
| RecoveryTheorems.IdEpochs | persistence.cpp:81-109 | In every reachable running state the saved id is at most the counter, which is below the Raft start index, and the records of earlier epochs are exactly those up to the counter |
| RecoveryTheorems.ClaimedRecordsAreSaved | persistence.cpp:100-109 | Every record the snapshot claims is reflected in the saved indexes unless a later record changes it again |
| RecoveryTheorems.NewIdsExceedEarlierEpochs | in_memory_log_store.cpp:87-135 | Any step that writes the WAL appends one record, whose id is above every id of the earlier epochs |
| RecoveryTheorems.ReloadStepByStep | vector_database.cpp:25-49 | Replaying record by record until the log is used up ends in the state the replay function gives, with the counter at the highest id, or down if an upsert aborts |
| ShortfallRuns.SnapshotInsideCommitDuplicates | vector_database.cpp:121-163 | A run in which a snapshot falls inside a commit and the reload leaves two vectors of the id |
| ShortfallRuns.DuplicateOutlivesSnapshot | vector_database.cpp:121-163 | Its continuation by that reload, a whole snapshot and a crash: the document is stored and nothing is doubled now, and a reload still finds both vectors |
| ShortfallRuns.AddedFieldStopsTheServer | vector_database.cpp:148-155 | A run of two logged upserts of one id, the second with a field more, after which the server never serves again |
| ShortfallRuns.LaterUpsertRepairs | vector_database.cpp:90-112 | A run with such a snapshot and a saved vector without a document, in which a later logged upsert of the id makes the reload right again |
| RecoveryTheorems.CommitIff | in_memory_log_store.cpp:258-283 | After the end of a commit, of a document in the log or not, a finished reload reflects the log if and only if the FLAT list is carried, no id is doubled, and the replay writes the document's id again or the document is the last of its id in the log anyway |
| ShortfallRuns.PackedEntryLosesItsVector | in_memory_log_store.cpp:258-283 | A run in which an entry arrives in a packed buffer, is committed, survives the crash as a document, and has lost its vector |
| RecoveryTheorems.ReloadKeepsDocIff | in_memory_log_store.cpp:114-131 | A reload keeps a stored document if and only if no replayed record has its id or the last such record holds the same document |
| RecoveryTheorems.RecoveredIsCommittedIff | in_memory_log_store.cpp:114-131 | The recovered store is the one Raft committed if and only if the last logged document of every id is the last committed one |
| ShortfallRuns.OverwrittenEntryComesBack | in_memory_log_store.cpp:114-131 | A run in which an entry overwritten by write_at, never committed, is stored after the reload |
| SearchAfterRecovery.SearchAnswersTheLog | vector_database.cpp:19-231 | In every run on schema-stable documents with 32-bit ids that commits logged entries only, all saved bits accounted for, a filtered FLAT search after a reload from legible files returns only ids whose last logged upsert carries the field in 32 bits, with the value for "=" and another one for every other operator, and all of those in the FLAT index when k is large enough; no id comes twice if the FLAT list is carried and none is doubled |
| RecoveryRuns.RunKeepsIds | persistence.cpp:68-109 | Ids, counters, epochs and the shape of the filters are in order in every reachable state |
| RecoveryRuns.RunKeepsInv | persistence.cpp:68-109 | The invariant on documents, labels, bitmaps and newest FLAT vectors holds in every state of a run that commits logged entries only |
| FlatListRuns.RunKeepsFlat | vector_database.cpp:90-137 | The invariant on the FLAT list holds in every such run in which no reload started from a snapshot that doubles a vector |
| FlatListRuns.QuietRunsAreUndoubled | persistence.cpp:100-109 | In runs that save the FLAT list outside commits only, every saved vector has a stored document and no reload starts from a snapshot that doubles one |
| FlatListRuns.BackedIsUndoubled | vector_database.cpp:90-112 | A snapshot whose vectors all have stored documents doubles none |
| RecoveryRuns.UnpackedCommitsAreLogged | in_memory_log_store.cpp:87-135 | Every run without apply_pack commits logged entries only |
| RecoveryRuns.StepInv | persistence.cpp:68-109 | Every single step, of whatever kind, keeps the invariant |
| RecoveryRuns.LoggingInv | in_memory_log_store.cpp:87-135 | Appending to the Raft log and the WAL keeps the invariant |
| RecoveryRuns.CommitInv | vector_database.cpp:90-112 | Removing the old vector of a logged document keeps the invariant |
| RecoveryRuns.InsertInv | vector_database.cpp:114-137 | Inserting its new vector keeps it |
| RecoveryRuns.FieldsInv | vector_database.cpp:139-160 | So does any part of its member loop |
| RecoveryRuns.CommitIsUpsert | vector_database.cpp:76-164 | The parts of a commit together are one upsert, and only the member loop can take the process down |
| RecoveryRuns.FieldsInParts | vector_database.cpp:139-160 | It makes no difference in how many parts the member loop is gone through |
| RecoveryRuns.StoreInv | vector_database.cpp:163 | Storing the document, the end of a commit, keeps the invariant, on disk and in memory |
| RecoveryRuns.ReplayApplyInv | vector_database.cpp:36-41 | Applying a replayed record to a scalar store that is ahead of the snapshot keeps the invariant |
| RecoveryRuns.SnapshotStepInv | persistence.cpp:100-109 | Each of the five file operations of a snapshot keeps the invariant, also inside a commit and among those of other snapshots |
| FlatListRuns.ServeFlat | vector_database.cpp:19-50 | A reload that was on track ends with one vector for each id and a stored document behind it |
| RecoveryRuns.PackedStartIsFirst | in_memory_log_store.cpp:275-282 | The start index after a pack is the smallest positive index |
| Settledness.SettledAfterUpsert | vector_database.cpp:76-164 | An upsert of a logged record turns a state settled from a position into one settled from the next, whatever the scalar store already holds |
| Settledness.NewestAfterUpsert | vector_database.cpp:90-137 | An upsert puts its vector behind all others of its id, whether it finds them or not |
| ReplayTheory.ReplayRecovers | vector_database.cpp:19-50 | Recovery from any settled snapshot: documents and labels last-writer-wins, newest FLAT vectors right, filter complete, and exact if and only if the loaded bits are accounted for |
| ReplayTheory.ReplayRecoversFlat | vector_database.cpp:19-50 | After a replay from any store the vectors of an id are what the log says if and only if they were settled and the id is not doubled; so for the whole list |
| ReplayTheory.ReplayRecoversDocs | vector_database.cpp:19-50 | After a replay from any store documents and labels are what the log says if and only if they were settled |
| ReplayTheory.ReplayFinishesIff | vector_database.cpp:148-155 | A replay from any store finishes if and only if each record finds all its integer fields in the last document of its id before it, replayed or stored |
| ReplayTheory.FlatReplayIs | vector_database.cpp:90-137 | Replay of one id in closed form: the last FLAT upsert replaces its vectors unless it is alone and finds nothing stored |
| ReplayTheory.ReplayOfId | vector_database.cpp:25-49 | What a replay makes of one id from any store: the last replayed document, label and vectors, or what was there |
| ReplayTheory.OverReplayIsHarmless | persistence.cpp:86-92 | Replaying records that the state already contains changes no stored document, no vector of any id, no label and, on an exact filter, no bitmap |
| ReplayTheory.AccountedIsAgreement | vector_database.cpp:139-160 | Once the log is used up, accounting for every bit is the same as the bitmaps agreeing with the stored documents |
| Durability.UpsertIsUniqueWhenBacked | vector_database.cpp:90-137 | A FLAT upsert leaves exactly one vector of its id if and only if the document was stored or the list had no vector of it |
| Durability.UpsertedBits | vector_database.cpp:139-160 | A finished upsert sets the bit, in 32 bits, of its id for every value between -2147483648 and 2147483647 of a field other than the id, clears it for the stored values these replace, and moves no other bit |
| Durability.UpsertAbortsIff | vector_database.cpp:145-153 | An upsert aborts if and only if the stored document lacks a field, other than the id, with a 32-bit value of the new one |
| Durability.LastIsLatest | vector_database.cpp:25-49 | What the log says of an id is its latest record, of any type or of one |
| VectorDatabaseObject.VectorDatabase.Upsert | vector_database.cpp:76-164 | The method has the effect of the upsert function on all four stores, and the id's bit is set for each 32-bit value of a field other than the id; an aborting upsert leaves the scalar store alone |
| VectorDatabaseObject.VectorDatabase.IndexMembers | vector_database.cpp:139-160 | The member loop, in any order, moves the document's bit in every indexed field from its stored value to its new one, or aborts on a field the stored document lacks |
| VectorDatabaseObject.VectorDatabase.ReloadDatabase | vector_database.cpp:19-50 | Parsing the saved filter and the log, and applying both, gives the store and the counter that the reload from files gives, or goes down exactly when that does |
| VectorDatabaseObject.VectorDatabase.LoadSnapshot | persistence.cpp:111-115 | Loads the saved indexes, or fails exactly when the filter text does not parse |
| VectorDatabaseObject.VectorDatabase.ReplayWAL | vector_database.cpp:25-49 | The reload loop computes the replay of the log text |
| VectorDatabaseObject.VectorDatabase.TakeSnapshot | persistence.cpp:100-109 | The saved indexes are the current ones, the filter as its dump in the order of the maps, and the saved id is the counter |
| VectorDatabaseObject.VectorDatabase.SearchFlat | vector_database.cpp:170-231 | The labels are the k nearest entries of the FLAT list that the requested bitmap selects, padded with -1; when filter and list are in step with the documents, "=" returns documents that carry the field with the value, every other operator those that carry it with another one, and with k at least the list size none of these is missing |
| VectorDatabaseObject.VectorDatabase.WriteWALLogWithID | vector_database.cpp:57-61 | One line with the Raft index as its id is appended to the WAL, and the read position is behind it |
| VectorDatabaseObject.LogStateMachine.Commit | log_state_machine.cpp:16-37 | A commit records the index and has the effect of one upsert of the document in its content, or goes down if that does not parse |
| VectorDatabaseObject.LogStateMachine.constructor | log_state_machine.cpp:11-14 | The last committed index starts at the id counter |
| PersistenceObject.Persistence.ReadNextWALLog | persistence.cpp:68-98 | The read loop on the file computes the next entry beyond the saved id, the position behind it and the counter |
| PersistenceObject.Persistence.WriteWALRawLog | persistence.cpp:57-66 | Appends one line, moves the position of the stream behind it and leaves the counters alone |
| PersistenceObject.Persistence.Init | persistence.cpp:12-28 | A new process starts at the initial counter with the saved id of the old one |
| IntFieldFilter.FilterIndex.UpdateIntFieldFilter | filter_index.cpp:31-62 | The id leaves the bitmap of the old value if there is one and joins that of the new value; no other bitmap changes |
| IntFieldFilter.FilterIndex.AddIntFieldFilter | filter_index.cpp:23-29 | Installs a bitmap of one id in place of whatever stood at the field and value |
| IntFieldFilter.FilterIndex.GetIntFieldFilterBitmap | filter_index.cpp:64-84 | "=" adds the bitmap of the value and "!=" the union of all other bitmaps of the field |
| IntFieldFilter.ReindexedBits | vector_database.cpp:139-160 | After an upsert a bit is set exactly if it is the document's own new value, or was set before and is not its old one |
| IntFieldFilter.UpsertKeepsAgreement | filter_index.cpp:31-62 | An upsert keeps "id in bitmap (f, v) if and only if the stored document has f = v" exactly when it drops no indexed field and has nothing to index or an id below 2^32 |
| IntFieldFilter.LiveAgreement | filter_index.cpp:23-62 | After every sequence of schema-stable upserts the bitmaps agree with the stored documents if and only if every document with something to index has an id below 2^32 |
| IntFieldFilter.LiveBits | filter_index.cpp:23-62 | In numbers: after such upserts an id is in the bitmap of a value of a field if and only if the last document of the id has that value there, the field is not the id, and the value is between -2147483648 and 2147483647 |
| IntFieldFilter.LiveBitmapsAreDisjoint | filter_index.cpp:23-62 | For such documents the bitmaps of two values of one field are disjoint |
| IntFieldFilter.UpsertKeepsShape | filter_index.cpp:31-62 | Upserts never leave a field without a bitmap, a value beyond 32 bits or a bit beyond 32 bits |
| IntFieldFilter.WideIdsCollide | filter_index.cpp:46 | Two ids that agree in 32 bits: moving one takes the other out of its bitmap |
| Search.FilterBitmapIsExact | filter_index.cpp:64-84 | On an agreeing filter the bitmap of a request holds exactly the ids whose stored document carries the field, with the value for "=" and with another one otherwise |
| Search.EqualAndNotEqualPartition | filter_index.cpp:69-82 | The "=" and "!=" bitmaps are disjoint and together hold exactly the ids that carry the field |
| Search.FilteredSearch | vector_database.cpp:189-231 | In the answer to a filtered search on an agreeing filter every label is the padding or the id of a stored document that satisfies the filter, with k at least the index size none is missing, and none appears twice if the list has one vector per id |
| Search.FlatSearch | faiss_index.cpp:35-60 | An exact search that meets the k-nearest contract exists |
| Search.AnswerIsNearest | faiss_index.cpp:35-60 | The answer names k entries, or all if there are fewer, nearest first and none further than one left out; without a filter all entries compete, with one those whose id in 32 bits is in the bitmap |
| LogStore.AppendIsSnoc | in_memory_log_store.cpp:87-92 | Append adds one entry at the end of the abstract sequence and keeps the interval of indexes |
| LogStore.WriteAtInterval | in_memory_log_store.cpp:114-123 | write_at keeps the indexes an interval if and only if the index is 0, in the log, or the next slot |
| LogStore.WriteAtIsTruncateThenSnoc | in_memory_log_store.cpp:114-123 | There it truncates the sequence at the index and adds the entry |
| LogStore.CompactIsDrop | in_memory_log_store.cpp:285-301 | Compact drops a prefix and moves the start index, also past the end |
| LogStore.PackRoundTrip | in_memory_log_store.cpp:228-273 | Parsing a packed buffer gives back the packed entries |
| LogStore.AnyPack | in_memory_log_store.cpp:258-273 | Any buffer: too short for a count or for a record it throws, with a count of zero or less it is empty, and a whole record is taken by its length |
| LogStore.MergeInterval | in_memory_log_store.cpp:262-282 | Applying a packed buffer keeps the interval if and only if the ranges overlap or touch, or one is empty |
| LogStore.ApplyOnEmpty | in_memory_log_store.cpp:258-283 | On a fresh store a packed buffer reproduces its entries, and start index and next slot fit them unless it is empty |
| InMemLogStoreObject.InMemLogStore.Append | in_memory_log_store.cpp:87-112 | The object's entries grow by one, the returned index is its slot, and only application entries reach the WAL |
| InMemLogStoreObject.InMemLogStore.WriteAt | in_memory_log_store.cpp:114-148 | The erasing loop truncates at the index; the store stays valid exactly for the indexes the lemma names |
| InMemLogStoreObject.InMemLogStore.Compact | in_memory_log_store.cpp:285-301 | The erasing loop drops the prefix |
| InMemLogStoreObject.InMemLogStore.LogEntries | in_memory_log_store.cpp:150-171 | Aborts if and only if an index of the range is missing; otherwise the result is the range, a slice of the sequence |
| InMemLogStoreObject.InMemLogStore.LogEntriesExt | in_memory_log_store.cpp:173-202 | The shortest prefix of the range that reaches the byte hint: without its last entry it stays below, and it is all of the range if it does not reach it; all of it for 0, nothing for a negative hint; aborts if and only if a missing index comes before the hint is reached |
| InMemLogStoreObject.TotalSizeIsSum | in_memory_log_store.cpp:173-202 | The size compared with the hint is the sum of the sizes of the entries |
| InMemLogStoreObject.InMemLogStore.GetNextSlot | in_memory_log_store.cpp:66-70 | Start index plus the number of entries |
| InMemLogStoreObject.InMemLogStore.LastEntry | in_memory_log_store.cpp:76-85 | The last entry of the sequence, or the dummy |
| InMemLogStoreObject.InMemLogStore.EntryAt | in_memory_log_store.cpp:204-214 | The entry at its place in the sequence, or the dummy |
| InMemLogStoreObject.InMemLogStore.TermAt | in_memory_log_store.cpp:216-226 | The term of that entry |
| InMemLogStoreObject.InMemLogStore.PackLogs | in_memory_log_store.cpp:228-256 | The buffer holds the number of entries and each entry of the slice with its length |
| InMemLogStoreObject.InMemLogStore.ApplyPack | in_memory_log_store.cpp:258-283 | Merges the parsed entries, takes the first index as start, and keeps the store valid exactly when the ranges fit |
| TextFormats.WalReadsBackIff | persistence.cpp:57-98 | A log file reads back as the entries written beyond the saved id if and only if each of their payloads is free of '\|', newline and NUL |
| TextFormats.ReadAllBehind | vector_database.cpp:25-49 | Whole clean lines hand out their entries and leave any text behind them to be read, with the operation of a skipped last line in hand or none |
| TextFormats.NextEntryFindsFirstWanted | persistence.cpp:68-98 | One call on a clean file returns the first entry beyond the saved id, stops right behind its line, and raises the counter to the highest id passed |
| TextFormats.FirstEntry | persistence.cpp:71-92 | A payload arrives cut at its first newline, '\|' or NUL, and a claimed entry is skipped |
| TextFormats.UnsignedReadsBack | persistence.cpp:81 | `stoull` inverts decimal printing of 64-bit numbers |
| TextFormats.NumberIsRead | persistence.cpp:81 | `stoull` and `stol` on any text of blanks, perhaps a sign, digits and anything behind: the value of the digits if in range, wrapped around by a minus sign in the unsigned case |
| TextFormats.NoNumberThrows | persistence.cpp:81 | Without digits there they throw |
| TextFormats.DecimalIs | persistence.cpp:58 | A number is printed as its row of digits without a leading zero |
| TextFormats.LineIsJudged | persistence.cpp:71-94 | Any line of four fields: bad without a number, handed out beyond the snapshot and skipped otherwise, with all behind a fourth bar passed over |
| TextFormats.NewlineInPayloadThrows | persistence.cpp:72-81 | A newline in a replayed payload makes the reload throw unless the text behind it starts with a number |
| TextFormats.BarInPayloadTruncates | persistence.cpp:76-79 | A '\|' in a payload truncates the document without notice |
| TextFormats.NulInPayloadTruncates | persistence.cpp:87 | So does a NUL byte |
| TextFormats.TornIdIsHarmlessIff | persistence.cpp:76-89 | A last line cut off inside its id is passed over if and only if that id is not beyond the snapshot or the line before it was not skipped; otherwise the operation of that line comes out again with an empty document |
| TextFormats.CutLosesNextRecordIff | persistence.cpp:57-79 | Behind a line that a crash cut off, the next record's operation and document are read if and only if the cut fell into the id |
| TextReplay.TextReplayIsReplay | vector_database.cpp:19-61 | Reading the log file and applying what comes out is the replay of the records that were written, if the request bodies they came in are clean, and leaves the counter at the highest id |
| TextReplay.TextReplaysFrom | vector_database.cpp:25-49 | From any record on, with any text behind the records: their replay, then the reading of that text with the operation of a skipped last line in hand or none |
| TornLines.TornLineReload | persistence.cpp:57-98 | For every position at which a crash cuts off the last line: the reload without it, if the line is passed over, or else one more upsert of what the parser makes of the prefix of its document |
| TornLines.TornLineStopsIff | persistence.cpp:57-98 | Where the reload would have finished without the torn line, it finishes with it if and only if the line is passed over or the prefix left of its document parses and upserts without tripping the assertion |
| TornLines.TornFields | persistence.cpp:73-79 | The fields of a line cut off anywhere |
| RecoveryFromFiles.TornAppendReload | persistence.cpp:57-98 | The same behind every run with legible files |
| RecoveryFromFiles.TornAfterSnapshotStopsTheServer | persistence.cpp:71-92 | A run with a snapshot of the whole log after which a first append cut off between its id and its operation keeps every reload from finishing, if the parser refuses empty text |
| TextReplay.ThrowingTextStops | vector_database.cpp:25-49 | If the reader throws anywhere in the file, the reload does not finish |
| FilterDump.DumpReadsBackIff | filter_index.cpp:86-138 | The dump reads back as the records written if and only if no field name holds '\|' or newline and no bitmap a newline byte |
| FilterDump.LineIsParsed | filter_index.cpp:118-130 | Any line: the field up to the first bar, the number up to the second, all the rest as bytes |
| FilterDump.OneRecordText | filter_index.cpp:102-105 | A bitmap on file is field, bar, number in decimal, bar, bytes and a newline |
| FilterDump.DumpLoadsBack | filter_index.cpp:86-138 | What saving an index without such names or bitmaps writes, in any order, loads into an empty index as the same index |
| FilterDump.NewlineInBitmapThrows | filter_index.cpp:118-127 | No index that holds a bitmap with a newline byte loads, unless the bytes behind it look like a record, whatever the other records are |
| FilterDump.IdTenStopsTheLoad | filter_index.cpp:97-105 | So no index in which the id 10 is alone in a bitmap loads |
| FilterDump.SerializeIntFieldFilter | filter_index.cpp:86-112 | The nested loops write one record for each bitmap and nothing else, in ascending order of field and value |
| FilterDump.OrderedDumpIsUnique | filter_index.cpp:86-112 | A filter has exactly one dump in this order |
| FilterDump.DeserializeIntFieldFilter | filter_index.cpp:114-138 | Installs the records of all lines up to the first that does not parse |
| ScalarScan.PrefixIsConvex | scalar_storage.cpp:78-88 | Nothing between a prefix and a key that has it lacks it, in bytewise order |
| KeyOrder.LeqIff | scalar_storage.cpp:84 | The order of keys: a prefix comes first, otherwise the first differing byte decides |
| ScalarScan.MatchingIs | scalar_storage.cpp:78-88 | The matches are the stored pairs whose key begins with the prefix and, if there is a bound, does not exceed it |
| ScalarScan.PageItem | scalar_storage.cpp:97-113 | Item i of page n is the match with (n - 1) * size + i matches before it, the product taken modulo 2^64 |
| ScalarScan.MatchingIsContiguous | scalar_storage.cpp:90-102 | The matching keys are the stretch from the seek position to the first mismatch |
| ScalarScan.ScanPage | scalar_storage.cpp:72-123 | The page is the slice of the matching pairs behind the skip count, has_more holds exactly if a matching pair follows it, and every key on it begins with the prefix and does not exceed the bound |
| ScalarScan.PageIsSliceIff | scalar_storage.cpp:97 | It is the page asked for if and only if the 64-bit product does not wrap around into the matches |
| ScalarScan.FollowPages | scalar_storage.cpp:72-123 | Following has_more from page 1 yields, exactly once and in key order, every stored pair whose key begins with the prefix and does not exceed the bound, and no other |
| ScalarScan.MatchingIsOrdered | scalar_storage.cpp:78-88 | The matches are exactly the pairs of the store in range, in order |
| TopK.FindTopK | in_mem_vector_similarity.h:28-52 | The result is the first min(k, n) pairs of the ascending sorting of all pairs; a negative k counts as unlimited |
| TopK.TopKIsLowest | in_mem_vector_similarity.h:28-52 | It has min(k, n) pairs in ascending order of (score, index), and every pair left out is above all of them |
| TopK.TopKInNumbers | in_mem_vector_similarity.h:28-52 | For any k, negative ones included: how many, each with its own score, scores rising with ties by index, and a pair left out has a higher score, or the same and a higher index, than each one returned |
| TopK.SortedIsAscending | in_mem_vector_similarity.h:36-51 | The sorting is ascending and a permutation of all pairs |
| TopK.InsertIntoPrefix | in_mem_vector_similarity.h:39-41 | Popping the greatest after every push beyond k loses nothing that belongs to the k smallest |
| TopK.MostSimilarIff | in_mem_vector_similarity.h:28-52 | The result is the most similar vectors if and only if k is 0 or at least n, or all scores are equal |
| TopK.LeastSimilarIsReturned | in_mem_vector_similarity.h:28 | Of two vectors the less similar one is returned for k = 1 |
| MultipartBody.BodyScanner.ParseAll | httplib.h:4282-4388 | For every cut of the stream into pieces: the state is left exactly if the delimiter occurs, then the callback has received the bytes before its first occurrence, and otherwise all but the last delimiter's length; whenever the stream is some text, the delimiter and a rest, it is left with no more than that text delivered |
| MultipartBody.BodyScanner.Parse | httplib.h:4367-4388 | One call keeps the invariant that ties state, delivered bytes and held bytes to all bytes so far |
| MultipartBody.BodyScanner.BufFind | httplib.h:4459-4480 | The first occurrence in the window, or the window's length |
| MultipartBody.BodyScanner.BufAppend | httplib.h:4482-4498 | The window grows by the new bytes, whatever is moved or resized |
| MultipartBody.BodyScanner.ScanWindow | httplib.h:4367-4388 | Delivers up to the first delimiter, or all that cannot be part of one |
| MultipartBody.FoundInWindow | httplib.h:4369-4376 | A delimiter found in the window is the first one of the whole stream |
| MultipartBody.NotFoundInWindow | httplib.h:4377-4387 | Without one, what is delivered holds no part of a delimiter to come |
| MultipartBody.ScanIsDetermined | httplib.h:4367-4388 | State, delivered bytes and held bytes are functions of the bytes received, and at most one delimiter's length is held |
| ChunkedCoding.EmittedReadsBack | httplib.h:3781-4121 | For every list of non-empty writes followed by done, with trailers, reading the emitted bytes returns their concatenation and stops exactly behind the terminator |
| ChunkedCoding.ReadableIff | httplib.h:4020-4121 | What was written can be read to the end if and only if done came before any empty write |
| ChunkedCoding.EmptyWriteLosesTheEnd | httplib.h:4029-4031 | An empty write ends the writer's loop with success, and the reader fails |
| ChunkedCoding.SizeReadsBack | httplib.h:2219-2227 | `strtoul` in base 16 inverts the hexadecimal printing of a chunk size |
| ChunkedCoding.SizeIsTheNumber | httplib.h:3795 | The size on any line of blanks, perhaps a sign, digits of either case and anything behind them, such as an extension, is the value of the digits, cut off at 2^64 - 1 |
| ChunkedCoding.PrefixedSize | httplib.h:3795 | With `0x` in front it is the same number |
| ChunkedCoding.HexIs | httplib.h:2219-2227 | Sizes are written in lower case, the last digit last |
| ChunkedCoding.ChunkIsRead | httplib.h:3795-3810 | A chunk behind any size line delivers its data and reading goes on if an empty line follows; with anything else there, or too few bytes, reading fails |
| ChunkedCoding.BadSizeFails | httplib.h:3795-3798 | A size line without a number, or with the greatest one, fails, and so does the end of input |
| ChunkedCoding.ZeroEndsTheBody | httplib.h:3800 | The size zero leads to the trailer |
| ChunkedCoding.TrailerIsRead | httplib.h:3815-3831 | The trailer ends at the first empty line; a line of more than 8192 bytes, with its newline, or the end of input fails |
| ChunkedCoding.EmittedWrite | httplib.h:4029-4050 | A write is its size, its data and two line ends on the wire |
| ChunkedCoding.EmittedDone | httplib.h:4056-4098 | The end is a zero, the trailer fields and an empty line, and nothing follows it |
| ChunkedCoding.TrailerField | httplib.h:4087-4093 | A trailer field is name, colon, space, value and line end |
| ChunkedCoding.TrailerReadsBackIff | httplib.h:3815-3831 | Trailer fields without newlines are accepted if and only if no line is longer than 8192 bytes |
| ChunkedCoding.FromIToHex | httplib.h:2219-2227 | The loop prints the number in hexadecimal |
| ChunkedCoding.ChunkedSink.WriteContentChunked | httplib.h:4106-4120 | The loop emits the pieces of the answers up to the first that is done or empty, and counts the bytes |
| ChunkedCoding.ChunkedSink.DoneWithTrailer | httplib.h:4056-4098 | Emits the last chunk, the trailer fields and the empty line |
| ChunkedCoding.StreamLineReader.GetLine | httplib.h:2519-2543 | The line is the input up to and including the newline, of any length, and the connection stands right behind it |
| ChunkedCoding.StreamLineReader.Append | httplib.h:2545-2556 | One more byte, across the move from the fixed to the growing buffer |
| ChunkedCoding.ReadContentWithLength | httplib.h:3729-3749 | Exactly the bytes asked for, or all there are, however short the reads |
| ChunkedCoding.ReadContentChunked | httplib.h:3781-3834 | The reader's result is a function of the bytes sent, however short the reads |
| PercentCoding.DecodeInvertsEncode | httplib.h:2342-2430 | Decoding inverts encoding for every byte string, with either reading of '+' |
| PercentCoding.EncodedIsSafe | httplib.h:2342-2361 | An encoded value holds unreserved characters and '%' only |
| PercentCoding.DecodePlain | httplib.h:2395-2430 | Text without '%' and '+' decodes to itself |
| PercentCoding.DecodePlainFront | httplib.h:2395-2430 | In any text, what stands before the first '%' or '+' stays |
| PercentCoding.DecodePlus | httplib.h:2422 | A '+' becomes a space if that is asked for, and stays otherwise |
| PercentCoding.DecodeTwoDigits | httplib.h:2411-2416 | '%' and two digits of either case become the byte they number |
| PercentCoding.DecodeFourDigits | httplib.h:2401-2408 | '%u' and four digits become the UTF-8 form of the character they number, and nothing for a surrogate |
| PercentCoding.DecodeOtherPercent | httplib.h:2408-2420 | Any other '%' stays, and decoding goes on right behind it |
| PercentCoding.EncodeFront | httplib.h:2342-2361 | Letters, digits and nine marks stay, every other byte becomes '%' and two upper-case digits |
| PercentCoding.FourDigitsMakeACharacter | httplib.h:2229-2261 | The four-digit form becomes the UTF-8 bytes of its character; surrogates vanish |
| PercentCoding.EncodeQueryParam | httplib.h:2342-2361 | The loop computes the encoding |
| PercentCoding.DecodeUrl | httplib.h:2395-2430 | The loop computes the decoding |
| PercentCoding.FromHexToI | httplib.h:2202-2217 | The value of exactly that many digits, or a failure |
| QueryString.ParseInvertsJoin | httplib.h:4158-4191 | For multimaps whose keys survive, parsing the query string gives the multimap with repeated pairs dropped; so it is the same multimap if and only if no pair repeats |
| QueryReading.ParsedIs | httplib.h:4170-4191 | Parsing any query string: in key order, one parameter for each different piece that has a key, its first part, with its last part as the value, both decoded with '+' as a space |
| QueryReading.FirstAndLastPart | httplib.h:4177-4185 | Key and value of any piece are the part before the first '=' and the part behind the last |
| QueryReading.ItemIsParsed | httplib.h:4170-4191 | A key and a value in front of anything else arrive decoded |
| QueryReading.PlusInValueIsASpace | httplib.h:4188 | A '+' in a value arrives as a space |
| QueryReading.BlankPieceVanishes | httplib.h:2473-2491 | Nothing comes of a piece that is empty or blank, wherever it stands |
| QueryReading.TrimmedMiddle | httplib.h:2450-2459 | Spaces and tabs at both ends go, and nothing else |
| QueryReading.EmplacedIs | httplib.h:4188 | A new pair goes behind all pairs whose key is not greater |
| QueryReading.JoinedSnoc | httplib.h:4158-4168 | Writing: key, '=' and encoded value, with '&' between parameters and nowhere else |
| QueryString.PlainKeyIsOk | httplib.h:4158-4191 | Non-empty keys without '&', '=', '%', '+' and without blanks at the ends survive |
| QueryKeys.ParameterSurvivesIff | httplib.h:4158-4191 | A parameter survives if and only if its key is non-empty, holds no '&' or '=', has no blank at an end and decodes to itself |
| QueryKeys.PiecesConcat | httplib.h:2473-2491 | Splitting distributes over a delimiter |
| QueryString.Split | httplib.h:2473-2491 | The trimmed, non-empty pieces between the delimiters |
| QueryString.Trim | httplib.h:2450-2459 | The indexes of the trimmed text, or crossed indexes when only blanks are left |
| QueryString.ParamsToQueryStr | httplib.h:4158-4168 | The loop computes the query string |
| QueryString.ParseQueryText | httplib.h:4170-4191 | The loop computes the parameters |
| QueryString.SplitKeyValue | httplib.h:4177-4185 | The first part is the key, the last of the others the value |
| Base64.Encode | httplib.h:2263-2289 | The streaming accumulator, wrapping around at 32 bits, produces the three-byte-group definition of section 4 of RFC 4648 |
| Base64.DecodeInvertsGroups | httplib.h:2263-2289 | A decoder written from the standard inverts it |
| Base64.LengthOfGroups | httplib.h:2284-2286 | The output has 4 * ceil(n / 3) characters |
| Base64.LowBitsMatter | httplib.h:2274-2278 | Each letter depends on the low twelve bits of the accumulator only, which wrapping around keeps |
| Base64.QuadIsTheSameNumber | httplib.h:2263-2289 | The four groups of six bits are the base-64 digits of the 24-bit number that the three bytes make |
| Base64.LetterIs | httplib.h:2264-2265 | The letters are those of Table 1 of RFC 4648, by character code |
| LogRingTheorems.RingIsSafe | raft_logger.cpp:764-785 | Under every interleaving: one writer per slot, one flushing slot, completed writes are the emitted ones plus those held, no record is emitted twice, and the file is whole records in order plus at most a part of the one being emitted |
| LogRingTheorems.FileIsTheMessages | raft_logger.cpp:764-785 | Under every interleaving: put number j goes to slot j modulo the ring size, every emitted or dropped record is a message that was put, byte for byte, and the file is the first 4096 bytes of each emitted message, one behind the other, followed at most by a prefix of one that was put; with no longer message it is the messages themselves |
| LogRingFifo.OneThreadIsFifo | raft_logger.cpp:1114-1131 | A run of one thread, step by step: what is in the file are its messages in the order it put them, and right after a flush of its own the file is all of them, the first 4096 bytes of each |
| LogRingFifo.QueueStep | raft_logger.cpp:1243-1277 | Every step of one thread keeps the queue: record j is in slot j modulo the ring size from its writing to its emission, and a sweep from the cursor meets the oldest first |
| LogRingTheorems.BytesChangeOnlyWhileWriting | raft_logger.cpp:764-774 | A slot's bytes change only when the one thread that holds it in WRITING copies |
| LogRingTheorems.EveryPutIsAccountedFor | raft_logger.cpp:1114-1131 | Every put is under way, written, or dropped, and never both of the last two |
| LogRingTheorems.DroppedOnlyIfDisturbed | raft_logger.cpp:1114-1131 | In every run, a message is dropped only if between the claim of its slot and the attempt to store it another thread changed that slot's status or the producer went by an outdated one |
| LogRingTheorems.DroppedIffClaimedSlotIsTaken | raft_logger.cpp:764-774 | In every run, a message is dropped if and only if the slot claimed for it earlier is not clean at the attempt, and otherwise its thread becomes the writer of that slot |
| LogRingTheorems.SingleThreadDropsNothing | raft_logger.cpp:1114-1131 | A run of one thread drops nothing |
| LogRingTheorems.SharedSlotLosesAMessage | raft_logger.cpp:1114-1131 | A run of two producers in which a message is lost |
| LogRingTheorems.FlusherLosesAMessage | raft_logger.cpp:1114-1131 | A run of one producer and a flusher in which a message is lost |
| LogRingInvariant.RunInv | raft_logger.cpp:1114-1131 | The ring invariant holds in every state of every run |
| RingFifo.SimpleLogger.Put | raft_logger.cpp:1114-1131 | A whole put adds the message, cut at 4096 bytes, at the end of the queue, across wraparounds, flushing first when the ring is full |
| RingFifo.SimpleLogger.FlushAll | raft_logger.cpp:1279-1282 | Everything goes to the file, oldest first |
| RingFifo.SimpleLogger.Perform | raft_logger.cpp:1114-1131 | For any run of whole calls the file followed by the ring is all messages put, in order; messages of at most 4096 bytes as they were put |
| RingFifo.SimpleLogger.Flush | raft_logger.cpp:1243-1277 | The two loops write the dirty slots in circular order and clean them |
| RingFifo.SimpleLogger.WriteElem | raft_logger.cpp:764-774 | Fills a clean slot with the message, or with its first 4096 bytes if it is longer, and refuses any other |
| RingFifo.WriteAppends | raft_logger.cpp:1114-1131 | Filling the clean slot at the cursor appends to the queue seen from the next position |

## Left out

- Faiss, hnswlib, CRoaring, RocksDB and NuRaft are contracts only: a list with remove-all-by-id, a label map, a finite set of 32-bit ids, an ordered sequence of pairs, callbacks, buffers whose integers are four bytes, read back as they were put. HNSW search itself is not part of this model.
- `search` with an HNSW or unknown index type: the graph search is approximate and has no contract to prove.
- In `RecoveryRuns` each index file and each WAL line is written as a whole: a torn index file is not modelled; torn WAL lines are the subject of TornLineReload, TornIdIsHarmlessIff and CutLosesNextRecordIff.
- A snapshot that saves an index in the middle of one library call on that very index is a data race inside the library and not part of this model; between any two such calls it is.
- RecoveryRuns.RunKeepsInv: a sufficient condition, which speaks of runs that commit logged entries only; ReloadIsLastWriterWins and ReloadFinishesIff are the exact conditions, for every run.
- FlatListRuns.RunKeepsFlat: a sufficient condition, which speaks of such runs whose earlier reloads doubled no vector; ReloadIsLastWriterWins is the exact condition, for every run.
- `write_at` and `apply_pack` below the start index, and packs without entries, are not steps of `RecoveryRuns`: Raft does not send them. WriteAtInterval and MergeInterval say what they would break.
- Log indexes, ids and terms are unbounded in the log store and the recovery model; 64-bit wrap-around is modelled in the text formats and in `scan_page` only.
- Documents are records with an id, an index type, a vector and integer fields: JSON parsing is an arbitrary partial function from texts to documents, and vector dimensions are not part of this model.
- `std::ios` failures, and WAL writes that fail and are only logged, are not part of this model.
- `writeWALLog` with its own counter: the live path does not use it.
- `/insert` and the other request handlers: `/insert` writes an index directly, outside the recovery model.
- Disk-delay emulation of the log store: never enabled by the server.
- DumpLoadsBack: goes one way only; whether a dump with a stray delimiter still happens to load as the same index depends on how CRoaring reads truncated bytes. DumpReadsBackIff is the exact statement about the records.
- TopK: scores are reals in a total order; floating point, NaN and the three similarity measures are not part of this model.
- Search: distances are an arbitrary function to the reals, and the search is for one query vector.
- MultipartBody.BodyScanner.ParseAll: models the body state only, with a callback that always accepts; initial boundary, part headers, the state behind a delimiter and `is_valid_` are not part of this model.
- The chunked writer's stream is always writable and never shut down, the compressor is the identity, and a provider gives one answer each time it is asked; the chunked reader's receiver always accepts, and a connection that fails is one that has ended. Trailer lines are checked but not parsed into headers.
- QueryString.ParseInvertsJoin: the condition on the keys is exact for one parameter (ParameterSurvivesIff); for several it is sufficient.
- In `LogRing` compare-and-swaps, stores of `status` and the mutex are sequentially consistent, as they are by default; the relaxed loads of `status` may return any value another thread could have left. Formatting, console output, log-file rotation and compression are not part of this model, and an unfinished `ofstream` buffer counts as written.
