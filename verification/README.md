# Seshat event store and search index: a verified model

Seshat keeps Matrix events in an SQLite database and makes them searchable through a
full-text index, which may be encrypted. The two stores commit separately, searches are
paginated with tokens, and the index can be rebuilt from the database. This project models
that logic in Dafny and proves what it keeps.

## How the model is built

**Two stores and the writer thread.** `Tables` holds the SQL tables with their constraints and
row-id allocation; `Soundness` proves what saving does to them. `Protocol` is the writer thread
as a state machine. A state has a durable part (the tables and the committed documents) and a
volatile part (documents not yet committed, the counter, the queue and two vectors). Every
durable commit is appended to a log, so the states that a crash may leave behind while a
message is handled are the entries of the log. `Invariants`, `Completeness` and `Atomicity`
prove what each message keeps, `Runs` proves it for all runs of messages and crashes,
`SentEvents` says which of several events is stored, and `LostEvent` gives the run on which
completeness fails. `Duplicates`, `StaleStores`, `WaitingRows` and `IndexedTwice` say exactly
when an event is indexed twice, and `IndexedMatches` what that means for searches. `Storage` and
`WriterThread` are the objects that update vectors, tables and index in place; each method is
proved to do what the state machine says, so that the run theorems are about the receive loop
`Serve`.

**Paginated search.** `Queries` describes requests and the snapshot that a searcher works on,
`LruCaches` the token cache, `Searcher` the growing-limit recursion and the search itself, and
`Pagination` what a client sees that follows tokens.

**Encrypted files.** `Crypto` takes the primitives as parameters: a keystream in counter mode
(section 6.5 of NIST SP 800-38A), HMAC (section 2 of RFC 2104), PBKDF2 (section 5.2 of
RFC 8018) and HKDF (section 2 of RFC 5869). `EncryptedStream` is the stream writer and reader,
`KeyFiles` the key file, `EncryptedDirectories` the directory that uses both.

**Recovery.** `Reindex`, `Ties`, `TieCoverage` and `SharedIds` are about the loop that rebuilds
the index: for distinct timestamps, for shared timestamps, and for shared timestamps and ids.
`ReindexExamples` gives stores on which it fails, `Recovery` is about the version, the flag and
the recovery session, `RecoveryDatabases` holds the objects, and `Rebuilt` connects a finished
reindex to the invariants of the writer.

## What the proofs found

- Completeness of the index needs that no event is stored while its deletion is pending; replay
  adds such a document and then deletes it. `ForcedWriteCompleteIff` says exactly when.
- How long a token stays known does not depend on how many searches were inserted, but on how
  many distinct tokens were used (`TokenResolvable`, `OneInsertionEvicts`).
- A chain of pages is certain to end only if all matches are fetchable and distinct
  (`ChainsEndIffDistinct`). The writer can index an event twice, with a crash between an index
  commit and its bookkeeping, or without one through a deletion (`CrashIndexesTwice`,
  `DeletionIndexesTwice`); `HandleUniqueIff`, `HandleCurrentIff` and `StaleIffBetween` say
  exactly when.
- Decrypting applies the keystream to the whole buffer, so short reads are harmless only where
  `DecryptsIffInStep` says so. Seshat reads from memory, which fills its buffers.
- The reindex loop may stop early or never, may index a message twice, and may miss one that
  shares its event id with another room (`ReindexCoversIff`, `ReindexEndsIff`,
  `SharedReindexEndsIff`, `TimesIndexed`). It reads messages only: room names and topics do not
  come back (`ReindexRestores`).
- Rebuilding an index whose flag is not set is not crash-safe (`RebuildCrashSafeIff`).
- A version 1 store whose first opening is cut between its two commits never opens again
  (`RenameMustNotBeCut`).

Where the code and its documentation disagree, the model follows the code. The documentation of
`index_events` promises an error if the index was not deleted (recovery.rs:302-310); the code
panics, which the model shows as an error of its own. The documentation of the stream writer
speaks of a random vector (encrypted_stream.rs:54); only its first half is random.

## Assumptions

- SQL statements and index commits do not fail, except for the constraints that are modelled. A
  durable commit survives the crash of the process.
- Searches: a limit of at least 1, which the index library demands.
- Encrypted files: the sizes of AES-256, HMAC-SHA256 and the key derivations, and, for runs
  with wrong passphrases, that the keys derived from a wrong one and from the right one give no
  code in common (`NoCommonCode`).
- Reindex: where a stored source parses, it agrees with the columns of its row. The database
  enforces distinct event ids only within one room: `ReindexCoversIff` is about distinct
  timestamps with any ids, `TieCoverage` about any timestamps with distinct ids, and `SharedIds`
  about both shared. `SharedIdNotIndexed` shows a message that is missed only for its id.

## Model

| member | source | states |
|---|---|---|
| `Tables.NextId` | bindings/seshat/src/database/static_methods.rs:286-356 | a new row id is one more than the largest id in use, or 1 in an empty table |
| `Tables.LastIdReused` | bindings/seshat/src/database/static_methods.rs:286-356 | after the last row was deleted its id (or a smaller one, if the rows before it are gone too) is handed out again; deleting another row changes nothing |
| `Tables.Intern` | bindings/seshat/src/database/static_methods.rs:415-480 | INSERT OR IGNORE followed by SELECT: afterwards exactly the wanted value lies under the returned id, nothing else moved, an existing value is reused, and no value is stored twice |
| `Soundness.LookupCountsKey` | bindings/seshat/src/database/static_methods.rs:613-634 | in a sound store the count that decides whether an event is stored is 0 or 1, and 1 exactly if its (event id, room) is stored; the unreachable branch is never reached |
| `Soundness.SaveEventSound` | bindings/seshat/src/database/static_methods.rs:559-604 | saving one event never fails, keeps every UNIQUE and FOREIGN KEY constraint, keeps all earlier rows, and adds exactly this key with its document fields and one uncommitted row (so the INSERT OR IGNORE of the uncommitted row is never ignored), or changes no table at all if the key was stored |
| `Soundness.SaveEventColumns` | bindings/seshat/src/database/static_methods.rs:415-447 | a new event is stored with every column of its own, under its room, with the profile of its sender; each absent name is stored as the empty string |
| `Events.DatesStayApart` | bindings/seshat/src/index/mod.rs:166 | the cast to an unsigned date is that of two's complement, and no two dates of the 64-bit range become the same |
| `Soundness.SavedEventIsReplayed` | bindings/seshat/src/database/static_methods.rs:491-557 | what the replay query reads back for a saved event is that event, every field of it, also after more events were saved |
| `Soundness.SaveEventsSound` | bindings/seshat/src/database/static_methods.rs:40-64 | the same for a whole batch: keys grow by exactly the keys of the batch, each returned row id stands for a stored event whose document was handed to the index, and the answer is true exactly if all of them were stored before |
| `Soundness.JoinDropsNoRow` | bindings/seshat/src/database/static_methods.rs:491-519 | in a sound store the replay query returns every uncommitted row |
| `Invariants.HandleOk` | bindings/seshat/src/database/mod.rs:249-301 | handling any message keeps, in the store and in every state that was durable on the way: table constraints, no ghost documents, remembered row ids live and unique, at most `added_events` documents pending, and the counter below 500 |
| `Invariants.DeleteEventOk` | bindings/seshat/src/database/static_methods.rs:66-91 | a deletion, with its index commit that leaves the counter alone and its possibly missing bookkeeping commit, keeps the session invariant in every durable state it passes through |
| `Invariants.LoadUnprocessedOk` | bindings/seshat/src/database/writer.rs:109-126 | replay keeps the session invariant and leaves the tables as they were |
| `Completeness.HandleComplete` | bindings/seshat/src/database/static_methods.rs:152-190 | if replay is safe, then after any message, and in every state that was durable on the way, each stored event has its document in the committed index or a row in the uncommitted table |
| `Completeness.ForcedWriteSettles` | bindings/seshat/src/database/static_methods.rs:178-186 | after a forced write of a loaded session both bookkeeping tables are empty, nothing is pending and the index holds what it held plus the batch, even where the commit was skipped because the counter was zero |
| `Completeness.ForcedWriteConverges` | bindings/seshat/src/database/mod.rs:262-281 | from any complete session, including just after a crash, one forced write makes the committed index hold exactly the stored events, every field of them, with both bookkeeping tables empty |
| `Completeness.UnsafeReplayLoses` | bindings/seshat/src/database/writer.rs:112-121 | if a stored event carries an id whose deletion is pending when a session first writes, the write leaves the store incomplete: the event has no document and no uncommitted row |
| `Completeness.ForcedWriteCompleteIff` | bindings/seshat/src/database/mod.rs:262-281 | a forced write leaves the store complete if and only if the session was loaded already or no stored event carries an id that is pending deletion |
| `Completeness.WriteEventsKeys` | bindings/seshat/src/database/static_methods.rs:152-190 | a write adds exactly the keys of its batch to the stored keys and leaves the pending deletions alone |
| `Atomicity.HandleAtomic` | bindings/seshat/src/database/static_methods.rs:152-190 | while a message is handled, every durable state holds the stored events, rooms and checkpoints either as they were before it or as they are after it |
| `Atomicity.CrawlAtomic` | bindings/seshat/src/database/writer.rs:82-107 | every durable state of a crawl message has the content from before it, or all keys of the batch together with the replaced checkpoints |
| `Atomicity.CheckpointImpliesEvents` | bindings/seshat/src/database/writer.rs:82-107 | at every crash point: a checkpoint that appeared is the new one, a checkpoint that vanished is the old one, and in both cases all events of the batch are stored |
| `Atomicity.CheckpointReplaced` | bindings/seshat/src/database/static_methods.rs:996-1028 | after a crawl message a checkpoint is stored exactly if it is not the old one and is the new one or was stored before |
| `Atomicity.DeleteRefusedIff` | bindings/seshat/src/database/static_methods.rs:66-91 | a deletion is refused, and changes nothing, exactly if an event with the id still waits for the index; otherwise the rows and documents with the id are gone and no others, and the answer is true exactly if no deletion of the id is pending any more, so that no commit is needed |
| `Atomicity.HandleAnswers` | bindings/seshat/src/database/mod.rs:257-297 | how every message is answered: a write and a shutdown with success, a crawl batch with whether it was stored before, a deletion with its refusal or with whether it is settled |
| `Atomicity.CrawlAnswer` | bindings/seshat/src/database/writer.rs:82-107 | the reply to a crawl batch is true exactly if the batch is not empty and all its keys were stored before |
| `Atomicity.CrawlIdempotent` | bindings/seshat/src/database/writer.rs:82-107 | sending a stored, nonempty batch again leaves the rows of the event store as they are and is answered with true |
| `Atomicity.HandleRefines` | bindings/seshat/src/database/mod.rs:249-301 | each message acts on the stored and queued keys as one step of an atomic set: add queues, write stores the queue, a crawl stores its batch, a deletion that is not refused removes every key with the id |
| `Runs.RunSafe` | bindings/seshat/src/database/mod.rs:249-301 | the invariant between messages holds after every run of messages and crashes, wherever a crash falls |
| `Runs.NoGhostsAndRateBound` | bindings/seshat/src/index/mod.rs:134-177 | in every state reachable from empty stores, every document, committed or pending, belongs to a stored event or to an id pending deletion, and pending documents <= `added_events` < 500 |
| `Runs.RunComplete` | bindings/seshat/src/database/static_methods.rs:152-190 | crash-safe completeness over whole runs whose replays are safe |
| `Runs.CleanRunGuarded` | bindings/seshat/src/database/writer.rs:109-126 | in a run that never stores an event while its deletion is pending, every replay is safe |
| `Runs.CleanRunConverges` | bindings/seshat/src/database/mod.rs:249-301 | in such a run every durable state is complete, and the next forced write makes the index and the event store agree |
| `Runs.StepRefines` | bindings/seshat/src/database/mod.rs:249-301 | each step, crash included, refines the atomic set: a crash drops the queue and leaves the interrupted message done or not begun |
| `Runs.KeyKept` | bindings/seshat/src/database/mod.rs:312-345 | a key that was sent or stored stays queued or stored through any messages that do not delete its id, and is stored once a write was handled |
| `Runs.CommitStoresSentEvents` | bindings/seshat/src/database/mod.rs:343-345 | when the reply to a commit arrives, every event sent before it is stored, unless a deletion of its id was sent in between |
| `SentEvents.WriteStoresFirst` | bindings/seshat/src/database/writer.rs:66-80 | of the queued events with one new key a write stores the first, with every column, and hands its document to the index with its own text |
| `SentEvents.FirstSentIsStored` | bindings/seshat/src/database/mod.rs:249-345 | an event that is sent when its key is neither stored nor queued is stored by the next write exactly as it was sent, whatever was sent with the same key after it |
| `LostEvent.StoredAgainWhilePendingIsLost` | bindings/seshat/src/database/writer.rs:109-126 | a concrete kind of run, from the empty stores: an event stored again while its deletion is pending, after which a crash-free shutdown and the next forced write leave it without a document |
| `Storage.Connection.SaveEvent` | bindings/seshat/src/database/static_methods.rs:559-604 | the method on the tables does what the function about which soundness is proved says, error cases included |
| `Storage.Connection.LoadUncommittedEvents` | bindings/seshat/src/database/static_methods.rs:491-519 | returns, in some order and each once, exactly the joined uncommitted rows, with every field of their events |
| `WriterThread.IndexWriter.CommitHelper` | bindings/seshat/src/index/mod.rs:134-147 | commits exactly if something was added and the commit is forced, the rate is reached or the time has passed; then everything pending is durable and the counter zero, otherwise nothing changes |
| `WriterThread.IndexWriter.DeleteEvent` | bindings/seshat/src/index/mod.rs:173-177 | removes every document with the id, commits everything pending at once, and leaves the counter alone |
| `WriterThread.Writer.MarkEventsAsIndexed` | bindings/seshat/src/database/static_methods.rs:123-150 | the loop over chunks of fifty deletes exactly the remembered rows in one transaction and clears the vector; with an empty vector nothing is committed |
| `WriterThread.Writer.MarkEventsAsDeleted` | bindings/seshat/src/database/static_methods.rs:93-120 | the same for the pending deletions |
| `WriterThread.Writer.WriteEventsHelper` | bindings/seshat/src/database/static_methods.rs:40-64 | the draining loop saves the batch and hands over the documents as the function on tables says |
| `WriterThread.Writer.WriteEvents` | bindings/seshat/src/database/static_methods.rs:152-190 | the whole state after a write, with its log of durable states, is that of the state machine |
| `WriterThread.Writer.WriteQueuedEvents` | bindings/seshat/src/database/writer.rs:66-80 | the same for a queued write, which empties the queue even when it fails |
| `WriterThread.Writer.WriteHistoricEvents` | bindings/seshat/src/database/writer.rs:82-107 | the same for a crawl batch |
| `WriterThread.Writer.DeleteEvent` | bindings/seshat/src/database/static_methods.rs:66-91 | the same for a deletion; the foreign key makes the deletion of a waiting event fail and roll back, and the answer to any other says whether it is settled |
| `WriterThread.Writer.LoadUnprocessedEvents` | bindings/seshat/src/database/writer.rs:109-126 | the same for replay, for whatever order the two queries answer in |
| `WriterThread.Writer.Receive` | bindings/seshat/src/database/mod.rs:257-297 | one turn of the message loop is one step of the state machine, reply included |
| `WriterThread.Writer.Serve` | bindings/seshat/src/database/mod.rs:249-301 | the receive loop performs a run of the state machine over the first messages with their clocks, answers each with the reply of the machine, stops early only after a shutdown, and keeps the invariant; so the run theorems are about this loop |
| `Duplicates.HandleUniqueIff` | bindings/seshat/src/database/mod.rs:257-297 | a clean message leaves no event indexed twice if and only if it does not replay an event that waits for the index although the index has it |
| `Duplicates.RunUnique` | bindings/seshat/src/database/writer.rs:109-126 | a clean run whose sessions never begin to write on such a store indexes no event twice, in no state that a crash may leave behind |
| `WaitingRows.RunPendingWaits` | bindings/seshat/src/index/mod.rs:134-177 | in every run, crashes included, each document that is pending in the index belongs to a row that still waits in the event store |
| `WaitingRows.StaleIffBetween` | bindings/seshat/src/database/static_methods.rs:152-190 | a crash point of a tidy message leaves an event waiting although the index has it, if and only if it lies between an index commit that added an event and the bookkeeping that belongs to it |
| `WaitingRows.HandleCurrentIff` | bindings/seshat/src/database/static_methods.rs:66-190 | a clean message leaves no such store behind if and only if it is tidy: a deletion comes when no document is pending or is refused, and a first write that replays both added and deleted events commits what it adds, by force, by time or by rate |
| `StaleStores.TidyRunUnique` | bindings/seshat/src/database/mod.rs:249-301 | from empty stores, clean and tidy runs whose crashes do not fall in between index no event twice |
| `IndexedTwice.CrashIndexesTwice` | bindings/seshat/src/database/writer.rs:109-126 | a run from empty stores: a crash between the index commit and the bookkeeping, after which the next forced write leaves the same document twice in the index |
| `IndexedTwice.DeletionIndexesTwice` | bindings/seshat/src/index/mod.rs:173-177 | a run without any crash that does the same: a deletion commits a document whose event still waits, then the process shuts down |
| `IndexedMatches.MatchesDistinctIff` | bindings/seshat/src/index/mod.rs:239-317 | the matches of every search are distinct if and only if no two documents of the index carry one event id |
| `IndexedMatches.WrittenIndexPaginates` | bindings/seshat/src/database/mod.rs:262-281 | after a clean and tidy run and a forced write the index holds each stored event exactly once, and the matches of every search are distinct, as pagination needs them, if and only if no id is stored in two rooms |
| `Searcher.CollectPage` | bindings/seshat/src/index/mod.rs:270-300 | the loop collects the first results, in rank order, that are fetchable and not among the earlier ones, and stops when the page is full |
| `Queries.FieldsSearched` | bindings/seshat/src/index/mod.rs:154-228 | a search looks into the field in which the text of an event was indexed exactly if its kind is among the keys, or there are none; bodies, topics and names have a field each; and it looks into the room field exactly if a room is given |
| `Queries.TextSearched` | bindings/seshat/src/index/mod.rs:205-213 | the text for the query parser, in a room, without one, and for an empty term |
| `Searcher.SearchHelper` | bindings/seshat/src/index/mod.rs:239-317 | terminates, and whatever limit it starts with returns the number of all matches and the page of the whole ranking; each result is a match in the list of the order that was asked for, with score 1.0 by recency and with its own otherwise |
| `Searcher.IndexSearcher.Search` | bindings/seshat/src/index/mod.rs:319-388 | the cache and the answer after a search that nobody interrupts are those of the specification: a token that is still known is touched even if the query then fails, the stored list is the new page followed by all earlier ids, the first term and configuration are kept, and a token is handed out exactly if the list is not as long as the matches |
| `Searcher.IndexSearcher.LookUpPast` | bindings/seshat/src/index/mod.rs:324-329 | the part under the first lock: the earlier search of the token, if it is still known, which becomes the most recently used |
| `Searcher.IndexSearcher.SearchFrom` | bindings/seshat/src/index/mod.rs:331-388 | the part after it, up to the insertion under the second lock: the rest of the specification for the earlier search that was looked up, whatever the cache holds by then |
| `Searcher.CallIsTurn` | bindings/seshat/src/index/mod.rs:319-388 | whatever others do with the cache between its look-up and its insertion, a search returns the page of its specification and no token exactly if the ids so far are as many as the matches; otherwise its new token is the most recently used entry and stands for page plus earlier ids under the first configuration |
| `Searcher.SearchFailsIff` | bindings/seshat/src/index/mod.rs:319-355 | a search fails exactly if its query does not parse, with the rooms and fields of the search it continues, and then stores nothing |
| `Searcher.FollowedFromStart` | bindings/seshat/src/index/mod.rs:319-388 | a client that follows tokens, while others use the cache for fewer than a hundred distinct tokens between its calls, and as they like in the middle of them, sees exactly the chain of pages of the first configuration |
| `Searcher.ClientPartition` | bindings/seshat/src/index/mod.rs:319-388 | on one snapshot with distinct, fetchable matches, for any limits >= 1 and any choice of order per call, the pages return no event twice, only matches, and as many as asked for; no further token exactly when all were returned, after at most one page per match |
| `Searcher.ClientInOrder` | bindings/seshat/src/index/mod.rs:250-388 | with one order throughout, the pages concatenate, as far as it was asked for, to the list of the snapshot for that order: by recency each match with the score 1.0, otherwise each with its own |
| `Searcher.ClientNoRepeats` | bindings/seshat/src/index/mod.rs:289-295 | no event is on two pages of a chain, even if the index, the term and the order change between the calls |
| `Searcher.ReuseGivesSamePage` | bindings/seshat/src/index/mod.rs:324-344 | using any token that is still known, and using it again on the same snapshot with the same arguments, undisturbed in between, returns the same page and count |
| `Pagination.ChainPartitions` | bindings/seshat/src/index/mod.rs:319-388 | the pages of a chain on one snapshot partition the matches as far as asked |
| `Pagination.SameMatchesDistinct` | bindings/seshat/src/index/mod.rs:249-272 | if one order lists each match once, so does the other that lists the same ids in the same number |
| `Pagination.ChainLength` | bindings/seshat/src/index/mod.rs:319-388 | a chain has at most one page per match that is left |
| `Pagination.PagesConcatenate` | bindings/seshat/src/index/mod.rs:289-295 | with one order the pages are the ranked list cut into pieces |
| `Pagination.NoRepeats` | bindings/seshat/src/index/mod.rs:289-295 | two pages of a chain share no event id, whatever each call sees |
| `Pagination.ChainsEndIffDistinct` | bindings/seshat/src/index/mod.rs:366-381 | every chain with at least as many calls as matches ends, for all limits, if and only if every match can be fetched and no event id is indexed twice |
| `LruCaches.LruCache.GetMut` | bindings/seshat/src/index/mod.rs:325-326 | a hit moves the entry to the most recently used place, a miss changes nothing |
| `LruCaches.LruCache.Insert` | bindings/seshat/src/index/mod.rs:366-377 | an insertion evicts the least recently used entry of a full cache |
| `LruCaches.Residency` | bindings/seshat/src/index/mod.rs:324-377 | how long any entry stays: until the distinct keys behind it, with those used since, are as many as the capacity |
| `LruCaches.TokenResolvable` | bindings/seshat/src/index/mod.rs:324-377 | a token that was just used stays resolvable, for the same search, if and only if fewer distinct other tokens than the capacity were inserted or looked up since |
| `LruCaches.OneInsertionEvicts` | bindings/seshat/src/index/mod.rs:324-377 | counting insertions only is not enough: one insertion evicts the token if all others were looked up before it |
| `Crypto.Ctr.ApplyKeystream` | bindings/seshat/src/index/encrypted_stream.rs:108-113 | in place, each byte is combined with the keystream at its position, and the position advances by the whole buffer |
| `Crypto.MaskTwice` | bindings/seshat/src/index/encrypted_stream.rs:311-321 | applying a keystream twice at the same position gives the data back |
| `EncryptedStream.AesWriter.EncryptWrite` | bindings/seshat/src/index/encrypted_stream.rs:100-118 | what the sink holds is always vector and ciphertext of everything written so far; after the end it fails and changes nothing |
| `EncryptedStream.AesWriter.Finalize` | bindings/seshat/src/index/encrypted_stream.rs:121-135 | appends the code of the whole ciphertext once; a second time it fails and changes nothing |
| `EncryptedStream.AesWriter.Drop` | bindings/seshat/src/index/encrypted_stream.rs:155-169 | dropping ends the file unless it was ended |
| `EncryptedStream.NewIv` | bindings/seshat/src/index/encrypted_stream.rs:72-74 | the vector has the requested size, begins with the random bytes, and is zero from its middle on |
| `EncryptedStream.Create` | bindings/seshat/src/index/encrypted_stream.rs:66-94 | fails exactly if the cipher refuses key and vector, and then leaves the sink alone; otherwise the vector is written |
| `EncryptedStream.WriteFile` | bindings/seshat/src/index/encrypted_stream.rs:100-169 | the file is vector, ciphertext and code, independent of how the data is cut into writes and of how the file is ended |
| `EncryptedStream.ReadUntilMac` | bindings/seshat/src/index/encrypted_stream.rs:286-303 | never reads past the start of the code, and answers 0 exactly there or for an empty buffer |
| `EncryptedStream.Open` | bindings/seshat/src/index/encrypted_stream.rs:202-274 | opening a byte string, over a source with reads as short as it likes, answers with its verdict, and otherwise leaves source and keystream at the start of the ciphertext |
| `EncryptedStream.VerdictIff` | bindings/seshat/src/index/encrypted_stream.rs:202-274 | the verdict accepts a byte string if and only if the writer produces it under these keys for some vector that the cipher takes; each error stands for one defect: too short for a vector, too short for vector and code, not written under these keys, or a refused key |
| `EncryptedStream.FileLayout` | bindings/seshat/src/index/encrypted_stream.rs:88-135 | what is written, byte by byte: the vector, each byte of the plaintext combined with the keystream at its position, and the code of these bytes |
| `EncryptedStream.AesReader.ReadDecrypt` | bindings/seshat/src/index/encrypted_stream.rs:311-321 | decrypts what it read at the position of the keystream, which then advances by the whole buffer |
| `EncryptedStream.InStepDecrypts` | bindings/seshat/src/index/encrypted_stream.rs:311-321 | reads that find the keystream where the ciphertext is give the plaintext back |
| `EncryptedStream.DecryptsIffInStep` | bindings/seshat/src/index/encrypted_stream.rs:311-321 | a sequence of reads decrypts under every keystream if and only if each read that delivers something starts where the buffers before it end |
| `EncryptedStream.ReadToEnd` | bindings/seshat/src/index/encrypted_stream.rs:325-334 | reading with buffers of any positive sizes delivers the whole ciphertext once; from a source that fills its buffers the reads stay in step |
| `EncryptedStream.ReadFile` | bindings/seshat/src/index/encrypted_stream.rs:202-334 | opening and reading succeeds if and only if the bytes were written under these keys with an accepted vector; the verdict on them otherwise; and from a filling source the decrypted middle |
| `EncryptedStream.FileAccepted` | bindings/seshat/src/index/encrypted_stream.rs:202-274 | what the writer produced is accepted exactly if the cipher takes the key, and its middle decrypts to the plaintext |
| `EncryptedStream.WriteThenRead` | bindings/seshat/src/index/encrypted_stream.rs:100-334 | the round trip, for every plaintext, every cutting into writes, either way to end, and every sequence of buffer sizes |
| `KeyFiles.CountRoundTrip` | bindings/seshat/src/index/encrypted_dir.rs:338-460 | the 32-bit iteration count survives its four bytes |
| `KeyFiles.CountIsBigEndian` | bindings/seshat/src/index/encrypted_dir.rs:338-460 | the most significant of them comes first |
| `KeyFiles.LoadStoreKey` | bindings/seshat/src/index/encrypted_dir.rs:324-385 | loading answers as specified on every byte string: truncation, version, code, or count and decrypted key |
| `KeyFiles.LoadErrorsIff` | bindings/seshat/src/index/encrypted_dir.rs:324-385 | each error of loading stands for one defect of the bytes: shorter than 69, not version 1, or bytes 37 to 69 not the code of the other fields under the key derived from this passphrase with the stored salt and count |
| `KeyFiles.WrongPassphraseRefused` | bindings/seshat/src/index/encrypted_dir.rs:354-366 | a file that one passphrase opens is refused with any other whose derived key gives different codes |
| `KeyFiles.KeyFileLayout` | bindings/seshat/src/index/encrypted_dir.rs:433-519 | the 101 bytes of a key file: version, vector, salt, big-endian count, code of all but the count, and the store key combined with the keystream; the keys are the halves of what is derived from the passphrase |
| `KeyFiles.EncryptStoreKey` | bindings/seshat/src/index/encrypted_dir.rs:433-484 | writes exactly the key file of the format; a key of another length stops before the file is touched |
| `KeyFiles.WrittenLoads` | bindings/seshat/src/index/encrypted_dir.rs:324-484 | loading what was written, with any trailing bytes, returns the same count and key |
| `KeyFiles.LoadInvertsKeyFile` | bindings/seshat/src/index/encrypted_dir.rs:324-484 | a full key and count come out if and only if the file is, up to trailing bytes, the one written for them under some vector and salt |
| `EncryptedDirectories.OpenDirectory` | bindings/seshat/src/index/encrypted_dir.rs:196-235 | opening or creating answers and changes the folder as specified, error cases included |
| `EncryptedDirectories.OpenAnswers` | bindings/seshat/src/index/encrypted_dir.rs:196-235 | opening an existing folder: which error stands for which reason, and otherwise the halves of what is expanded from the store key |
| `EncryptedDirectories.Change` | bindings/seshat/src/index/encrypted_dir.rs:270-302 | changing the passphrase rewrites the key file for the loaded key, or leaves it alone and says why |
| `EncryptedDirectories.ChangeAnswers` | bindings/seshat/src/index/encrypted_dir.rs:270-302 | a change that succeeds lets the new passphrase in, with the same store key, and locks the old one out; one that fails changes nothing, and each error stands for one reason |
| `EncryptedDirectories.ReadIffWritten` | bindings/seshat/src/index/encrypted_dir.rs:589-606 | a file is read as this content if and only if it was written with this content under the same keys |
| `EncryptedDirectories.ForeignFileRefused` | bindings/seshat/src/index/encrypted_dir.rs:305-319 | stores whose expanded keys give different codes do not accept each other's files |
| `EncryptedDirectories.EncryptedMmapDirectory.Write` | bindings/seshat/src/index/encrypted_dir.rs:608-621 | stores the encrypted file of the data under the name |
| `EncryptedDirectories.EncryptedMmapDirectory.Read` | bindings/seshat/src/index/encrypted_dir.rs:589-606 | returns what the file decrypts to, or the error of its verdict, for all buffer sizes |
| `EncryptedDirectories.RunHolds` | bindings/seshat/src/index/encrypted_dir.rs:196-302 | every run of openings, writes and passphrase changes, good or bad, keeps the contents of the abstract directory, and the store key never changes once it exists |
| `EncryptedDirectories.FilesSurvive` | bindings/seshat/src/index/encrypted_dir.rs:196-621 | from an empty directory: opening with the current passphrase reads every file as it was last written |
| `EncryptedDirectories.OpenHandleSurvives` | bindings/seshat/src/index/encrypted_dir.rs:270-302 | keys obtained before any number of passphrase changes still read every file |
| `Reindex.EventReadBackIff` | bindings/seshat/src/database/recovery.rs:170-228 | a stored source is read back as an event exactly if it carries its fields and the timestamp fits into a signed 64-bit integer |
| `Reindex.RoomEventsReadBack` | bindings/seshat/src/database/recovery.rs:170-228 | a message with its text under content.body, a topic under content.topic and a name under content.name are read back as exactly that event |
| `Reindex.ReadBackWasRoomEvent` | bindings/seshat/src/database/recovery.rs:170-228 | and nothing else is: every event that is read back comes from such an object |
| `Reindex.SelectAfter` | bindings/seshat/src/database/static_methods.rs:636-675 | with distinct timestamps, continuing from the event of a row selects exactly the messages after it, except those that carry its id in another room |
| `Reindex.IndexedIsReached` | bindings/src/recovery_database_bindings.rs:176-202 | with distinct timestamps, and event ids shared or not, the loop ends, and what it indexes is the walk that goes on after the last parsable row of each window of 500, skips the id of that row, and stops at a window in which nothing parses |
| `Reindex.ReindexCoversIff` | bindings/src/recovery_database_bindings.rs:176-202 | with distinct timestamps the loop ends within one round more than there are messages, indexes each parsable message at most once, newest first, and all of them if and only if none is passed over: behind a window in which nothing parses, or with the id of the last event of the batch before |
| `Reindex.PassedOverIsGap` | bindings/src/recovery_database_bindings.rs:186-197 | where no id occurs twice, something is passed over if and only if 500 consecutive rows that do not parse lie before one that does |
| `Reindex.ReindexCompleteIff` | bindings/src/recovery_database_bindings.rs:176-202 | so with distinct timestamps and ids every parsable message is indexed, once and newest first, if and only if no 500 consecutive rows that do not parse lie before one that does, for any number of rounds within which the loop ends |
| `TieCoverage.ReindexEndsIff` | bindings/src/recovery_database_bindings.rs:186-197 | for any ties and any rows that do not parse, and no id twice, the loop ends if and only if nothing parses in the first batch, or the first timestamp from which a batch reaches no older message has a single one in that batch |
| `TieCoverage.TimesIndexed` | bindings/src/recovery_database_bindings.rs:176-202 | how often a loop that ends has indexed each message, where no id occurs twice: once if it was reached, and once more if a batch ended at a later row with its timestamp |
| `TieCoverage.TiesCoveredIff` | bindings/src/recovery_database_bindings.rs:176-202 | then every message is indexed, and none more than twice, if and only if none that parses lies beyond a first batch in which none does, or beyond the batch of that first timestamp |
| `SharedIds.SelectFromTie` | bindings/seshat/src/database/static_methods.rs:636-675 | with any ties and shared ids, continuing from the event of a row selects exactly the messages from the first of its timestamp on, except those that carry its id |
| `SharedIds.EndsWithinBound` | bindings/src/recovery_database_bindings.rs:186-197 | whatever the rows are, with ties, shared ids and rows that do not parse: the loop ends within one round more than there are messages, or never |
| `SharedIds.OnlyMessagesIndexed` | bindings/src/recovery_database_bindings.rs:176-202 | whatever the rows are and wherever the loop is stopped, it has indexed only events of stored messages |
| `SharedIds.NoIdLost` | bindings/src/recovery_database_bindings.rs:176-202 | with any ties, shared ids and rows that do not parse: if no 500 of those follow each other before one that parses, whichever id is skipped, then a loop that ends has indexed exactly the event ids of the messages that parse, so that only further messages with the id of an indexed one can be missing |
| `SharedIds.ParsingNoGaps` | bindings/src/recovery_database_bindings.rs:176-202 | where every message parses this condition holds |
| `SharedIds.SharedReindexEndsIff` | bindings/src/recovery_database_bindings.rs:186-197 | if every message parses, with any ties and shared ids: the loop ends only if all the oldest messages carry one id; where no timestamp is shared by more than 500 messages this is enough; and where one is, the loop never ends, unless an id is so frequent there that fewer than 500 messages of that time are without it |
| `SharedIds.ParsableReindexEndsIff` | bindings/src/recovery_database_bindings.rs:186-197 | if every message parses and no two share both timestamp and id, the loop ends if and only if the oldest timestamp is not shared and no timestamp is shared by more than 500 messages |
| `ReindexExamples.TiedNeverEnds` | bindings/src/recovery_database_bindings.rs:186-197 | two messages with one timestamp, on which the loop does not end within any number of rounds |
| `ReindexExamples.HiddenNotIndexed` | bindings/src/recovery_database_bindings.rs:186-197 | a message behind 500 rows that do not parse, which a loop that ends does not index |
| `ReindexExamples.SharedIdNotIndexed` | bindings/seshat/src/database/static_methods.rs:641-657 | a message that shares the id of the last event of a batch, in another room, is taken for that event and not indexed, although it parses |
| `ReindexExamples.SharedIdPassedOver` | bindings/seshat/src/database/static_methods.rs:641-657 | the condition of `ReindexCoversIff` recognises this store |
| `Rebuilt.CarriedIsFaithful` | bindings/seshat/src/database/recovery.rs:170-228 | if every source that is JSON carries the columns of its row, then reading rows back gives what the columns say |
| `RecoveryDatabases.RecoveryDatabase.DeleteTheIndex` | bindings/seshat/src/database/recovery.rs:139-168 | drops the writer, empties the index and remembers that it was deleted; the flag and the version stay |
| `RecoveryDatabases.RecoveryDatabase.OpenIndex` | bindings/seshat/src/database/recovery.rs:271-282 | succeeds exactly after a deletion with no writer open, and then starts with nothing pending |
| `RecoveryDatabases.RecoveryDatabase.IndexEvents` | bindings/seshat/src/database/recovery.rs:311-322 | adds the documents in order and counts them; fails without a writer |
| `RecoveryDatabases.RecoveryDatabase.Commit` | bindings/seshat/src/database/recovery.rs:331-339 | the rate-limited commit of the session, or an error without a writer |
| `RecoveryDatabases.RecoveryDatabase.CommitAndClose` | bindings/seshat/src/database/recovery.rs:345-355 | makes everything pending durable first and only then clears the flag; without a writer it changes nothing |
| `RecoveryDatabases.RecoveryDatabase.LoadEventsDeserialized` | bindings/seshat/src/database/recovery.rs:236-250 | the parsable events of the selected rows, in their order |
| `RecoveryDatabases.RecoveryDatabase.Reindex` | bindings/src/recovery_database_bindings.rs:176-202 | for every store on which the batches end: the index then holds exactly what the batches reach, the counter grew by that number, the flag is cleared last, every state before kept the flag and a beginning of the new index, and if the rows are those of this store and nothing that parses is missed, the index is restored for the tables of this store |
| `Recovery.RebuildCrashSafeIff` | bindings/src/recovery_database_bindings.rs:176-202 | whatever is indexed and committed between deleting the index and closing: each cut after the beginning leaves a store that knows its index is incomplete, or a complete one, if and only if the flag was set before (or nothing is to be indexed); deleting the index does not set it |
| `RecoveryDatabases.VersionTables.GetVersion` | bindings/seshat/src/database/static_methods.rs:205-284 | the migration code passes through exactly the durable states of its specification and ends as it does |
| `Recovery.MigrationSurvivesCrashes` | bindings/seshat/src/database/static_methods.rs:261-283 | from version 2 or 3, however often opening is cut short, the next opening ends at version 4 with the flag set, and normal use is refused |
| `Recovery.NewStoreOpens` | bindings/seshat/src/database/static_methods.rs:205-284 | a new store opens for normal use, however often its first openings were cut short |
| `Recovery.RenameMustNotBeCut` | bindings/seshat/src/database/static_methods.rs:205-259 | however often the openings of a version 1 store are cut short, with or without a row for the flag: the next one ends at version 4 with the flag set, unless one was cut between the rename and the new version; then it fails |
| `Recovery.StuckForever` | bindings/seshat/src/database/static_methods.rs:243-258 | and then every later opening fails |
| `Recovery.OpenDatabaseIff` | bindings/seshat/src/database/mod.rs:120-134 | for every store: opening for normal use succeeds exactly for a new store or one at version 4 without the flag, and each error stands for one kind of store |
| `Recovery.SessionAnswers` | bindings/seshat/src/database/recovery.rs:271-355 | what each operation of a recovery session refuses, when it commits, and that a commit loses no document |
| `Recovery.FlagClearsOnlyComplete` | bindings/seshat/src/database/recovery.rs:271-355 | in any run of operations cut short anywhere, the flag is cleared only by closing a session whose writer was opened after the index was deleted, and the index then holds every document added through that writer |
| `Rebuilt.ReindexNoGhosts` | bindings/src/recovery_database_bindings.rs:176-202 | whatever the order of the rows and the ids in them, a reindex leaves no document without a stored event |
| `Rebuilt.ReindexRestores` | bindings/src/recovery_database_bindings.rs:176-202 | a reindex that ends and misses nothing that parses (beyond the loop where timestamps are shared, passed over where ids are) restores the invariants of the writer: no ghosts, and completeness if and only if every stored row that is no message, or does not parse, is still uncommitted |

## Left out

- The JNI bindings and their Kotlin wrappers, apart from the reindex loop: foreign calls and user interface.
- The inside of the full-text index (tokenizing, scoring, query parsing, merging) and of SQLite and its pool: the model states what they answer.
- Failures of SQL or of the index for reasons of input and output, and strings with null bytes: a batch that fails in the middle leaves documents pending after its rollback, and the invariants are for stores that do not fail.
- Loss of power: with `synchronous = NORMAL` a commit may be undone by it, but not by the crash of the process.
- Clocks and randomness are parameters: whether the commit time has passed, tokens, vectors, salts and keys.
- `load_event_context`, `load_events`, `load_file_events`, profiles and room statistics as read operations.
- Row ids and counters are unbounded integers: SQLite's behaviour at the largest row id and overflow of the counters are not modelled.
- EncryptedStream.ReadUntilMac: does not model the cast of the remaining length to a 32-bit `usize`, nor a source that writes into the part of the buffer that it does not deliver.
- Crypto.Ctr.ApplyKeystream: the keystream has no end, so the errors for reaching it are not modelled.
- KeyFiles.EncryptStoreKey: rewriting the key file is one step; a crash in the middle of it is not modelled, and neither is the strength of the primitives.
- EncryptedDirectories.EncryptedMmapDirectory.Write: files written piecewise through the directory use the same stream writer, but appear here as one write; watching, locking and deleting files are not modelled.
- RecoveryDatabases.RecoveryDatabase.DeleteTheIndex: the files are removed in one step, and no other process has the index open.
- TieCoverage.ReindexEndsIff: rows that do not parse together with ties, for messages of which no two share an event id. For shared ids as well, `EndsWithinBound` says how long to wait, but there is no condition on the rows alone.
- TieCoverage.TimesIndexed: counts by event id, and so for messages of which no two share one; with shared ids and ties `NoIdLost` and `OnlyMessagesIndexed` say what is indexed at least and at most.
- TieCoverage.TiesCoveredIff: the same; with shared ids but distinct timestamps the exact condition is that of `ReindexCoversIff`.
- SharedIds.SharedReindexEndsIff: where more than 500 messages share a timestamp and all but fewer than 500 of them share one id, the exact condition is missing; `EndsWithinBound` holds there, and the loop still ends only if all the oldest messages carry one id.
- RecoveryDatabases.RecoveryDatabase.LoadAllEvents: rows with equal timestamps are listed in one fixed order, which SQLite does not promise.
- Database encryption, unlocking and changing the passphrase of the event store.
