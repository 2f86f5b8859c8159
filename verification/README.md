# EliteSQL model

This project models the parts of EliteSQL whose correctness depends on many pieces agreeing, and proves what they
promise. `dafny verify dfyconfig.toml` checks all of it.

- **Leveled secondary index** (`OverlayMerge`, `PairCodec`, `Utf8`, `KeyEncoding`, `IndexLayers`, `SecondaryIndex`,
  `IndexHistory`, `IndexReads`, `IndexDriver`): immutable versioned runs, a frozen overlay and a live overlay, read by two
  k-way merges. Over every history the index shows a plain map from keys to sets of ids, and every read is an exact batch
  of that map; an index driven by commits, freezes, publications and compactions carries its history along.
  That keys are prefix-free is proved from the key encoding; that a freeze is strictly newer than every run follows from
  the commit version, and two counterexamples show that both are needed.
- **Crash-recovery harness** (`CrashRecovery`, `CrashProtocol`, `CrashNumbers`, `Journal`, `CrashBytes`, `RowIds`):
  workers write an intent, change the database, write a commit, and are killed anywhere, also in the middle of an append
  to the journal file. Recovery always succeeds and accounts for everything once, and transaction numbers are not reused. Writing the snapshot and resetting the journal is one
  step of the model; a separate result says exactly when a rerun between the two succeeds.
- **Sidecar** (`RequestLine`, `Connection`, `SidecarCursor`, `SidecarWire`, `CursorBook`, `ClientCursor`, `ClientLock`,
  `ClientSessions`, `HandleLease`): line framing under arbitrary chunking, the state machine of one connection, the byte-budgeted cursor
  and what its replies read as, and on the client side the streaming cursor, the request lock and the lease on the
  native handle.
- **Pure cores**: the shell's statement splitter (`Splitter`, `SplitterTokens`, `SplitterText`), the exact-integer JSON
  parser (`JsonText`, `ExactJson`, `JsonRoundTrip`, `JsonSound`, `JsonMeans`, `JsonProto`), calendar arithmetic
  (`Civil`), three-level collation (`Collation`) and the interruptible catalog rewrite (`DdlRewrite`, `DdlFrames`,
  `DdlProtocol`).

Objects whose fields change in place are classes, loops are methods with invariants, and concurrent protocols are step
relations over which invariants are proved for every run (`Runs`).

Seven expectations turned out not to hold on all inputs; for each there is a concrete input and an exact condition:

- the shell and a whole-text split can disagree when a vertical tab or a Unicode space follows a comment line, because
  trimming removes such characters and the prompt passes over lines of them while the scanner counts them as code
  (`SplitterText.AgreesExactly` gives the condition on the text, `Splitter.PhantomExample` an input);
- recovery of the stress harness cannot be rerun between writing the snapshot and resetting the journal unless the
  cycle changed no row (`CrashProtocol.RerunAfterSnapshot`, `CrashProtocol.RerunCanFail`);
- the exact JSON parser loses a member called `__proto__` (`JsonProto.ExactUnlessProto`, `JsonProto.ProtoExample`);
- the Python client does not always keep others out of a transaction. Decoding an answer fails outside the handler that
  closes the connection, so after an undecodable answer to `begin` the lock is released on a usable connection; and a
  cursor whose `close` failed that way goes on fetching without the lock. Transactions are isolated exactly when neither
  happens while one is open (`ClientLock.IsolatedExactly`; the runs are `ClientLock.UndecodableBegin` and
  `ClientLock.FetchAfterFailedClose`);
- a streaming cursor of that client does not always deliver every row: rows in an answer it cannot decode are gone, and
  the query goes on behind them. If no row is too large for an answer, a query reported as finished was delivered whole
  exactly when every answer came in clear (`ClientCursor.Fetches`; the input is `ClientCursor.LostRow`);
- the comment in `crates/elitesql-core/src/ddl.rs` calls every step of a catalog rewrite idempotent; a rename is so
  exactly when the name it looks up occurs at most once, everything else always (`DdlRewrite.ApplyTwice`,
  `DdlRewrite.DuplicatesAreNotIdempotent`);
- a catalog rewrite keeps names unique only if the new name is free, which its callers check
  (`DdlRewrite.WellFormedAfter`, `DdlRewrite.ClashExample`).

The index source modelled is the archived copy of the engine file; its successor `crates/elitesql-core/src/db/secondary.rs`
keeps the same merge.

## Model

| member | source | states |
|---|---|---|
| `SecondaryIndex.SecIdx.IdsBatchInto` | benchmark-results/optimization-2026-09-19/iteration-02/before-secondary.rs:312-441 | for any layers over prefix-free keys, the result is exactly the first `limit` ids above `after` that the index holds for the key: ascending, no duplicates, none skipped |
| `SecondaryIndex.SecIdx.OrderedEntriesInto` | benchmark-results/optimization-2026-09-19/iteration-02/before-secondary.rs:446-548 | exactly the first `limit` live (key, id) pairs under a prefix of whole tuple components and past the resume pair, in tuple order |
| `SecondaryIndex.SecIdx.PageThrough` | crates/elitesql-core/src/db.rs:8682-8712 | resuming after the last id until a batch is short terminates and yields the whole set of ids of the key, ascending |
| `SecondaryIndex.SecIdx.ContainsPair` | benchmark-results/optimization-2026-09-19/iteration-02/before-secondary.rs:259-267 | true exactly when the layers hold the pair; the live overlay outranks the frozen one and the runs |
| `SecondaryIndex.SecIdx.PersistedPair` | benchmark-results/optimization-2026-09-19/iteration-02/before-secondary.rs:272-301 | decides a pair by the newest run operation folded with the frozen overlay, ADD winning ties between runs and DELETE ties with the overlay |
| `SecondaryIndex.SecIdx.Add` | benchmark-results/optimization-2026-09-19/iteration-02/before-secondary.rs:550-558 | new layers are the old ones with the pair added to `delta` and its tombstone withdrawn; `delta` and `removed` stay disjoint |
| `SecondaryIndex.SecIdx.Remove` | benchmark-results/optimization-2026-09-19/iteration-02/before-secondary.rs:560-581 | new layers are the old ones without the pair in `delta`, and with a tombstone only if a published layer shows it or could not be read |
| `SecondaryIndex.SecIdx.FreezeDelta` | benchmark-results/optimization-2026-09-19/iteration-02/before-secondary.rs:607-618 | moves both overlays into one frozen layer at the given generation, or does nothing when one is already frozen or there is nothing to freeze |
| `SecondaryIndex.SecIdx.ClearFrozen` | benchmark-results/optimization-2026-09-19/iteration-02/before-secondary.rs:626-630 | drops the frozen layer only if it is the very one named |
| `SecondaryIndex.SecIdx.Publish` | crates/elitesql-core/src/db/maintenance.rs:1228-1349 | a run of the operations of a frozen layer replaces that very layer; if another or none is frozen by then, nothing changes |
| `SecondaryIndex.AddVisible` | benchmark-results/optimization-2026-09-19/iteration-02/before-secondary.rs:550-558 | after an add every pair shows as before except the added one, which shows |
| `SecondaryIndex.RemoveVisible` | benchmark-results/optimization-2026-09-19/iteration-02/before-secondary.rs:560-581 | after a removal every pair shows as before except the removed one, which does not, although unpublished pairs get no tombstone |
| `SecondaryIndex.WalkOrder` | benchmark-results/optimization-2026-09-19/iteration-02/before-secondary.rs:446-548 | live pairs in ascending byte order are in ascending (key, id) order |
| `SecondaryIndex.TupleOrderIsTotal` | benchmark-results/optimization-2026-09-19/iteration-02/before-secondary.rs:446-548 | key first, id second is a strict total order, so a walk in that order repeats nothing |
| `SecondaryIndex.RunStreams` | benchmark-results/optimization-2026-09-19/iteration-02/before-secondary.rs:187-223 | cursors over the runs a range check lets through carry, for each id past `after`, all operations of that id in all runs |
| `SecondaryIndex.LiveIsWanted` | benchmark-results/optimization-2026-09-19/iteration-02/before-secondary.rs:312-441 | deciding an id from the merged streams gives what the layers say about it |
| `SecondaryIndex.LiveIsWantedPair` | benchmark-results/optimization-2026-09-19/iteration-02/before-secondary.rs:446-548 | deciding a pair from the merged streams gives what the layers say about it |
| `OverlayMerge.Merge` | benchmark-results/optimization-2026-09-19/iteration-02/before-secondary.rs:345-441 | the k-way merge over any number of sorted runs and four overlay streams outputs exactly the first `limit` live keys in order |
| `OverlayMerge.Decide` | benchmark-results/optimization-2026-09-19/iteration-02/before-secondary.rs:391-429 | a key is kept iff it is not removed in the live overlay and is added there or its newest older operation is an addition |
| `OverlayMerge.TiesDecided` | benchmark-results/optimization-2026-09-19/iteration-02/before-secondary.rs:272-301 | the greater generation decides; on a tie between runs the addition wins, an overlay's addition yields and its removal wins |
| `OverlayMerge.BatchUnique` | benchmark-results/optimization-2026-09-19/iteration-02/before-secondary.rs:312-441 | the answer to a batch question is unique, so any two correct merges agree |
| `OverlayMerge.BatchResume` | benchmark-results/optimization-2026-09-19/iteration-02/before-secondary.rs:312-441 | a full batch followed by the batch strictly after its last key is the batch of the combined size |
| `OverlayMerge.MergeLatest` | crates/elitesql-core/src/paged.rs:993-1036 | merging runs leaves, for every key, exactly its newest operation, in key order |
| `IndexLayers.MayContainSound` | crates/elitesql-core/src/paged.rs:388-393 | the range check never skips a run that holds an entry under the prefix |
| `IndexLayers.MayContainExact` | crates/elitesql-core/src/paged.rs:388-393 | it lets a run through exactly when some byte string under the prefix lies between its first and last key |
| `IndexLayers.ScanPrefix` | crates/elitesql-core/src/paged.rs:558-576 | the prefix cursor yields exactly the entries under the prefix and strictly past the resume key |
| `IndexLayers.PairStream` | benchmark-results/optimization-2026-09-19/iteration-02/before-secondary.rs:127-186 | an in-memory overlay walked as pairs yields exactly its pairs under the prefix and past the resume point, in pair order |
| `PairCodec.PairRoundTrip` | benchmark-results/optimization-2026-09-19/iteration-02/before-secondary.rs:633-662 | decoding inverts encoding for every key and every UTF-8 id, even if the key contains 0xff |
| `PairCodec.PairPartsInverse` | benchmark-results/optimization-2026-09-19/iteration-02/before-secondary.rs:650-662 | every byte string that decodes is the encoding of its parts |
| `PairCodec.PairOrder` | benchmark-results/optimization-2026-09-19/iteration-02/before-secondary.rs:633-648 | on prefix-free keys the byte order of pairs is the order of (key, id) tuples, both directions |
| `PairCodec.PairIsolation` | benchmark-results/optimization-2026-09-19/iteration-02/before-secondary.rs:633-648 | on prefix-free keys the prefix of one key starts the pairs of that key and no other |
| `PairCodec.PairIsolationNeedsPrefixFree` | benchmark-results/optimization-2026-09-19/iteration-02/before-secondary.rs:633-648 | without prefix-free keys the scan of one key meets pairs of another |
| `PairCodec.Utf8HasNoSeparator` | benchmark-results/optimization-2026-09-19/iteration-02/before-secondary.rs:650-662 | 0xff does not occur in well-formed UTF-8 (section 4 of RFC 3629) |
| `Utf8.ValidIsEncoded` | benchmark-results/optimization-2026-09-19/iteration-02/before-secondary.rs:650-662 | every byte string accepted as UTF-8 is the encoding of a sequence of scalar values (section 3 of RFC 3629) |
| `Utf8.EncodedIsValid` | benchmark-results/optimization-2026-09-19/iteration-02/before-secondary.rs:650-662 | and every such encoding is accepted |
| `PairCodec.OperationRoundTrip` | benchmark-results/optimization-2026-09-19/iteration-02/before-secondary.rs:664-679 | version and operation survive encoding for every 64-bit version |
| `PairCodec.OperationInverse` | benchmark-results/optimization-2026-09-19/iteration-02/before-secondary.rs:671-679 | every accepted value is the encoding of what it decodes to |
| `PairCodec.OperationOrder` | benchmark-results/optimization-2026-09-19/iteration-02/before-secondary.rs:664-679 | comparing encoded values as bytes is comparing (version, operation), so the greatest value is the newest operation |
| `KeyEncoding.TupleKeysPrefixFree` | crates/elitesql-core/src/db.rs:13680-13686 | no key of an index over n columns is a proper prefix of another |
| `KeyEncoding.ValueDelimited` | crates/elitesql-core/src/value.rs:349-416 | where the encoding of one value ends is decided by its own bytes, for every type |
| `KeyEncoding.TuplePrefixScan` | crates/elitesql-core/src/db.rs:13680-13686 | a byte prefix of complete components selects exactly the tuples that agree on them |
| `KeyEncoding.TupleNotInside` | crates/elitesql-core/src/db.rs:13680-13686 | a tuple key never ends inside the key of a tuple with at most as many components |
| `KeyEncoding.ValueOrder` | crates/elitesql-core/src/value.rs:349-416 | byte order of keys is value order for the scalar types, including floats by sign and magnitude and text with embedded zeros |
| `KeyEncoding.ValueInjective` | crates/elitesql-core/src/value.rs:349-416 | equal keys mean equal values, apart from the two zeros of floating point |
| `KeyEncoding.LittleEndianPlaces` | crates/elitesql-core/src/value.rs:349-416 | length fields are written least significant byte first |
| `KeyEncoding.TupleOrder` | crates/elitesql-core/src/db.rs:13680-13686 | byte order of composite keys is the lexicographic order of the tuples |
| `IndexHistory.HistoryShowsReference` | benchmark-results/optimization-2026-09-19/iteration-02/before-secondary.rs:550-630 | over every history of adds, removes, freezes, publications with and without coexistence, clears, run permutations and promotions, the visible view is a plain map of sets of ids |
| `IndexDriver.LiveIndex.Commit` | benchmark-results/optimization-2026-09-19/iteration-02/before-secondary.rs:550-581 | a commit adds and removes pairs on the index object and thereby extends its history by one step; the map it stands for changes as the changes say, in order |
| `IndexDriver.LiveIndex.Freeze` | crates/elitesql-core/src/db/maintenance.rs:1057-1069 | freezing at the committed version extends the history and leaves the map |
| `IndexDriver.LiveIndex.Publish` | crates/elitesql-core/src/db/maintenance.rs:1228-1349 | adopting the run written from the frozen overlay is two steps of the history, beside the overlay and instead of it, and leaves the map |
| `IndexDriver.LiveIndex.Promote` | crates/elitesql-core/src/db.rs:1972-2075 | compacting any of the runs extends the history and leaves the map |
| `IndexDriver.LiveIndex.Ids` | benchmark-results/optimization-2026-09-19/iteration-02/before-secondary.rs:312-441 | a batch read from an index driven like that is exactly the first ids of the map past the resume id |
| `IndexDriver.LiveIndex.Pairs` | benchmark-results/optimization-2026-09-19/iteration-02/before-secondary.rs:446-548 | a walk over it is exactly the first pairs of the map under the prefix, in tuple order |
| `IndexDriver.LiveIndex.AllIds` | crates/elitesql-core/src/db.rs:8682-8712 | paging through a key of it yields exactly the ids of the map |
| `IndexReads.ReadIds` | benchmark-results/optimization-2026-09-19/iteration-02/before-secondary.rs:312-441 | after any history, a batch of ids is exactly the first ids past the resume id that the plain map of all committed changes holds for the key |
| `IndexReads.ReadPairs` | benchmark-results/optimization-2026-09-19/iteration-02/before-secondary.rs:446-548 | after any history, a walk is exactly the first pairs of that map under the prefix and past the resume pair, in tuple order |
| `IndexReads.ReadAll` | crates/elitesql-core/src/db.rs:8682-8712 | after any history, paging through a key yields exactly the ids that map holds for it |
| `IndexHistory.StepKeeps` | crates/elitesql-core/src/db/maintenance.rs:1057-1069 | every single step keeps the invariant (disjoint overlays, agreeing and older generations, well-formed runs) and moves the view as the reference map moves |
| `IndexHistory.PersistedIsNewest` | benchmark-results/optimization-2026-09-19/iteration-02/before-secondary.rs:272-301 | when equal generations agree, a pair is decided by its newest operation in whichever layer it lies |
| `IndexHistory.PushKeeps` | crates/elitesql-core/src/db/maintenance.rs:1228-1349 | while the published run and the frozen overlay coexist nothing visible changes |
| `IndexHistory.PromoteKeeps` | crates/elitesql-core/src/db.rs:1972-2075 | replacing any selection of runs by their newest operations changes nothing visible, tombstones included |
| `IndexHistory.PermuteKeeps` | README.md:622-625 | the order of runs does not matter |
| `IndexHistory.ConsolidateKeeps` | crates/elitesql-core/src/db/maintenance.rs:1595-1658 | writing the live overlay as one more run at the committed version and clearing it changes nothing visible |
| `IndexHistory.FreezeKeeps` | crates/elitesql-core/src/db/maintenance.rs:1057-1069 | freezing at the committed version changes nothing visible and keeps generations strictly newer than the runs |
| `IndexHistory.ClearKeeps` | benchmark-results/optimization-2026-09-19/iteration-02/before-secondary.rs:626-630 | clearing a frozen overlay that a run covers changes nothing visible |
| `IndexHistory.ResidentStarts` | benchmark-results/optimization-2026-09-19/iteration-02/before-secondary.rs:226-234 | an index built from a map shows that map and starts a history |
| `IndexHistory.PublishAtEqualGenerationRevives` | benchmark-results/optimization-2026-09-19/iteration-02/before-secondary.rs:272-301 | if a freeze reused the generation of a run, publishing would bring a removed id back: the strictly newer generation is needed |
| `IndexHistory.TupleKeysUsable` | crates/elitesql-core/src/db.rs:13680-13686 | the keys of an index and the prefixes it is walked with satisfy what the reads require |
| `IndexHistory.Compact` | crates/elitesql-core/src/db.rs:1972-2075 | what the compactor writes is a sorted run holding the newest operation of every pair it read |
| `CrashProtocol.EveryRunRecovers` | crates/elitesql-core/examples/crash_stress.rs:597-668 | for every interleaving of workers and every kill point, no statement is refused, recovery ends without error, recovers exactly the database, and counts every intent and every applied mutation once |
| `CrashBytes.EveryByteRunRecovers` | crates/elitesql-core/examples/crash_stress.rs:447-503 | with the journal as file bytes and a kill leaving any proper prefix of the append in progress: in every run the file reads back without error, and recovery from what was read ends without error, recovers exactly the database and counts every applied mutation once |
| `CrashBytes.RunShows` | crates/elitesql-core/examples/crash_stress.rs:447-512 | every run on bytes, torn appends included, is a run of the protocol on whole events: the file always reads as the journal of that run |
| `CrashBytes.StepShows` | crates/elitesql-core/examples/crash_stress.rs:447-512 | each step on bytes (append, kill inside an append, recovery from the file, restart) is the same step on whole events |
| `CrashProtocol.RecoverySucceeds` | crates/elitesql-core/examples/crash_stress.rs:597-668 | recovery from any state satisfying the invariant: commits, resolved commits and resolved aborts add up to the complete intents |
| `CrashProtocol.ResolveStep` | crates/elitesql-core/examples/crash_stress.rs:634-649 | resolving one pending transaction against the database never ends in an impossible state: it lands on the side the database is on, one more is resolved, and the invariant between journal, database and counts is kept |
| `CrashProtocol.StepKeeps` | crates/elitesql-core/examples/crash_stress.rs:787-836 | every step of a worker, a kill, a recovery and a restart keeps the invariant between journal, database and worker models |
| `CrashProtocol.IntentKeeps` | crates/elitesql-core/examples/crash_stress.rs:787-801 | a durable intent keeps the invariant: at most one open mutation per row |
| `CrashProtocol.SqlKeeps` | crates/elitesql-core/examples/crash_stress.rs:801-834 | a statement moves the database from the before to the after side of its intent |
| `CrashProtocol.CommitKeeps` | crates/elitesql-core/examples/crash_stress.rs:835-836 | a durable commit record replays without a precondition mismatch |
| `CrashProtocol.RecoverKeeps` | crates/elitesql-core/examples/crash_stress.rs:597-668 | snapshot and database agree after recovery and the journal is empty |
| `CrashProtocol.RestartKeeps` | crates/elitesql-core/examples/crash_stress.rs:953-988 | workers restarted from the snapshot own disjoint rows and fresh sequence numbers |
| `CrashNumbers.NumbersAreUnique` | crates/elitesql-core/examples/crash_stress.rs:786-830 | along every run, across workers, kills, recoveries and restarts, no two durable intents carry the same transaction number |
| `CrashNumbers.SpentStays` | crates/elitesql-core/examples/crash_stress.rs:652-652 | once a number stands in the journal no step, in particular no recovery and no restart, makes it available again |
| `CrashProtocol.SqlAsPlanned` | crates/elitesql-core/examples/crash_stress.rs:787-836 | a planned statement is accepted and leaves exactly the planned row |
| `CrashProtocol.SeededInv` | crates/elitesql-core/examples/crash_stress.rs:670-725 | the seeded database satisfies the invariant |
| `CrashProtocol.NextSequence` | crates/elitesql-core/examples/crash_stress.rs:943-951 | one past the highest sequence the worker still owns, but never below the minimum |
| `CrashProtocol.IntentsAccounted` | crates/elitesql-core/examples/crash_stress.rs:606-622 | replaying a journal leaves every complete intent either committed or pending |
| `CrashProtocol.RerunAfterSnapshot` | crates/elitesql-core/examples/crash_stress.rs:665-666 | interrupted between writing the snapshot and resetting the journal, a second recovery succeeds if and only if the cycle had changed no row |
| `CrashProtocol.RerunCanFail` | crates/elitesql-core/examples/crash_stress.rs:665-666 | one committed insert makes that second recovery stop with a precondition mismatch |
| `CrashRecovery.RecoverCycle` | crates/elitesql-core/examples/crash_stress.rs:597-668 | the loops of recovery compute replay followed by resolution in ascending order of transaction |
| `CrashRecovery.ReplayJournal` | crates/elitesql-core/examples/crash_stress.rs:606-622 | one pass over the journal gives the replayed state, its first error, and the highest transaction id |
| `CrashRecovery.ResolvePending` | crates/elitesql-core/examples/crash_stress.rs:634-649 | uncertain transactions are resolved in ascending order against the reopened database |
| `Journal.TornJournalReadsBack` | crates/elitesql-core/examples/crash_stress.rs:438-503 | any events followed by any proper prefix of one more encoded event read back as exactly those events, with the exact torn byte count and the highest transaction id |
| `Journal.LineRoundTrip` | crates/elitesql-core/examples/crash_stress.rs:438-445 | an encoded event is one line and decodes to itself |
| `Journal.LinesRoundTrip` | crates/elitesql-core/examples/crash_stress.rs:438-503 | encoded events decode to themselves in order |
| `Journal.ChecksumRoundTrip` | crates/elitesql-core/examples/crash_stress.rs:438-445 | the eight hex digits of a checksum parse back and contain neither tab nor newline |
| `Journal.HexPlaces` | crates/elitesql-core/examples/crash_stress.rs:438-445 | each of the digits is the hexadecimal digit of its place, most significant first |
| `Journal.HexDigitText` | crates/elitesql-core/examples/crash_stress.rs:438-445 | checksum digits are written in lower case and read in either |
| `Journal.SummedLine` | crates/elitesql-core/examples/crash_stress.rs:464-503 | a line with a tab is an event if and only if the text before it parses to the checksum of the rest and the rest decodes; otherwise the error says which of the three failed |
| `Journal.UnsummedLine` | crates/elitesql-core/examples/crash_stress.rs:468-473 | a line without a tab is reported as having no checksum |
| `Journal.BadLineReported` | crates/elitesql-core/examples/crash_stress.rs:464-503 | a line that is no event makes the journal unreadable with that line's error, after any good events and whatever follows |
| `Journal.AlterationReported` | crates/elitesql-core/examples/crash_stress.rs:454-503 | an event whose text was altered so that its checksum differs is reported as a mismatch, at any place of the file |
| `Journal.ReadJournal` | crates/elitesql-core/examples/crash_stress.rs:454-503 | the reader cuts at the last newline and checks every line before it, or reports the corruption |
| `RowIds.PrefixIdentifiesWorker` | crates/elitesql-core/examples/crash_stress.rs:391-393 | an id starts with the prefix of a worker exactly when that worker owns it, whatever the number of digits |
| `RowIds.SequenceParses` | crates/elitesql-core/examples/crash_stress.rs:943-951 | the text behind the prefix parses back to the sequence number |
| `RowIds.PaddedPlaces` | crates/elitesql-core/examples/crash_stress.rs:391-393 | every place of a padded number shows its decimal digit, to the width and without further zeros |
| `RowIds.DigitText` | crates/elitesql-core/examples/crash_stress.rs:391-393 | the digits are the characters 0 to 9 |
| `RowIds.IdTextInjective` | crates/elitesql-core/examples/crash_stress.rs:391-393 | different rows have different ids |
| `Splitter.SameStatements` | crates/elitesql-cli/src/main.rs:616-641 | entering lines one at a time extracts the statements of the whole text, each minus a code-free prefix, if and only if no statement ends behind passed-over or dropped text in which a comment stands before a non-ASCII-space blank |
| `SplitterText.AgreesExactly` | crates/elitesql-cli/src/main.rs:514-541 | the same told from the text alone: the prompt, which passes over white lines, and a whole-text split agree if and only if no statement has comment lines in front and a non-ASCII-space blank between them and its first other character |
| `SplitterText.ShieldedIsHidden` | crates/elitesql-cli/src/main.rs:514-541 | a comment was let go of in front of such a blank exactly when some statement of the text has that shape |
| `Splitter.OrdinarySpacesAgree` | crates/elitesql-cli/src/main.rs:616-641 | in text with ordinary spaces only, line by line and all at once always agree |
| `Splitter.SameCountButPhantoms` | crates/elitesql-cli/src/main.rs:616-641 | the whole-text split finds as many statements plus the phantoms, so the counts agree exactly when there are none |
| `Splitter.PhantomExample` | crates/elitesql-cli/src/main.rs:643-672 | a comment line, then a vertical tab and a semicolon: one statement as a whole, none line by line |
| `Splitter.KeptBehindDropped` | crates/elitesql-cli/src/main.rs:616-641 | dropping text in front of a segment changes whether it is kept exactly for phantoms |
| `Splitter.BufferHoldsRest` | crates/elitesql-cli/src/main.rs:514-541 | after any lines the unfinished part of the text is what was passed over or dropped, followed by the buffer; what is gone neither ends a statement nor leaves a quote or comment open |
| `Splitter.FeedingKeepsState` | crates/elitesql-cli/src/main.rs:616-641 | clearing the buffer and passing lines over loses neither an open quote or comment nor any code but what was passed over |
| `Splitter.ScanConcat` | crates/elitesql-cli/src/main.rs:575-614 | scanning a newline-terminated text and then more is scanning the concatenation |
| `Splitter.ScanSql` | crates/elitesql-cli/src/main.rs:575-614 | the loop computes the statement ends and the final state that `SplitterTokens.TextScans` describes |
| `Splitter.HasSqlCode` | crates/elitesql-cli/src/main.rs:643-672 | true exactly when something other than ASCII space, semicolons and comments occurs |
| `SplitterTokens.TextScans` | crates/elitesql-cli/src/main.rs:575-614 | for a text written as plain characters, literals with inner quotes doubled, line and block comments and semicolons, perhaps left open at the end, the scanner returns exactly the offsets behind the semicolon tokens and the state of what was left open, and finds code exactly if a literal or a plain non-space character occurs |
| `SplitterTokens.EveryText` | crates/elitesql-cli/src/main.rs:575-614 | every text is written that way, so the grammar decides every input |
| `SplitterTokens.FirstStatement` | crates/elitesql-cli/src/main.rs:616-641 | a text with a semicolon token gives what stands up to the first one, trimmed, if that holds code, and then the statements of what follows |
| `SplitterTokens.NoStatement` | crates/elitesql-cli/src/main.rs:616-641 | a text without one gives no statement; it stays in the buffer unless it holds no code and nothing but perhaps a line comment is open |
| `SplitterTokens.TrimMeans` | crates/elitesql-cli/src/main.rs:621-621 | trimming takes white space off both ends, all of it and nothing else |
| `SplitterTokens.SpacesAre` | crates/elitesql-cli/src/main.rs:658-658 | trimming goes by the Unicode White_Space characters, the scanner by the ASCII ones without the vertical tab |
| `Splitter.Pending.Feed` | crates/elitesql-cli/src/main.rs:616-641 | a line is appended, and the statements and the buffer are those `SplitterTokens.FirstStatement` and `SplitterTokens.NoStatement` describe |
| `Splitter.Pending.Enter` | crates/elitesql-cli/src/main.rs:525-541 | at the prompt a line of white space is passed over while nothing is buffered; any other line is fed |
| `SidecarCursor.ServerCursor.Next` | crates/elitesql-cli/src/serve.rs:496-532 | a batch and what remains are what remained before; it is within rows and bytes, maximal, `done` exactly at exhaustion, and an oversized row stays for the next call |
| `SidecarCursor.NextBatch` | crates/elitesql-cli/src/serve.rs:713-754 | one request takes rows in order, makes progress or ends the query, refuses row counts outside 1 to 4096, and retains a row too large for the reply |
| `SidecarCursor.QueryNext` | crates/elitesql-cli/src/serve.rs:713-754 | the batch is written as the reply of `SidecarWire.ReplyReadsBack`, with or without a request id, and is within the response limit whenever its envelope is |
| `SidecarCursor.ReplyFits` | crates/elitesql-cli/src/serve.rs:713-754 | the running byte count is the exact size of the serialized rows in the reply |
| `SidecarCursor.BudgetIsWhatTheEnvelopeLeaves` | crates/elitesql-cli/src/serve.rs:734-749 | the budget is the response limit minus the envelope without its empty row array, for requests with and without an id |
| `SidecarWire.ReplyReadsBack` | crates/elitesql-cli/src/serve.rs:713-754 | for an id and rows that are any JSON documents, decoding and parsing the reply gives an object with that id, `ok` true and a result with `done` and the rows in order, and nothing else |
| `SidecarWire.ReplyWritten` | crates/elitesql-cli/src/serve.rs:713-754 | the bytes of the reply are the encoded text of that document, under every encoding that keeps ASCII as it is |
| `SidecarWire.ReplyMeans` | crates/elitesql-cli/src/serve.rs:753-753 | the document means the id if there is one, `ok`, `done` and the meanings of the rows in order |
| `SidecarWire.Utf8IsEncoding` | crates/elitesql-cli/src/serve.rs:713-754 | UTF-8 is such an encoding (section 3 of RFC 3629) |
| `SidecarWire.IdBytesCounted` | crates/elitesql-cli/src/serve.rs:734-749 | the bytes counted for a numeric request id are those it takes in the reply |
| `ClientCursor.Fetches` | bindings/python/elitesql/__init__.py:1078-1163 | for any sequence of fetches and closes, however each answer comes in: what is handed out is what was in the answers that could be decoded, in order and once, and all of it once the end is reported, with one release of the lock. On a clear connection that is a prefix of the query, and all of it at the end, and only a row that is too large keeps a fetch of everything from reaching the end. If no row is too large and the cursor was not used after a failed close, a finished query was delivered whole if and only if every answer came in clear |
| `CursorBook.EndIsFinale` | bindings/python/elitesql/__init__.py:1099-1139 | at the end of a query delivered and missing rows add up to all; nothing is missing exactly when all was delivered and, rows fitting, exactly when every answer came in clear |
| `CursorBook.SaneInOrder` | bindings/python/elitesql/__init__.py:1099-1131 | on a clear connection delivered, buffered and remaining rows are at all times the rows of the query, in order and once each |
| `CursorBook.HopelessIsTooLarge` | bindings/python/elitesql/__init__.py:1099-1108 | on a clear connection a fetch fails only on a row that is too large |
| `CursorBook.AnsweredRows` | bindings/python/elitesql/__init__.py:1099-1108 | a request under the lock costs rows if and only if the server could serve it and its answer could not be decoded |
| `ClientCursor.QueryCursor.FetchOne` | bindings/python/elitesql/__init__.py:1110-1120 | hands out the next row received, or none only at the end or after close; a failure hands out nothing and on a clear connection is a row that is too large |
| `ClientCursor.QueryCursor.FetchMany` | bindings/python/elitesql/__init__.py:1122-1131 | hands out the next rows received, fewer than asked only at the end or after close; on a clear connection these are the next rows of the query |
| `ClientCursor.QueryCursor.FetchAll` | bindings/python/elitesql/__init__.py:1133-1139 | hands out every row still to be received; on a clear connection all that remains of the query, unless a row is too large |
| `ClientCursor.QueryCursor.Fill` | bindings/python/elitesql/__init__.py:1099-1108 | the loop terminates with enough rows buffered, at the end, or stuck: connection lost, answer undecodable, no such cursor at the server, or an oversized row, and only the last on a clear connection |
| `ClientCursor.QueryCursor.Ask` | bindings/python/elitesql/__init__.py:1099-1108 | one exchange takes rows or ends the query or fails; under the lock it is one request more, for which rows were handed out exactly when the server could serve it and the connection held, and the client has them exactly when the answer came in clear |
| `ClientCursor.LostRow` | bindings/python/elitesql/__init__.py:1099-1108 | a query of one row whose only answer cannot be decoded: the server has handed the row out and the client will never have it |
| `ClientCursor.QueryCursor.Close` | bindings/python/elitesql/__init__.py:1150-1163 | always frees the lock; it succeeds exactly when the cursor was not active or its answer came in clear; a failed notification leaves the buffered rows and a cursor that is not finished, on a connection that may still be in use |
| `ClientCursor.Open` | bindings/python/elitesql/__init__.py:1078-1097 | the lock is held afterwards exactly when the cursor was opened |
| `RequestLine.ReadRequestLine` | crates/elitesql-cli/src/serve.rs:544-583 | without a deadline exactly the bytes through the first newline, the limit plus one, or the end are consumed, whatever the chunks |
| `RequestLine.ReadFrame` | crates/elitesql-cli/src/serve.rs:544-583 | every turn of the loop consumes bytes, and nothing is lost on expiry |
| `RequestLine.ReadConnection` | crates/elitesql-cli/src/serve.rs:361-414 | the requests handled are the leading acceptable frames of the byte stream, and the ending tells whether it was used up |
| `RequestLine.FramesPartition` | crates/elitesql-cli/src/serve.rs:544-583 | successive frames partition the stream |
| `RequestLine.FramesRoundTrip` | crates/elitesql-cli/src/serve.rs:544-583 | requests written back to back are read back one by one, whatever follows |
| `Connection.Serve` | crates/elitesql-cli/src/serve.rs:361-414 | for every sequence of requests, expiries and failed replies, every transaction ends exactly once, nothing stays open, and nothing reaches the engine of a token connection unless the token was presented, and then only after it |
| `Connection.EndIsFinal` | crates/elitesql-cli/src/serve.rs:837-847 | after commit, rollback, expiry or disconnect nothing more happens in the transaction's name, so it is published at most once and never after its end |
| `Connection.PublishedIsStaged` | crates/elitesql-cli/src/serve.rs:837-840 | what a commit publishes is exactly what the transaction staged, in order |
| `Connection.NeverBoth` | crates/elitesql-cli/src/serve.rs:697-777 | a transaction and a streaming cursor are never open together |
| `Connection.AllEnded` | crates/elitesql-cli/src/serve.rs:837-847 | a transaction that is no longer open has a publication or a rollback in the trace |
| `Connection.Conn.Dispatch` | crates/elitesql-cli/src/serve.rs:595-647 | authentication changes exactly when the right token is presented; before it every other request is answered that authentication is required and changes nothing; after it a request of a transaction begun more than 30 seconds ago is answered expired, and only such a one |
| `Connection.Conn.Handle` | crates/elitesql-cli/src/serve.rs:666-681 | if more than 30000 ms have passed since the open transaction began, it is dropped and the request answered expired without effect; otherwise the request has its effect and is never answered expired |
| `Connection.Conn.Execute` | crates/elitesql-cli/src/serve.rs:682-875 | every request keeps the connection in step with the trace; each has exactly its stated effect and reply (`query_close` tells whether a cursor was open), and those that need or forbid a transaction or cursor fail without effect |
| `Connection.Conn.CommitTxn` | crates/elitesql-cli/src/serve.rs:837-840 | commit takes the transaction and publishes what it staged or drops it; a commit that reports an error may still have been published |
| `Connection.Conn.InTxn` | crates/elitesql-cli/src/serve.rs:778-836 | a call on the transaction stages its writes even if it reports an error; missing fields or no transaction change nothing |
| `Connection.Conn.FetchRows` | crates/elitesql-cli/src/serve.rs:713-754 | a row count outside 1 to 4096 or no cursor fails without effect; the cursor is dropped at exhaustion and kept after an error |
| `Connection.Conn.Disconnect` | crates/elitesql-cli/src/serve.rs:361-414 | whatever is open is dropped, a transaction by rolling back |
| `Connection.TokenMatches` | crates/elitesql-cli/src/serve.rs:126-133 | the comparison that looks at every byte of both tokens decides exactly equality |
| `ClientLock.TransactionsAreIsolated` | bindings/python/elitesql/__init__.py:963-975 | in every interleaving, a request that arrives while a transaction is open is one of that transaction if and only if it was sent under the lock and the client learned that the transaction had been opened |
| `ClientLock.IsolatedExactly` | bindings/python/elitesql/__init__.py:894-936 | a whole run keeps its transactions apart if and only if nothing was sent after a begin the client gave up although the server had opened a transaction, and no cursor was fetched from after its failed close while one was open |
| `ClientLock.WhatGoesWrong` | bindings/python/elitesql/__init__.py:1150-1160 | a request without the lock follows a close that was answered but not with success; as long as there is none, a begin is given up wrongly only if its answer made no sense |
| `ClientLock.CleanRunsAreIsolated` | bindings/python/elitesql/__init__.py:886-975 | as long as the answer to every begin could be decoded and every answered close succeeded, transactions are isolated in every interleaving |
| `ClientLock.UndecodableBegin` | bindings/python/elitesql/__init__.py:930-930 | a run in which such an answer puts the statement of another activity inside the open transaction, on a connection still in use |
| `ClientLock.FetchAfterFailedClose` | bindings/python/elitesql/__init__.py:1099-1108 | a run in which every begin was answered, yet a fetch on a cursor whose close could not be confirmed goes out beside the lock and into the open transaction of another activity |
| `ClientLock.ResponsesMatch` | bindings/python/elitesql/__init__.py:886-944 | a response is taken only for a waiting request whose id it carries, and an answer is final; as long as no leftover cursor is used it is the last request sent and no other has its id |
| `ClientLock.BrokenIsFinal` | bindings/python/elitesql/__init__.py:886-944 | after a timeout or a mismatch nothing is sent, and no response is taken unless a leftover cursor was waiting beside the lock |
| `ClientLock.StepKeeps` | bindings/python/elitesql/__init__.py:886-975 | every step of every activity keeps the lock with its one holder, open transactions accounted for and, as long as no leftover cursor is used, request ids increasing, whether a request has no JSON text, its answer arrives, is lost, carries another id or cannot be decoded |
| `ClientSessions.EntitledOnly` | bindings/python/elitesql/__init__.py:886-1108 | in every interleaving, whoever is in a transaction or holds a cursor, also one left over by a failed close, sent the request that opened it and took a successful answer to it |
| `ClientSessions.AnswerMoves` | bindings/python/elitesql/__init__.py:886-1108 | an answer with the id waited for decides, by the request it answers and whether it is a success, where the activity goes and whether it keeps the lock |
| `HandleLease.ClosedOnceAndUnused` | bindings/python/elitesql/__init__.py:398-438 | in every interleaving of calls and closes the native handle is closed at most once and never while leased |
| `HandleLease.NoLeaseAfterClosing` | bindings/python/elitesql/__init__.py:420-433 | once a close has begun, no activity that was not using the handle gets it |
| `HandleLease.LeasedUnlessClosing` | bindings/python/elitesql/__init__.py:420-438 | in every reachable state an idle activity that asks gets the handle if and only if no close has begun, returning it restores the count, and nobody else is touched |
| `HandleLease.CloseIsNotStuck` | bindings/python/elitesql/__init__.py:398-438 | no wake-up is lost: a waiting close waits for a call in progress or can go on and finish |
| `HandleLease.ClosingCloses` | bindings/python/elitesql/__init__.py:398-407 | when all activities have come to rest after a close began, the handle was closed |
| `HandleLease.StepKeeps` | bindings/python/elitesql/__init__.py:398-438 | the count equals the leases, and the real handle is in the field, in one closer's hands, or closed |
| `JsonSound.ParseJsonExact` | bindings/node/elitesql.js:53-109 | succeeds exactly on the texts that are documents, however spelled and spaced, and then with the meaning of the document, members assigned in order as JavaScript does, also to `__proto__` |
| `JsonSound.ParsesExactly` | bindings/node/elitesql.js:53-109 | a text parses to a value if and only if it is the text of some document with that meaning |
| `JsonSound.MeaningIsUnique` | bindings/node/elitesql.js:53-109 | so a text has at most one meaning, however it is read as a document |
| `JsonSound.ValueSound` | bindings/node/elitesql.js:57-95 | whatever is read as a value is the text of a document up to where reading stopped, and the value is its meaning |
| `JsonRoundTrip.ValueParsed` | bindings/node/elitesql.js:57-95 | a document that ends at a delimiter is read exactly to its end wherever it lies, and the result is its meaning |
| `JsonRoundTrip.Value` | bindings/node/elitesql.js:57-95 | the loops and mutual recursion terminate on every text and compute the recursive parser |
| `JsonRoundTrip.ScanFindsClosingQuote` | bindings/node/elitesql.js:96-104 | the scan stops at the quote that really closes the string, whatever escapes precede it |
| `JsonRoundTrip.StringParsed` | bindings/node/elitesql.js:96-104 | a string token decodes to its characters (section 7 of RFC 8259) |
| `JsonSound.StringSound` | bindings/node/elitesql.js:96-104 | every accepted string token is a sequence of characters and escapes and decodes to their characters |
| `JsonRoundTrip.NumberParsed` | bindings/node/elitesql.js:87-94 | the pattern matches the whole number token and nothing of what follows |
| `JsonSound.NumberSound` | bindings/node/elitesql.js:87-94 | every match of the pattern is a number with the meaning given, leading zeros included |
| `JsonMeans.IntegerParses` | bindings/node/elitesql.js:87-94 | every integer written in decimal, with a minus sign and any leading zeros, parses to exactly that integer |
| `JsonMeans.DigitsAreNumeral` | bindings/node/elitesql.js:87-94 | every string of digits is a decimal numeral with leading zeros, of the value given to it |
| `JsonMeans.PlaceValue` | bindings/node/elitesql.js:91-91 | the value of digits obeys the law of place value |
| `JsonMeans.StringParses` | bindings/node/elitesql.js:96-104 | every string, each character written as it is, by its letter or by four hexadecimal digits of either case, parses to itself |
| `JsonMeans.LetterMeans` | bindings/node/elitesql.js:96-104 | the short escapes are those eight and no others |
| `JsonMeans.HexIsPrinted` | bindings/node/elitesql.js:96-104 | the hexadecimal digits accepted are those printed and no others |
| `JsonMeans.WordsMean` | bindings/node/elitesql.js:56-86 | the literal names, the punctuation and the white space are those of the grammar |
| `JsonMeans.ArrayMeans` | bindings/node/elitesql.js:73-82 | an array means the meanings of its elements in order |
| `JsonMeans.ObjectMeans` | bindings/node/elitesql.js:60-72 | an object has exactly the names of its members, each with the meaning of the last member of that name |
| `ExactJson.FromBigIsExact` | bindings/node/elitesql.js:90-93 | rounding to a double never makes an unsafe integer look safe, so integers of any size are exact |
| `ExactJson.NearestIsNearest` | bindings/node/elitesql.js:90-93 | the rounding is to the nearest double: a significand of at most 53 bits, normalized where bits are lost, at most half a unit away, even on a tie |
| `JsonProto.ExactUnlessProto` | bindings/node/elitesql.js:60-72 | for documents with distinct keys the result is the document's value if and only if no object in it has a member called `__proto__` |
| `JsonProto.ProtoExample` | bindings/node/elitesql.js:60-72 | `{"__proto__":null}` comes back as an object without properties |
| `JsonProto.RepeatedProtoExample` | bindings/node/elitesql.js:60-72 | once null has become the prototype, a repeated `__proto__` is an ordinary property |
| `JsonProto.ProtoChainExample` | bindings/node/elitesql.js:60-72 | behind a `__proto__` that is an object, a repeated one is a property exactly if that object's own prototype chain is cut |
| `Civil.CivilIsRight` | crates/elitesql-cli/build.rs:39-52 | for every day number, positive or negative, the result is a valid Gregorian date whose number, summed year by year and month by month, is the day |
| `Civil.CivilInverts` | crates/elitesql-cli/build.rs:39-52 | every valid date is the conversion of its own number |
| `Civil.CivilAdvances` | crates/elitesql-cli/build.rs:39-52 | the next day number gives the next day of the calendar |
| `Civil.StampIsRight` | crates/elitesql-cli/build.rs:28-36 | the fields are a valid time on a valid date and make up the seconds again |
| `Civil.StampsIncrease` | crates/elitesql-cli/build.rs:28-36 | later seconds give later stamps field by field, and only they do |
| `Collation.CompareIsKeyOrder` | crates/elitesql-core/src/collate.rs:83-91 | the three walks agree with lexicographic order of one concatenated sort key (section 1.1 of UTS #10) |
| `Collation.EqualMeans` | crates/elitesql-core/src/collate.rs:83-91 | equal exactly when all three weight sequences agree |
| `Collation.CompareReverses` | crates/elitesql-core/src/collate.rs:83-91 | swapping the operands reverses the outcome: any two strings are comparable |
| `Collation.CompareComposes` | crates/elitesql-core/src/collate.rs:83-91 | comparisons compose, strictly when one of them is strict |
| `Collation.LevelIsLexicographic` | crates/elitesql-core/src/collate.rs:83-91 | walking two strings on one level is comparing their weight sequences |
| `Collation.OneLetterDecides` | crates/elitesql-core/src/collate.rs:83-91 | two spellings that differ in one letter compare by its base, then its accent, then its case, whatever surrounds it |
| `Collation.AccentsRank` | crates/elitesql-core/src/collate.rs:122-153 | the accented forms of a letter sort in the documented order inside any word |
| `Collation.AlphabetDecides` | crates/elitesql-core/src/collate.rs:83-153 | words order by the alphabet at their first difference, whatever follows it and whatever accents of Latin-1 or Latin Extended-A the letters carry |
| `Collation.PlainBeforeForms` | crates/elitesql-core/src/collate.rs:122-200 | inside a word a letter precedes its accented forms of Latin-1 and Latin Extended-A |
| `Collation.LowerBeforeUpper` | crates/elitesql-core/src/collate.rs:115-118 | between spellings that differ only in capitals the first difference decides, lower case first |
| `Collation.CaseComesLast` | crates/elitesql-core/src/collate.rs:83-91 | words that differ in a letter or an accent compare the same with any other capitals |
| `Collation.EnyeIsItsOwnLetter` | crates/elitesql-core/src/collate.rs:166-169 | every word not starting with the enye lies on one side of every word that does, by its first letter alone |
| `Collation.LettersBeforeEnye` | crates/elitesql-core/src/collate.rs:101-107 | every word starting with n, with any accent, precedes every word starting with the enye |
| `Collation.LettersAfterEnye` | crates/elitesql-core/src/collate.rs:101-107 | every word starting with the enye precedes every word starting with o |
| `Collation.TieExample` | crates/elitesql-core/src/collate.rs:180-180 | distinct strings can compare equal: y with acute accent and y with diaeresis have the same weights |
| `DdlProtocol.InterruptionsDoNotShow` | crates/elitesql-core/src/ddl.rs:1-13 | after any number of crashes and replays a database with nothing pending equals the one the same statements give uninterrupted |
| `DdlProtocol.ReplaySettles` | crates/elitesql-core/src/ddl.rs:56-88 | from any crash with a pending record, opening, applying and clearing settles it |
| `DdlProtocol.RewriteIsFinal` | crates/elitesql-core/src/ddl.rs:141-202 | rewriting catalog and high-water marks again changes nothing |
| `DdlProtocol.MarksMove` | crates/elitesql-core/src/ddl.rs:145-151 | no identity high-water mark is lost, changed or left under the old table name |
| `DdlRewrite.ApplyTwice` | crates/elitesql-core/src/ddl.rs:154-202 | for any catalog at all, applying a rewrite twice is applying it once if and only if the name a rename looks up (the table, or the column in the first table found) occurs at most once or is renamed to itself |
| `DdlRewrite.ApplyIdempotent` | crates/elitesql-core/src/ddl.rs:154-202 | so every rewrite is idempotent on a catalog without repeated table or column names |
| `DdlRewrite.WellFormedAfter` | crates/elitesql-core/src/ddl.rs:154-202 | a rewrite keeps the catalog well-formed if and only if the new name is free |
| `DdlRewrite.ClashExample` | crates/elitesql-core/src/ddl.rs:159-163 | renaming a table onto a taken name breaks a well-formed catalog |
| `DdlRewrite.DuplicatesAreNotIdempotent` | crates/elitesql-core/src/ddl.rs:164-170 | with two columns of one name a second application renames the other one |
| `DdlRewrite.ApplyKeepsIndexes` | crates/elitesql-core/src/ddl.rs:154-202 | every index still names only existing columns and repeats the first of them |
| `DdlRewrite.RenameKeepsIndexes` | crates/elitesql-core/src/ddl.rs:164-185 | all three kinds of indexes follow a renamed column, even when the new name clashes |
| `DdlRewrite.DropKeepsGood` | crates/elitesql-core/src/ddl.rs:186-195 | dropping a column drops every index that names it and no other reference breaks |
| `DdlRewrite.Catalog.ApplyToCatalog` | crates/elitesql-core/src/ddl.rs:156-202 | the loops over tables, columns and indexes compute the specified catalog |
| `DdlFrames.ApplyFrames` | crates/elitesql-core/src/ddl.rs:156-202 | every table a rewrite does not concern is unchanged; the first table found is changed only in its name by a table rename, only in the first such column and in index references by a column rename, and by a drop loses exactly the columns and indexes naming the column, the rest in order and unchanged; rekeying marks exactly the tables with a column `id` and changes nothing else |
| `DdlFrames.ColumnsRenamed` | crates/elitesql-core/src/ddl.rs:164-170 | renaming changes the name of the first column found and of no other |
| `DdlFrames.IndexesKept` | crates/elitesql-core/src/ddl.rs:186-195 | the indexes left by a drop are exactly those that do not name the column, in order |

## Left out

- Engine internals (transactions, write-ahead log, manifest, MVCC, vector and text search, SQL parsing and execution) appear only as outcomes or contracts.
- Page layout, checksums and sorting of the paged index: a run is a sorted sequence of pairs and operations; the format-marker entry and the validation of a run on open are not modelled.
- `SecIdx::ids` asks for one unbounded batch; the model pages instead, which gives the same set.
- Machine widths: sequence numbers, transaction ids, byte counters and row counts are unbounded naturals; saturation and overflow at 64 bits are not modelled. Versions inside encoded operations are 64-bit.
- KeyEncoding: JSON and vector keys are assumed shorter than 2^32 bytes, as their length field requires; float bits are interpreted by sign and magnitude.
- JSON event text and CRC of the stress journal are an abstract codec; its contract is that decoding inverts encoding and that compact JSON has no raw newline.
- Select checks, compaction and metrics inside the stress worker loop change neither journal nor rows and are omitted.
- Shell dot commands and prompts: a command line at an empty buffer leaves the buffer alone, so the lines of the model are the others.
- SidecarCursor.ServerCursor.Next: when the engine cursor reports an error, rows gathered in that call are lost, as in the source; delivery is stated for cursors that do not fail.
- ClientCursor.Fetches: the engine cursor is assumed not to fail; lost and undecodable replies and oversized rows are covered. What a cursor left over by a failed close gets from cursors of others is a finite list of batches, and the numbers of their requests are not counted.
- Connection.Conn.Execute: the timeout control of queries and the size limits on buffered rows are part of the engine's outcome; responses above the size limit are replaced by an error elsewhere.
- ClientLock: closing the client and marking the connection unusable are one step each; activities are used by one thread at a time, except that a leftover cursor may run beside the lock holder, where request numbers may then race arbitrarily.
- Connection and ClientLock name requests by their operation and the presence of fields; field contents are opaque.
- HandleLease: the calling threads are activities that hold at most one lease or one close each.
- JsonSound.ParseJsonExact: where parsing fails, the message is not modelled. Objects are maps, so JavaScript's enumeration order of keys is not modelled, and non-integer numbers keep their token.
- Collation: the platform's lower-case and upper-case tables are arbitrary functions; results on case assume what they say of ASCII and Latin-1 letters.
- Civil: 64-bit overflow for day numbers near the ends of the range; the text formatting of the fields.
- DdlRewrite: foreign keys, which the rewrite does not touch, and the separate three-step ADD COLUMN; rows are rewritten with the catalog and only their table names and high-water marks are modelled.
- Constant-time behaviour of the token comparison; timing is outside a functional model.
- Real files, sockets, clocks, signals and threads: they are parameters, nondeterministic choices or steps of a state machine.
- Backup, integrity check, benchmarks, reports, plotting and command-line rendering.
