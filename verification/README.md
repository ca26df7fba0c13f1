# ForthDB, modelled and proved in Dafny

ForthDB is a database of facts. Every fact sits on a named slot; a define pushes a fact on its slot's stack, a forget
pops it, and the top of each stack is active. All change is recorded as commit frames, and every state, called a
world, is the replay of a history of frames. The same questions (what a slot resolves to, its definitions, pattern
queries over the active facts) are answered by four engines that share no data structure, and histories are stored by
protocols that have to survive failing I/O and crashes. This project models the engines, the byte formats, the
fault-handling stores, the two workers and the transaction compiler, and proves that the fast forms mean what the
simple ones mean and that the protocols lose and reorder nothing.

`dafny verify dfyconfig.toml` checks the whole project.

## What is modelled, and the main results

**Kernels and queries** (`Facts`, `Joins`, `Query`, `QueryLaws`, `RowLaws`, `Store`, `Indexes`, `ViewLaws`,
`LegacyKernel`, `Signature`, `Containers`, `SharedView`, `SharedKernel`, `Calls`, `KernelAgreement`). The reference is
naive: try every tuple of active facts, one per pattern. `QueryLaws.EveryPlanIsNaive` shows that the greedy join and
the left-to-right join return the same bag of bindings as the naive enumeration, each answer's provenance differing
only in order; `RowLaws.AllRows` and `RowLaws.DistinctRows` say exactly which rows are returned under any limit, with
and without duplicates, and `RowLaws.QueryTallies` what the counters count. The legacy kernel (linked heads in a log,
seven indexes) and the shared kernel (chunked log, two-level sharded maps, in-place index replacement, incremental
signatures) are classes proved against one abstract store, so `KernelAgreement.Differential` holds for every sequence
of calls and every query: equal definitions, history and results, metrics and chosen path included, and every
self-check passes. `Calls.LogTellsCalls` says what every record of the log means. Both query engines are proved
against the same walk function, so a result holds for every engine whose candidate lookup is faithful.

**Projection and snapshot** (`Commits`, `Projection`, `ProjectionAgreement`, `SortedIndex`, `Snapshot`,
`SnapshotLookup`, `SnapshotCreate`, `SnapshotSections`, `SnapshotFile`, `SnapshotSeal`, `SnapshotReopen`). The third
engine replays frames into stacks and position maps; `ProjectionAgreement.DifferentialReplay` makes it equal to the
kernel under every option. The fourth is the physical snapshot: strictly sorted string tables, tokenised cells, three
sorted triple indexes, binary searches; `SnapshotLookup.FoundIsSelection` and `FoundInOrder` say which candidates a
search finds, and in which order. `SnapshotReopen.ReopenedIsProjection` goes through the bytes, for all slots and
queries at once: the image of any replayed history, written with its ten sections and checked header and opened again
over any journal that continues the one it followed, gives the same resolution, definitions, query rows and frames as
the projection. `SnapshotReopen.ReopenedAgrees` is the same as a program that creates, writes, opens and asks both
engines.

**Byte formats and recovery** (`Words`, `DigestCollision`, `FrameCodec`, `Framing`, `CommitFile`, `Journal`,
`Layouts`). Codecs are canonical in both directions; a file reads as the longest history it starts with and as nothing
else (`CommitFile.ReadsExactly`, `Journal.JournalReadsExactly`); cut at any byte past its header it decodes to exactly
the records that fit whole (`CommitFile.CutFile`), so a crash inside an epoch recovers a prefix and a second open
trims nothing. Digests are 64-bit FNV-1a, and nothing assumes that they are injective: `DigestCollision.Collide`
computes a collision, and `Collisions` shows what it does to a commit and to a snapshot.

**Worlds and the database** (`Worlds`, `WorldLaws`, `WorldIdentity`, `Database`, `Collisions`). A history rebuilds
exactly when each frame fits behind the frames before it, said on the frames alone (`WorldLaws.RebuildsExactly`), and
the first that does not decides the error. `Database.Session`: after any mix of commits, stale aborts, rejections and
failed appends, on a linear store or on one that takes any frame, the stored frames rebuild the current world exactly
when every commit that went through was based on the then current one; a linear store makes sure of it.

**The file stores** (`FaultyFile`, `EpochStore`, `EpochLaws`, `FileStore`). The file is a mutable byte sequence and
every call succeeds, fails, or fails after a partial effect, as an arbitrary schedule decides; what a successful sync
has made durable is kept beside it. `EpochStore.FileEpochStore.AppendEpoch` states result, state and number of calls
as a function of policy and schedule for all three policies, `EpochLaws.AcknowledgedIsSynced` and
`FirstFailureDecides` which calls decide, `RunEpochs` what a whole run stores, and `EpochStore.ColdOpen` exactly when
a file opens. The plain file store goes on after a failure: `FileStore.RunReadsBack` is the exact condition on a run's
calls under which its file still reads as what it acknowledged.

**The two workers** (`Pipeline`, `Admission`, `Completions`). The one-epoch-ahead speculative pipeline computes the
same run as the serial path for every pattern of arrivals and faults (`Pipeline.Differential`), and no world is ever
published whose frames are not stored (`Pipeline.RunIsStored`); an accepted intent is told so exactly when its epoch
is stored (`Pipeline.RunIsTold`). The admission worker keeps one invariant over every run, failures and crashes
included, and names the cause of every halt (`Admission.Run`). Interrupted at any byte, its file gives back every
acknowledged epoch (`Admission.CrashKeepsReceipts`), and so it does after a halt unless a write whose truncation
failed too left corrupt bytes behind (`Admission.HaltKeepsReceipts`); a new worker can start on what recovery leaves
(`Admission.RestartAfterCrash`, `Admission.RestartAfterHalt`). Deriving an epoch is an arbitrary total deterministic
function whose empty plans leave the base alone.

**The compiler** (`Isa`, `Interpreter`, `Compiler`, `DirectLaws`, `Rollback`). `Compiler.CompileAndExecute`: building,
encoding, decoding and executing any well-formed sequence of calls leaves the kernel where the calls themselves leave
it, and fails on the same expectation or not at all; `DirectLaws.CompiledFrameMeans` says it on the kernel's calls and
stacks alone.

Code that updates state step by step is modelled by classes and loops proved against specification functions; the
lemmas are about those functions. Machine widths are explicit: words are naturals below a power of two and every
wrap-around is a visible remainder.

## Where a promise does not hold as stated

- Encoding a frame enforces no limit on operations, decoding does: the round trip holds if and only if the frame has
  at most 1,000,000 operations (`FrameCodec.PayloadRoundTrip`, `CommitFile.StoredFileReads`). The file format's
  document states the limit for the format as a whole.
- The epoch store accepts frames that do not replay. After one, a failed epoch poisons the store even if every repair
  call succeeds (`EpochStore.UnreplayableFramePoisons`); a failed epoch is repaired exactly when the four calls of its
  repair succeed and the old frames reopen (`EpochStore.RepairedExactly`).
- The memory store takes any frame, and a commit compares only the 64-bit hashes of its base and of the current world.
  A commit on another world with the same hash goes through, and from then on the stored frames no longer rebuild: the
  published world is the one they rebuild if and only if every stored frame was based on the then current world
  (`Database.Database.Commit`, `Database.NextHistory`, `Database.Session`). Two transactions on the genesis world that
  each forget the slot `Ydmznq3Af3UwxOid` are such a case (`Collisions.GenesisAgain`, `Collisions.StaleCommit`). A
  linear store refuses such a frame (`Database.OnlyTheTipContinues`).
- The plain file store does not look whether taking back a failed append worked. Its file reads as the acknowledged
  frames if and only if every append of the run that failed had written nothing or was truncated
  (`FileStore.RunReadsBack`). Otherwise the frame of a failed append may be there after the next open
  (`FileStore.FailedAppendMayReturn`), an acknowledged one may be trimmed (`FileStore.ShortAppendIsDropped`), or the
  whole file may be unreadable: behind part of a magic (`FileStore.TornMagicLosesFile`) and behind a whole record
  (`FileStore.WholeRecordLosesFile`). `FileStore.RetryLosesFile` is a run of two appends that loses what it
  acknowledged.
- A crash or failed call while a file's header is first written leaves a file that no later open accepts
  (`EpochStore.TornHeaderStaysShut`).
- When the write of an admission epoch fails and cutting it off fails too, what it left stays behind the journal. The
  journal is then refused as a whole, acknowledged epochs included, exactly when that debris, read as the next epochs,
  is corrupt (`Admission.HaltKeepsReceipts`, `Admission.RecoversUnlessCorrupt`), for example when its first 20 bytes
  are there but do not start with the epoch magic (`Admission.DebrisBlocksRecovery`).
- A range search whose last key component is below 2^64 - 1 is exact (`SortedIndex.RangeIsExact`). With 2^64 - 1 it is
  exact if and only if no entry's prefix lies above the key (`SortedIndex.OpenRangeIsExactWhenLast`): always with one
  component (`OpenRangeIsExactForOne`), not always with more (`OpenRangeIsInexact`). Every key a query over a sound
  snapshot searches for is below that value (`Snapshot.KeysAreSmall`).
- An expectation compiled for entity 0 passes on any literal the stream does not mention, and entity ids from 2^63 on
  are read back as literals (`Compiler.ZeroPassesForALiteral`, `LargeIdsBecomeLiterals`); `EntityExpectation`,
  `LiteralExpectation` and `PushedEntity` give the exact conditions. The compiler theorem is about entity ids from 1
  to below 2^63.
- The instruction set's document promises that a failed expectation rolls the frame back. The interpreter itself
  (`forthdb_world.py:219-302`) stops with the effects so far in its kernel; undoing them is left to the caller, who
  runs it on a copy. A compiled frame that fails leaves the kernel as it was if and only if only expectations ran
  before the failing one (`Rollback.FailedFrameIsRolledBack`). A define before it stays
  (`Rollback.FailedFrameKeepsDefinition`), and so does the log entry of a forget that found nothing
  (`Rollback.EmptyForgetIsLogged`).
- A snapshot cannot be taken of entity ids from 2^63 on; as long as records and strings can be numbered in 32 bits,
  `SnapshotCreate.Create` succeeds exactly without them.
- Opening a snapshot file checks its tables, records, heads and indexes but not its list of active records: what opens
  is sound if and only if that list stays inside the records (`SnapshotFile.OpenedIsSound`), any list of the recorded
  length opens (`SnapshotFile.ActiveListIsFree`), and a concrete file opens to one that does not
  (`SnapshotFile.StrayActiveOpens`). Nor is the history decoded: any bytes that start with the recorded count open
  (`SnapshotFile.AnyHistoryOpens`), and reading the frames later fails where they do not decode
  (`SnapshotFile.UndecodableHistoryOpens`).
- A snapshot is meant to open only over a journal that continues the one it was taken after. Opening compares the
  64-bit digest of the journal's prefix of the recorded length, and `SnapshotFile.FollowsJournal` is the exact
  condition (`SnapshotFile.CreatedOpens`). Another journal with that digest passes; `Collisions.OtherJournalOpens`
  gives two.

## Model

| member | source | states |
|---|---|---|
| `Facts.UnifyIsLeastInstance` | rust/crates/forthdb-core/src/lib.rs:877-925 | Unifying a pattern with a fact succeeds exactly when some extension of the binding makes the pattern read as the fact, and returns the least one, binding the pattern's variables and nothing else. |
| `Facts.UnifyNeedsKnownParts` | rust/crates/forthdb-core/src/lib.rs:861-885 | A fact can only unify with a pattern if it agrees with every part the binding already resolves, so looking facts up by those parts loses none. |
| `Facts.UnifyCommutes` | rust/crates/forthdb-core/src/lib.rs:877-925 | Two patterns can be unified with their facts in either order: the same pairs fit, with the same final binding. |
| `Joins.JoinFront` | rust/crates/forthdb-core/src/lib.rs:788-806 | Any of the remaining patterns may be joined first: the bag of (binding, tag) answers of the join is the same, for every tag that ignores order. |
| `Query.Cheapest` | rust/crates/forthdb-core/src/lib.rs:792-801 | The greedy planner's choice has the fewest candidates, and no earlier pattern has as few. |
| `Query.WalkQuery` | rust/crates/forthdb-core/src/lib.rs:773-840 | The recursive walk over any lookup, with its output, path and counters threaded through, is the walk function over what the lookup returns, including when it stops; deduplication follows the walk. |
| `Query.FewestCandidates` | rust/crates/forthdb-core/src/lib.rs:792-801 | The planner's loop, asking any exact count of candidates, finds the pattern that `Cheapest` describes. |
| `Query.RunQuery` | rust/crates/forthdb-core/src/lib.rs:722-771 | Sorting the walk's frames by binding and then provenance and turning them into rows gives the whole result: rows, metrics and path. |
| `Query.WalkCollects` | rust/crates/forthdb-core/src/lib.rs:773-840 | The walk collects exactly the answers of the unlimited depth-first enumeration, in order, cut at the limit, and reports a stop exactly when the limit is met. |
| `Query.LimitedRows` | rust/crates/forthdb-core/src/lib.rs:739-786 | With duplicates kept and limit k, the rows are the sort of the first max(1, k) frames of the unlimited enumeration, or of all of them when there are fewer. |
| `RowLaws.AllRows` | rust/crates/forthdb-core/src/lib.rs:739-771 | With duplicates kept, under any limit, the rows are the answers met (all of the enumeration, or the first max(1, k)), sorted, each with its provenance when that is asked for. |
| `RowLaws.DistinctRows` | rust/crates/forthdb-core/src/lib.rs:739-771 | Without duplicates, under any limit: no two rows share a binding, the bindings that have a row are exactly those of the answers met, the rows ascend, and each has the provenance of the first answer met with its binding. |
| `RowLaws.WalkPlays` | rust/crates/forthdb-core/src/lib.rs:773-840 | The walk is the replay of the enumeration's events (a pattern picked, a fact unified, an answer reached), stopped at the answer that meets the limit. |
| `RowLaws.QueryTallies` | rust/crates/forthdb-core/src/lib.rs:773-840 | The counters are sums over the events up to there: candidates over the patterns picked, bindings emitted over the unifications; the path holds the pattern picked first at every depth. |
| `RowLaws.CountersAgree` | rust/crates/forthdb-core/src/lib.rs:773-840 | Without planning and limit, two lookups that return the same candidates in any order give the same counters and the same path, as long as no variable stands both for an atom and for a predicate. |
| `QueryLaws.TuplesAreAll` | rust/crates/forthdb-core/src/lib.rs:788-839 | The naive enumeration reaches every tuple of fact positions, one per pattern, and nothing else. |
| `QueryLaws.TuplesDistinct` | rust/crates/forthdb-core/src/lib.rs:788-839 | The naive enumeration reaches each tuple once. |
| `QueryLaws.TupleFrameIsSolution` | rust/crates/forthdb-core/src/lib.rs:803-837 | Unifying a tuple fact by fact yields a frame exactly when some least binding instantiates all patterns at once, with that binding and the slots of the tuple as provenance. |
| `QueryLaws.LeftToRight` | rust/crates/forthdb-core/src/lib.rs:773-840 | Without planning, over the exact lookup, the walk's answers are the naive enumeration's, frame by frame in the same order. |
| `QueryLaws.AnswersAreJoin` | rust/crates/forthdb-core/src/lib.rs:773-840 | Whatever plan it follows and whatever faithful lookup it uses, the walk's answers are, as a bag of tagged bindings, the join of the patterns. |
| `QueryLaws.EveryPlanIsNaive` | rust/crates/forthdb-core/src/lib.rs:773-840 | Greedy plan, left-to-right plan and naive enumeration give the same bag of bindings, each with the same slots up to order. |
| `QueryLaws.EveryPlanBindings` | rust/crates/forthdb-core/src/lib.rs:773-840 | The same for bindings alone. |
| `QueryLaws.FixedPlanFrames` | rust/crates/forthdb-core/src/lib.rs:773-840 | Without planning the bag of whole frames, provenance in order, is the naive one. |
| `QueryLaws.EnginesAgree` | rust/crates/forthdb-core/src/lib.rs:722-771 | Without a limit, two engines with faithful lookups over the same active facts return the same bindings row by row, whatever plans they follow, with or without duplicates. |
| `QueryLaws.FixedPlanEnginesAgree` | rust/crates/forthdb-core/src/lib.rs:722-771 | With planning and deduplication both off the rows agree in full. |
| `FrameOrder.FrameLeTotal` | rust/crates/forthdb-core/src/lib.rs:739-771 | The order of result frames (bindings as ordered maps, then provenance) is total, so sorting leaves no choice. |
| `FrameOrder.BindingsCompare` | rust/crates/forthdb-core/src/lib.rs:739-771 | Bindings of the same variables compare by the first variable, byte by byte, in which they differ, and there entities by number before literals byte by byte before predicates. |
| `FrameOrder.FramesCompare` | rust/crates/forthdb-core/src/lib.rs:739-771 | Frames with the same binding compare by the first slot, byte by byte, in which their provenance differs. |
| `Store.DefinePushes` | rust/crates/forthdb-core/src/lib.rs:286-303 | A define keeps the log well formed (ids are positions, previous heads are earlier definitions of the slot) and pushes on its slot's stack and no other. |
| `Store.ForgetPops` | rust/crates/forthdb-core/src/lib.rs:305-333 | A forget keeps the log well formed and pops its slot's stack; on an empty slot it only logs itself. |
| `Store.ForgetUndoesDefine` | rust/crates/forthdb-core/src/lib.rs:286-333 | A define answers at once and covers what was there, the forget behind it brings back exactly the stacks from before, and no other slot sees either. |
| `Store.ForgetUncovers` | rust/crates/forthdb-core/src/lib.rs:305-349 | Any forget takes the newest definition of its slot away, if there is one, leaves the others as they were, and no other slot sees it. |
| `Calls.LogTellsCalls` | rust/crates/forthdb-core/src/lib.rs:286-333 | After any calls, record i of the log names its call, the id on top of its slot's stack before it as previous head and the id on top after it as resulting head (none for an empty stack), with the stacks given by pushing and popping alone. |
| `Calls.NumbersInOrder` | rust/crates/forthdb-core/src/lib.rs:286-333 | Records are numbered from 0 and entities from 1, each in the order of their calls. |
| `Store.WalkChain` | rust/crates/forthdb-core/src/lib.rs:339-349 | The walk along previous heads terminates and lists the definitions of a slot newest first. |
| `Store.TopIsHead` | rust/crates/forthdb-core/src/lib.rs:335-337 | Every slot with a head has a nonempty stack whose top is the head record. |
| `Indexes.InsertKeepsExact` | rust/crates/forthdb-core/src/lib.rs:497-503 | Inserting a record keeps an index exact: every key some active fact has, with exactly the records that have it, and no empty bucket. |
| `Indexes.RemoveKeepsExact` | rust/crates/forthdb-core/src/lib.rs:505-523 | So does removing one. |
| `Indexes.ReplaceIsRemoveInsert` | rust/crates/forthdb-core/src/shared_view_v2.rs:251-263 | Swapping a record for another under the same key is removing the one and inserting the other. |
| `Indexes.ReplacedIsRemoveAdd` | rust/crates/forthdb-core/src/shared_view_v2.rs:148-222 | The in-place replace of all seven indexes is a remove followed by an add. |
| `Indexes.LookUpIsExact` | rust/crates/forthdb-core/src/lib.rs:443-481 | Whichever of the seven indexes the known parts select, the ids returned are exactly the active records that agree with those parts. |
| `Indexes.CandidatesAreSelection` | rust/crates/forthdb-core/src/lib.rs:443-481 | Sorted candidate ids, read back, are the selection from the active facts in record order. |
| `ViewLaws.DefinedView` | rust/crates/forthdb-core/src/lib.rs:596-603 | Removing the old head, appending and adding the new head leaves all seven indexes exact. |
| `ViewLaws.ForgottenView` | rust/crates/forthdb-core/src/lib.rs:605-614 | Removing the forgotten head, appending and adding the uncovered head leaves all seven indexes exact. |
| `ViewLaws.DefinedInPlaceIsExact` | rust/crates/forthdb-core/src/shared_db_v2.rs:44-53 | The shared kernel's define, replacing in place, leaves all seven indexes exact and the signature that of the new heads. |
| `ViewLaws.ForgottenInPlaceIsExact` | rust/crates/forthdb-core/src/shared_db_v2.rs:55-68 | So does its forget. |
| `ViewLaws.MovedIsExact` | rust/crates/forthdb-core/src/shared_types_v5.rs:273-286 | Taking one record out of the signature and putting one in gives the signature of the changed set. |
| `LegacyKernel.Kernel.AppendDefine` | rust/crates/forthdb-core/src/lib.rs:286-303 | Appends the record, links it to the previous head and moves the head, as the abstract store does. |
| `LegacyKernel.Kernel.AppendForget` | rust/crates/forthdb-core/src/lib.rs:305-333 | Appends the forget record and moves the head back to the definition it uncovers. |
| `LegacyKernel.Kernel.Define` | rust/crates/forthdb-core/src/lib.rs:596-603 | Leaves the kernel valid (log well formed, seven indexes exactly the current heads) in the abstract store's next state. |
| `LegacyKernel.Kernel.Forget` | rust/crates/forthdb-core/src/lib.rs:605-614 | The same for forget. |
| `LegacyKernel.Kernel.Definitions` | rust/crates/forthdb-core/src/lib.rs:339-349 | Returns the slot's stack, newest first. |
| `LegacyKernel.Kernel.History` | rust/crates/forthdb-core/src/lib.rs:351-358 | Returns exactly the log's records of the slot, oldest first. |
| `ViewLaws.HistoryIsComplete` | rust/crates/forthdb-core/src/lib.rs:351-358 | These are all records of the slot, defines and forgets alike, each once, by rising id. |
| `LegacyKernel.Kernel.Candidates` | rust/crates/forthdb-core/src/lib.rs:443-481 | Returns the selection from the active facts by the known parts, in record order. |
| `LegacyKernel.Kernel.Query` | rust/crates/forthdb-core/src/lib.rs:722-771 | Returns the result of the query over the active facts, metrics and path included. |
| `LegacyKernel.Kernel.Validate` | rust/crates/forthdb-core/src/lib.rs:850-859 | In any state the self-check succeeds exactly when every head is a definition record and the index lists exactly the heads; so it does in every valid state. |
| `Signature.RemoveUndoesAdd` | rust/crates/forthdb-core/src/shared_types_v5.rs:34-48 | Removing a token undoes adding it, wrap-around included. |
| `Signature.SignatureIgnoresOrder` | rust/crates/forthdb-core/src/shared_types_v5.rs:34-48 | The signature of a list of records does not depend on their order. |
| `Signature.ListingSignature` | rust/crates/forthdb-core/src/shared_types_v5.rs:372-387 | Any listing of a set without repetition has the set's signature. |
| `Signature.SignatureAfterAdd` | rust/crates/forthdb-core/src/shared_types_v5.rs:34-40 | The incremental signature after an addition is the signature recomputed from the larger set. |
| `Signature.SignatureAfterRemove` | rust/crates/forthdb-core/src/shared_types_v5.rs:42-47 | And after a removal, that of the smaller set. |
| `Containers.ChunkedLog.Push` | rust/crates/forthdb-core/src/shared_types_v5.rs:87-100 | Appends one element to the sequence the chunks stand for and returns its position; every chunk but the last stays full. |
| `Containers.ChunkedLog.Get` | rust/crates/forthdb-core/src/shared_types_v5.rs:81-85 | Returns the element at a position of that sequence. |
| `Containers.FlattenIndex` | rust/crates/forthdb-core/src/shared_types_v5.rs:81-85 | Position i of the log is offset i mod 1024 of chunk i div 1024. |
| `Containers.ShardedMap.Get` | rust/crates/forthdb-core/src/shared_types_v5.rs:171-177 | Reads the finite map the shards stand for. |
| `Containers.ShardedMap.Insert` | rust/crates/forthdb-core/src/shared_types_v5.rs:188-201 | Updates that map at one key, returns the old value, keeps the length exact and every key in the shard its hash selects. |
| `Containers.ShardedMap.Update` | rust/crates/forthdb-core/src/shared_types_v5.rs:179-186 | Writing through a reference changes one present key's value only. |
| `Containers.ShardedMap.Remove` | rust/crates/forthdb-core/src/shared_types_v5.rs:203-220 | Removes one key, returns its value, and leaves no empty shard and no group of empty shards behind. |
| `Containers.ShardedMap.Pairs` | rust/crates/forthdb-core/src/shared_types_v5.rs:235-242 | Iteration visits every pair of the map, each key once, as many as the length says. |
| `Containers.ShardedMap.Values` | rust/crates/forthdb-core/src/shared_types_v5.rs:244-247 | The values iterated are exactly the map's values. |
| `SharedView.CurrentView.Add` | rust/crates/forthdb-core/src/shared_view_v2.rs:16-42 | Enters a record under all seven keys of its fact and into the signature. |
| `SharedView.CurrentView.Remove` | rust/crates/forthdb-core/src/shared_view_v2.rs:44-70 | Takes a record out of all seven indexes and out of the signature. |
| `SharedView.CurrentView.Replace` | rust/crates/forthdb-core/src/shared_view_v2.rs:148-222 | Swaps two records, in place under the keys their facts share, in all seven indexes and in the signature. |
| `SharedKernel.DefinitionStore.ReplaceHead` | rust/crates/forthdb-core/src/shared_types_v5.rs:273-286 | Moves a slot's head and keeps the signature in step. |
| `SharedKernel.DefinitionStore.AppendDefine` | rust/crates/forthdb-core/src/shared_types_v5.rs:288-302 | Takes the abstract store's define step on the chunked log, the sharded heads and the history lists. |
| `SharedKernel.DefinitionStore.AppendForget` | rust/crates/forthdb-core/src/shared_types_v5.rs:304-319 | Takes the forget step and returns the uncovered definition. |
| `SharedKernel.Kernel.Define` | rust/crates/forthdb-core/src/shared_db_v2.rs:44-53 | Keeps the kernel valid (indexes exact, both signatures those of the current heads) in the abstract store's next state. |
| `SharedKernel.Kernel.Forget` | rust/crates/forthdb-core/src/shared_db_v2.rs:55-68 | The same for forget. |
| `SharedKernel.Kernel.Definitions` | rust/crates/forthdb-core/src/shared_types_v5.rs:325-335 | Returns the slot's stack, newest first. |
| `SharedKernel.Kernel.History` | rust/crates/forthdb-core/src/shared_types_v5.rs:337-348 | The linked history list, reversed, is exactly the log's records of the slot, oldest first. |
| `SharedKernel.Kernel.Candidates` | rust/crates/forthdb-core/src/shared_view_v2.rs:72-109 | Returns the same selection from the active facts as the legacy kernel's candidates. |
| `SharedKernel.Kernel.Query` | rust/crates/forthdb-core/src/shared_db_v2.rs:176-225 | Returns the same function of the active facts as the legacy query. |
| `SharedKernel.Kernel.ValidateFast` | rust/crates/forthdb-core/src/shared_db_v2.rs:304-307 | In any state the cheap self-check succeeds exactly when heads and signature count alike, no more than the log, and both signatures are equal; so it does in every valid state. |
| `SharedKernel.Kernel.ValidateFull` | rust/crates/forthdb-core/src/shared_db_v2.rs:309-313 | Over any well-formed log the full audit succeeds exactly when the index lists the heads and both signatures are the one recomputed from them; so it does in every valid state. |
| `SharedKernel.HeadListing` | rust/crates/forthdb-core/src/shared_types_v5.rs:372-387 | The sharded heads, iterated pair by pair, list the active records without repetition, so their signature is the incremental one. |
| `KernelAgreement.RunLegacy` | rust/crates/forthdb-core/src/lib.rs:590-614 | After any calls the legacy kernel is valid, holds the abstract machine's state and has returned its ids. |
| `KernelAgreement.RunShared` | rust/crates/forthdb-core/src/shared_db_v2.rs:38-68 | And so does the shared kernel, whatever its hash functions. |
| `KernelAgreement.Differential` | rust/crates/forthdb-core/src/shared_db_v2.rs:38-294 | For every sequence of calls, slot, query and options the legacy and the shared kernel return the same ids and the same observation (resolution, definitions, history, query result with metrics and path, limited output included), namely the abstract machine's, and all self-checks pass. |
| `Projection.ReplayIsKernel` | rust/crates/forthdb-world/src/lib.rs:221-262 | Replaying operations into stacks gives the stacks under the linked heads of a kernel that made the same calls, record ids included. |
| `Projection.TopsAreActive` | rust/crates/forthdb-world/src/lib.rs:262-303 | The tops of those stacks, in record order, are the kernel's active facts. |
| `Projection.PositionsSelect` | rust/crates/forthdb-world/src/lib.rs:329-352 | When agreeing with a pattern means having a certain key, the key's position list gives exactly the selection, in order. |
| `Projection.ReplayFrames` | rust/crates/forthdb-world/src/lib.rs:221-250 | The loop over frames and operations computes the replay function. |
| `Projection.CollectTops` | rust/crates/forthdb-world/src/lib.rs:252-270 | Collects the last entry of every stack, in whatever order the map yields them, without repeating a record. |
| `Projection.VmQueryProjection.FromFrames` | rust/crates/forthdb-world/src/lib.rs:221-303 | Builds the replayed stacks, the active facts in record order and seven position maps that list exactly their positions. |
| `Projection.VmQueryProjection.Definitions` | rust/crates/forthdb-world/src/lib.rs:316-327 | Lists a slot's stack, newest first. |
| `Projection.VmQueryProjection.BucketSelects` | rust/crates/forthdb-world/src/lib.rs:329-352 | The chosen bucket of positions is the selection by the known parts. |
| `Projection.VmQueryProjection.Query` | rust/crates/forthdb-world/src/lib.rs:354-462 | Returns the result of the query over the active facts. |
| `ProjectionAgreement.ProjectionIsKernel` | rust/crates/forthdb-world/src/lib.rs:221-303 | The projection of any history has the stacks and the active facts of the kernel that replays it. |
| `ProjectionAgreement.DifferentialReplay` | rust/crates/forthdb-world/src/lib.rs:306-462 | For every history, slot, query and options the projection's resolution, definitions and query result are those of the kernel that replays it, limit and metrics included. |
| `FrameCodec.PayloadRoundTrip` | rust/crates/forthdb-world/src/file_store.rs:366-442 | A frame with fields in range decodes from its encoding to itself exactly when it has at most 1,000,000 operations; with more, decoding fails. |
| `FrameCodec.PayloadCanonical` | rust/crates/forthdb-world/src/file_store.rs:397-442 | Whatever decodes is the encoding of what it decodes to. |
| `Layouts.PayloadFields` | rust/crates/forthdb-world/src/file_store.rs:366-379 | A payload starts with parent world, resulting world, parent version, resulting version, allocator and number of operations, eight bytes each, in this order. |
| `FrameCodec.WritePayload` | rust/crates/forthdb-world/src/file_store.rs:366-395 | The encoder's loop writes the encoding. |
| `FrameCodec.ReadPayload` | rust/crates/forthdb-world/src/file_store.rs:397-442 | The decoder's cursor loop computes the decoding, limit and trailing-byte check included. |
| `FrameCodec.Decoder.Take` | rust/crates/forthdb-world/src/file_store.rs:485-499 | Takes exactly the next bytes when there are enough, and otherwise nothing. |
| `FrameCodec.Decoder.ReadText` | rust/crates/forthdb-world/src/file_store.rs:513-521 | Reads a length-prefixed string exactly when it is complete and well-formed UTF-8. |
| `FrameCodec.Decoder.ReadOperations` | rust/crates/forthdb-world/src/file_store.rs:409-434 | Reads the announced number of operations or fails. |
| `Words.FromLittleEndianRoundTrip` | rust/crates/forthdb-world/src/file_store.rs:505-511 | Reading little-endian bytes and writing the number back gives the bytes. |
| `Words.DigestExtendConcat` | rust/crates/forthdb-world/src/file_epoch_store.rs:755-765 | Extending the running FNV-1a value piece by piece is hashing the concatenation. |
| `DigestCollision.Collide` | rust/crates/forthdb-world/src/file_epoch_store.rs:755-765 | Two concrete different 57-byte sequences have the same digest, computed byte by byte. |
| `Framing.ScanRecords` | rust/crates/forthdb-world/src/file_store.rs:224-296 | The record loop computes the scan function: items, last good offset, or the offset of the corruption. |
| `Framing.CutScan` | rust/crates/forthdb-world/src/file_store.rs:224-296 | Cutting a file of accepted records anywhere past its header leaves exactly the records that fit whole, with the last good offset at their end. |
| `Framing.ScanCanonical` | rust/crates/forthdb-world/src/file_store.rs:224-296 | What a scan returns, written again, is the part of the file it read. |
| `Framing.ScanStops` | rust/crates/forthdb-world/src/file_store.rs:224-296 | A scan reads whole accepted records and stops at the first place without one: there the bytes are an unfinished record (too short for a prefix, or a sound prefix and not all of the rest) and are dropped, or they are neither that nor an accepted record, and the scan is corrupt. |
| `Framing.WholeRecord` | rust/crates/forthdb-world/src/file_store.rs:224-296 | A whole record goes to the acceptor, and the scan continues behind it or stops there. |
| `Framing.ScanPast` | rust/crates/forthdb-world/src/file_store.rs:224-296 | Accepted records are read whatever follows them, and the scan goes on behind them. |
| `Framing.ScanBehind` | rust/crates/forthdb-world/src/file_store.rs:224-296 | A scan depends only on the bytes behind the place where it starts. |
| `CommitFile.ReadFile` | rust/crates/forthdb-world/src/file_store.rs:206-296 | The reader computes the file decoding: header errors, version, flags, records. |
| `CommitFile.CutFile` | rust/crates/forthdb-world/src/file_store.rs:206-296 | Cutting the file of a linear history at any byte at or past the header decodes to exactly the frames that fit whole. |
| `CommitFile.ReadBack` | rust/crates/forthdb-world/src/file_store.rs:206-296 | An uncut file reads back as its history. |
| `CommitFile.FileCanonical` | rust/crates/forthdb-world/src/file_store.rs:206-339 | Whatever file decodes holds a linear history, and its good part is that history's encoding. |
| `CommitFile.LinearExactly` | rust/crates/forthdb-world/src/file_store.rs:128-158 | A history is linear exactly when each frame names the world before it, the genesis world at first, and versions count up from 1 within 64 bits. |
| `CommitFile.ReadsExactly` | rust/crates/forthdb-world/src/file_store.rs:206-296 | A file reads exactly when its header is there, and then as the longest linear history it starts with: behind that lies an unfinished record, or the file is corrupt and no record there continues the history. |
| `CommitFile.UnsupportedExactly` | rust/crates/forthdb-world/src/file_store.rs:206-222 | A version is reported as unsupported exactly when the magic is right and the four version bytes hold another number than 1. |
| `CommitFile.SecondOpenTrimsNothing` | rust/crates/forthdb-world/src/file_store.rs:81-114 | After the tail has been trimmed a second open reads the same frames and trims nothing. |
| `CommitFile.EpochCrash` | rust/crates/forthdb-world/src/file_epoch_store.rs:570-583 | A crash inside an epoch's write recovers the old history and a prefix of the epoch. |
| `CommitFile.StoredFileReads` | rust/crates/forthdb-world/src/file_store.rs:405-409 | What the stores accept reads back whole exactly when every frame is within the decoder's limit on operations; otherwise the file is reported corrupt. |
| `Worlds.ApplyOperation` | rust/crates/forthdb-world/src/lib.rs:1259-1289 | Applying an operation is the kernel call it stands for and moves the allocator on for an allocation; it fails exactly when an allocation names another entity than the allocators would. |
| `Worlds.ApplyIsReplay` | rust/crates/forthdb-world/src/lib.rs:1259-1289 | When all operations apply, the kernel reached is the one that made their calls, and the two allocators agree. |
| `Worlds.RebuiltIsReplay` | rust/crates/forthdb-world/src/lib.rs:738-798 | A reconstructed world holds exactly its frames, the last frame's identity and version, and the kernel that made their calls. |
| `WorldLaws.AppliesExactly` | rust/crates/forthdb-world/src/lib.rs:1259-1289 | Operations apply exactly when their allocations count up from the allocator without a gap, which they then move by their number. |
| `WorldLaws.RebuildsExactly` | rust/crates/forthdb-world/src/lib.rs:738-798 | A history rebuilds exactly when every frame names the frame before it as its parent, its allocations count up through the whole history from 1, its allocator is one more than all allocations so far, and its identity is the hash of parent, version, allocator and operations. |
| `WorldLaws.FirstMisfitDecides` | rust/crates/forthdb-world/src/lib.rs:738-798 | The first frame for which this fails decides the error, by the first of parent, version, allocation, allocator and identity that is wrong, with the expected and the actual number. |
| `WorldIdentity.KnownIdentity` | rust/crates/forthdb-world/src/lib.rs:1291-1333 | One identity in full, computed byte by byte: genesis as parent, version 2, allocator 3 and two operations, an allocation and a definition. It fixes order, width and tags of everything hashed. |
| `Worlds.Reconstruct` | rust/crates/forthdb-world/src/lib.rs:738-798 | The reconstruction loop computes the rebuild function, with the same first error. |
| `Worlds.Construct` | rust/crates/forthdb-world/src/lib.rs:878-916 | A candidate carries its base, the recorded operations, the next version and the identity hashed from them, or the first operation's error. |
| `Worlds.PublishedIsRebuilt` | rust/crates/forthdb-world/src/lib.rs:982-1006 | Replaying the history extended by a published candidate's frame succeeds and gives exactly the published world, whatever it hashes to. |
| `Database.Transaction.Candidate` | rust/crates/forthdb-world/src/lib.rs:1069-1073 | A transaction's own operations always make a candidate, with the frame they stand for. |
| `Database.Database.Append` | rust/crates/forthdb-world/src/file_store.rs:128-188 | A failed append leaves the store unchanged; a linear store refuses frames that do not continue it, any other store takes what it is given. |
| `Database.Database.Commit` | rust/crates/forthdb-world/src/lib.rs:1139-1176 | Its verdict decides: stale transactions, rejections and store failures leave store, world and published worlds as they were; otherwise exactly the transaction's frame is stored and its world published. Afterwards the stored frames rebuild the published world if and only if no commit so far stored a frame on a base other than the current world, which only a store that is not linear lets happen, through equal identities; then rebuilding fails with a version mismatch. A transaction is stale exactly when its base's identity is not the current one's; a rejection is the first rejecting validator's, and there is one exactly when the transaction is not stale and some validator rejects; it goes through exactly when none does and the store takes the frame. |
| `Database.NextHistory` | rust/crates/forthdb-world/src/lib.rs:738-798 | After a commit that passed the identity check, the history extended by its frame rebuilds the published world if its base is the current world, and otherwise stops with a version mismatch, whatever the identities hash to. |
| `Database.OnlyTheTipContinues` | rust/crates/forthdb-world/src/file_store.rs:128-158 | A linear store accepts the next frame of the current world and of no other published world, even if two worlds' hashes collide. |
| `Database.Session` | rust/crates/forthdb-world/src/lib.rs:1139-1176 | After any mix of commits, stale aborts, rejections and failed appends, on either kind of store, rebuilding from the stored frames succeeds exactly when every commit that went through was based on the then current world, and then gives the current world; on a linear store that is always so. |
| `Collisions.GenesisAgain` | rust/crates/forthdb-world/src/lib.rs:878-916 | A forget of one concrete slot on the genesis world makes a world with the identity of genesis. |
| `Collisions.StaleCommit` | rust/crates/forthdb-world/src/lib.rs:1139-1176 | Two transactions on genesis that each forget that slot: a store that takes any frame commits both and its frames stop replaying at the second with a version mismatch; a linear store refuses the second and stays rebuildable. |
| `Database.PendingFrames` | rust/crates/forthdb-world/src/lib.rs:137-156 | Collects exactly the frames behind the projected version, newest first. |
| `Database.MaterializeKernel` | rust/crates/forthdb-world/src/lib.rs:137-165 | Replaying only the frames behind a cached projection gives the kernel of a full replay, and no operation fails. |
| `FaultyFile.File.WriteAt` | rust/crates/forthdb-world/src/file_epoch_store.rs:112-117 | A positional write lands some prefix of its data, whether or not it reports success. |
| `FaultyFile.File.WriteAll` | rust/crates/forthdb-world/src/file_epoch_store.rs:598-624 | The write loop appends exactly as many of the bytes as the schedule lets through, and reports success only for all of them; how many, and how many calls it takes, are functions of the schedule. |
| `FaultyFile.WriteRunsExactly` | rust/crates/forthdb-world/src/file_epoch_store.rs:598-624 | A write gets through exactly when its calls all succeed with progress until they have written enough, and fails at the first call before that which fails or makes no progress. |
| `FaultyFile.File.ReadOrCreate` | rust/crates/forthdb-world/src/file_store.rs:81-97 | A file that is there is read whole; an empty one first gets its header, piece by piece and synced; which calls decide is fixed by the schedule. A header that was written is durable. |
| `FaultyFile.File.SetLen` | rust/crates/forthdb-world/src/file_epoch_store.rs:119-119 | A truncation that reports success has happened; one that reports failure has happened or not, as the schedule decides. |
| `FaultyFile.File.SyncData` | rust/crates/forthdb-world/src/file_epoch_store.rs:118-118 | A sync that succeeds makes all of the file's content durable, one that fails nothing; no other call but a completed whole-epoch transport changes what is durable. |
| `FileStore.FileCommitStore.ValidateAppend` | rust/crates/forthdb-world/src/file_store.rs:128-158 | Accepts exactly the frames that continue the stored history. |
| `FileStore.FileCommitStore.Append` | rust/crates/forthdb-world/src/file_store.rs:128-187 | Result, frames, file content and number of file calls are the append function of the schedule: bad frames are refused without touching the file, the frame is listed exactly when its write and sync succeed, and a failed append leaves bytes in the file exactly when some were written and the truncation did not happen, namely those that were written. An acknowledged frame is durable. |
| `FileStore.FileCommitStore.RollbackFailedAppend` | rust/crates/forthdb-world/src/file_store.rs:160-165 | Takes the file back to where it was, or changes nothing, as the schedule decides for the truncation; the caller does not learn which. |
| `FileStore.ReadsBackExactly` | rust/crates/forthdb-world/src/file_store.rs:81-187 | A file reads to its end as the listed frames if and only if it is exactly their encoding. |
| `FileStore.FailedAppendMayReturn` | rust/crates/forthdb-world/src/file_store.rs:81-187 | What one failed append left at the end is trimmed by the next open, unless all of its record is there: then the frame whose append was reported as failed is part of the history. |
| `FileStore.TornMagicLosesFile` | rust/crates/forthdb-world/src/file_store.rs:81-187 | A part of the magic left by a failed append, followed by an append that succeeded, keeps every later open from reading the file. |
| `FileStore.WholeRecordLosesFile` | rust/crates/forthdb-world/src/file_store.rs:81-187 | A whole record left by a failed append, followed by one that succeeded, keeps every later open from reading the file. |
| `FileStore.ShortAppendIsDropped` | rust/crates/forthdb-world/src/file_store.rs:81-187 | Part of a record left by a failed append, followed by records shorter than what is missing of it, acknowledged or not: the next open trims them all as an incomplete tail. |
| `FileStore.FailedSyncLosesFile` | rust/crates/forthdb-world/src/file_store.rs:160-187 | An append whose sync and truncation fail, then any append that succeeds: the second is acknowledged and listed, and no later open reads the file. |
| `FileStore.RetryLosesFile` | rust/crates/forthdb-world/src/file_store.rs:160-187 | A concrete schedule on an empty file: one failed append and its acknowledged retry, and the file is lost. |
| `FileStore.RunReadsBack` | rust/crates/forthdb-world/src/file_store.rs:81-187 | After any run of appends under any schedule, the file reads to its end as the acknowledged frames if and only if every failed append had written nothing or was truncated: a condition on the run's calls. |
| `FileStore.RunAppends` | rust/crates/forthdb-world/src/file_store.rs:170-187 | Over any run of appends the store lists the frames that were there and then exactly the acknowledged ones, in order; results, frames, file content and number of calls are the run function of the schedule. |
| `EpochStore.FileEpochStore.Prepare` | rust/crates/forthdb-world/src/file_epoch_store.rs:438-468 | Refuses when not healthy, not linear or too large, before any I/O; otherwise the checkpoint is the file's true end. |
| `EpochStore.FileEpochStore.ValidateEpoch` | rust/crates/forthdb-world/src/file_epoch_store.rs:530-568 | Accepts exactly the epochs whose frames continue the stored ones, one after the other. |
| `EpochLaws.ContinuesExactly` | rust/crates/forthdb-world/src/file_epoch_store.rs:530-568 | An epoch continues a linear history exactly when the two together are a linear history. |
| `EpochStore.FileEpochStore.WriteAllAt` | rust/crates/forthdb-world/src/file_epoch_store.rs:598-624 | Success means everything was appended; failure leaves the old bytes as a prefix; which of these is fixed by the schedule. |
| `EpochStore.FileEpochStore.WritePerFrame` | rust/crates/forthdb-world/src/file_epoch_store.rs:585-596 | Writes and syncs one frame at a time: success means everything was appended and is durable; where it stops is fixed by the schedule. |
| `EpochStore.FileEpochStore.WriteOneEpoch` | rust/crates/forthdb-world/src/file_epoch_store.rs:570-583 | Writes the whole epoch and syncs once: success means everything was appended and is durable. |
| `EpochStore.FileEpochStore.Repair` | rust/crates/forthdb-world/src/file_epoch_store.rs:666-735 | Reports success exactly when truncate, sync, length and read all succeed and the old frames still open; then the file is byte for byte the old one. And durable. |
| `EpochStore.FileEpochStore.Verify` | rust/crates/forthdb-world/src/file_epoch_store.rs:690-735 | The digest, frame count, tip and replay checks pass exactly when the old frames decode and replay. |
| `EpochStore.FileEpochStore.HandlePrimaryFailure` | rust/crates/forthdb-world/src/file_epoch_store.rs:633-664 | Ends healthy with the failure reported as repaired, or poisoned with both phases on record, according to the repair. |
| `EpochStore.FileEpochStore.Finish` | rust/crates/forthdb-world/src/file_epoch_store.rs:478-499 | A persisted epoch joins the frames and the digest; a failed one is undone or poisons the store. |
| `EpochStore.FileEpochStore.AppendEpoch` | rust/crates/forthdb-world/src/file_epoch_store.rs:412-499 | Appends the whole epoch, or reports it repaired with file and frames as before, or poisons; poisoned refuses everything without touching the file. Result, state, frames and number of file calls are the append function of policy and schedule, under each of the three policies. Whatever is acknowledged or repaired is durable to its last byte. |
| `EpochStore.RepairedExactly` | rust/crates/forthdb-world/src/file_epoch_store.rs:412-735 | Under every policy a failed epoch is reported repaired exactly when the four calls behind its last one succeed and the old frames reopen; the store is healthy exactly when the epoch was appended or refused before its write or repaired. |
| `EpochLaws.AcknowledgedIsSynced` | rust/crates/forthdb-world/src/file_epoch_store.rs:570-631 | On the schedule alone: an epoch written by the store itself is acknowledged exactly when each of its pieces (every record, or the epoch as one) is written and the call behind the piece's last write, its sync, succeeds. |
| `EpochLaws.FirstFailureDecides` | rust/crates/forthdb-world/src/file_epoch_store.rs:570-735 | The first piece for which this fails decides: the primary phase is the write or the sync, the repair's four calls come right behind the failed call, the epoch is reported repaired exactly when all four succeed and the old frames reopen, and otherwise the first that fails is named and the store is poisoned. |
| `EpochLaws.TransportDecides` | rust/crates/forthdb-world/src/file_epoch_store.rs:478-499 | A transported epoch is decided by the one call behind the length, and undone in the same way. |
| `EpochStore.FileEpochStore.FileLen` | rust/crates/forthdb-world/src/file_epoch_store.rs:384-392 | While healthy, the length reported is that of the frames' encoding. |
| `EpochStore.FileEpochStore.PhysicalFrames` | rust/crates/forthdb-world/src/file_epoch_store.rs:394-410 | While healthy, reading the file back gives the cached frames exactly when the decoder takes them. |
| `EpochStore.FileEpochStore.PoisonExternal` | rust/crates/forthdb-world/src/file_epoch_store.rs:379-382 | Fences the store off for good. |
| `EpochStore.FromIo` | rust/crates/forthdb-world/src/file_epoch_store.rs:322-353 | Opens exactly the files that read to their end and replay, as a healthy store. |
| `EpochStore.ColdOpen` | rust/crates/forthdb-world/src/file_store.rs:81-114 | The result is the open function of schedule and content: a history, exactly when the file decodes and replays and every call of reading, creating or trimming succeeds. The file is then exactly that history's encoding, a prefix of the old file; a failed open leaves the file alone or cut to its last whole record; one that was whole is not touched. A file that was created or trimmed is durable. |
| `EpochLaws.OpensExactly` | rust/crates/forthdb-world/src/file_store.rs:81-114 | On the schedule alone: a file opens exactly when every call up to reading it succeeds (for a new file all pieces of its header and the call that syncs them), it reads as frames that replay, and, if it has a tail, the calls that cut it off and sync the file succeed. |
| `EpochStore.TornHeaderStaysShut` | rust/crates/forthdb-world/src/file_store.rs:81-114 | A creation that stops inside the header leaves a file that no later open accepts; an empty file opens exactly when every call of its creation succeeds. |
| `EpochStore.UnreplayableFramePoisons` | rust/crates/forthdb-world/src/file_epoch_store.rs:412-735 | A store does not check that frames replay: an epoch of one such frame is appended, and when the write of the next epoch fails the store is poisoned although every call of its repair succeeds. |
| `EpochStore.RunEpochs` | rust/crates/forthdb-world/src/file_epoch_store.rs:412-735 | Over any run of epochs under any fault schedule the stored frames are those that were there followed by exactly the epochs reported as appended, the file is their encoding while healthy, and a poisoned store leaves the file alone. A file that was durable stays so while the store is healthy. |
| `Pipeline.RouteSuccess` | rust/crates/forthdb-world/src/file_epoch_controller.rs:1956-1983 | Every intent of a persisted batch gets its own outcome at its own place: its world and frame, or its own rejection. |
| `Pipeline.RouteFailure` | rust/crates/forthdb-world/src/file_epoch_controller.rs:1985-2010 | When an epoch fails every intent that was accepted gets the failure, and rejections stand, each at its own place. |
| `Pipeline.DurableDatabase.Publish` | rust/crates/forthdb-world/src/file_epoch_controller.rs:1876-1890 | A world is published only when all its frames are stored. |
| `Pipeline.ProcessBatch` | rust/crates/forthdb-world/src/file_epoch_controller.rs:1849-1954 | Serially: derive on the current world, persist, then publish, as the batch function says of the fault schedule. |
| `Pipeline.RunSerial` | rust/crates/forthdb-world/src/file_epoch_controller.rs:1904-1954 | A serial run over all batches computes the run function: end state, every ticket, every world readers saw. |
| `Pipeline.AppendOverlapped` | rust/crates/forthdb-world/src/file_epoch_controller.rs:1383-1509 | Deriving the waiting batch on the unpublished tail while the epoch's write is under way does not change what the append does. |
| `Pipeline.PersistOverlapped` | rust/crates/forthdb-world/src/file_epoch_controller.rs:1383-1534 | Publishes the tail exactly when the epoch is persisted, and returns the successor derived on that tail. |
| `Pipeline.SettleBatch` | rust/crates/forthdb-world/src/file_epoch_controller.rs:1404-1509 | Settling a prepared batch is the serial step for its intents; the successor handed on is derived on the world readers see, again if the epoch it speculated on failed. |
| `Pipeline.Session` | rust/crates/forthdb-world/src/file_epoch_controller.rs:1383-1509 | A pipeline session, whether or not speculated-on epochs fail, advances the run exactly as the serial path does over the same batches. |
| `Pipeline.RunPipeline` | rust/crates/forthdb-world/src/file_epoch_controller.rs:1383-1509 | The speculative pipeline computes the same run function as the serial path, for every pattern of arrivals and faults. |
| `Pipeline.Differential` | rust/crates/forthdb-world/src/file_epoch_controller.rs:1383-1954 | From any two valid databases with equal views under equal fault schedules, the serial and the speculative run return the same tickets and the same published worlds and end in the same view, all of them the run function's, for every pattern of arrivals. |
| `Pipeline.BatchIsStored` | rust/crates/forthdb-world/src/file_epoch_controller.rs:1849-1954 | After a batch, failed or not, the published world's frames are exactly the stored ones, no stored frame is lost, and every intent has one ticket; an accepted one holds a world whose frames are stored, as long as accepted outcomes name worlds on the way to its tail. |
| `Pipeline.BatchIsTold` | rust/crates/forthdb-world/src/file_epoch_controller.rs:1849-1983 | Under every schedule, for every batch and position: an intent that derivation accepted gets a ticket with its world and frame exactly when the store took the batch's frames, and otherwise one with the error of the append; a rejection stands in both cases; the tail is published exactly in the first. |
| `Pipeline.RunIsStored` | rust/crates/forthdb-world/src/file_epoch_controller.rs:1904-1954 | The same after every batch of a run: each world readers saw has as frames the frames stored by then, a prefix of the final store's; under every schedule. |
| `Pipeline.RunIsTold` | rust/crates/forthdb-world/src/file_epoch_controller.rs:1904-1983 | The same for every batch and position of a run. |
| `Pipeline.EmptyDatabase` | rust/crates/forthdb-world/src/file_epoch_controller.rs:1849-1902 | A new database over any schedule is valid, with the genesis world and an empty history. |
| `Journal.EpochRoundTrip` | rust/crates/forthdb-world/src/admission_epoch.rs:1204-1260 | An epoch within the reader's payload limit reads back with its number and intents. |
| `Journal.WriteEpoch` | rust/crates/forthdb-world/src/admission_epoch.rs:1204-1225 | The encoder writes the framed, numbered epoch. |
| `Journal.ReadEpoch` | rust/crates/forthdb-world/src/admission_epoch.rs:1227-1260 | The decoder accepts a payload exactly when its intents fill it. |
| `Journal.EpochExactly` | rust/crates/forthdb-world/src/admission_epoch.rs:1227-1260 | A payload is an epoch's exactly when it is the epoch's number, a count, and that many texts behind their lengths, each of which the intent codec takes, with nothing behind them. |
| `Journal.JournalReadsExactly` | rust/crates/forthdb-world/src/admission_epoch.rs:1069-1166 | A journal reads exactly when it starts with its magic and version, and then as the longest run of epochs numbered from 1 without a gap: behind it lies an unfinished record, or the journal is corrupt and no record there is the next epoch's. |
| `Journal.CrashRecovery` | rust/crates/forthdb-world/src/admission_epoch.rs:1069-1166 | A journal followed by any prefix of one more record reads back as its epochs, or as those and the one more when the record is whole. |
| `Journal.JournalAndDebris` | rust/crates/forthdb-world/src/admission_epoch.rs:1069-1166 | A journal followed by any bytes reads as its epochs and then as what the bytes hold as next epochs, or is refused where they are corrupt. |
| `Journal.JournalGrows` | rust/crates/forthdb-world/src/admission_epoch.rs:888-900 | Appending one record is the journal of one more epoch. |
| `Admission.Take` | rust/crates/forthdb-world/src/admission_epoch.rs:693-760 | The next command is the one put aside, or the next one sent; none is lost or reordered. |
| `Admission.ClaimBatch` | rust/crates/forthdb-world/src/admission_epoch.rs:841-864 | A batch takes consecutive intents up to the limit and puts the first other command aside. A smaller batch ends only there, when everything has been received, or at a poll that sees nothing. |
| `Admission.SubmitEpoch` | rust/crates/forthdb-world/src/admission_epoch.rs:866-886 | Puts the next number's record on its way, or, when it is refused, fails every epoch still owed and halts with that call as its cause. |
| `Admission.CompleteEpoch` | rust/crates/forthdb-world/src/admission_epoch.rs:888-938 | A completed write makes the journal one epoch longer and acknowledges it under its own id; a failed one is cut off as far as the file allows and halts with that call as its cause. What has been acknowledged is synced. |
| `Admission.Materialize` | rust/crates/forthdb-world/src/admission_epoch.rs:940-1027 | Applies the oldest durable epoch: the world and outcomes become those of replaying one epoch more. |
| `Admission.Abandon` | rust/crates/forthdb-world/src/admission_epoch.rs:1029-1050 | After a failed materialization everything owed is reported failed once, a successor still being written included; the file holds the journal, with the debris of that successor behind it exactly when its write failed and the truncation did not happen. |
| `Admission.Claim` | rust/crates/forthdb-world/src/admission_epoch.rs:693-760 | Turns one command into an epoch on its way or into the barrier, keeping the worker's invariant and making progress. |
| `Admission.Fill` | rust/crates/forthdb-world/src/admission_epoch.rs:693-760 | Makes commands durable until the window is full, nothing waits, or a barrier is reached. It stops for no other reason. |
| `Admission.Advance` | rust/crates/forthdb-world/src/admission_epoch.rs:760-838 | Applies one durable epoch while the next may already be on its way. It leaves the next one out only at a barrier, at the end, or at a poll that sees nothing. |
| `Admission.Run` | rust/crates/forthdb-world/src/admission_epoch.rs:676-839 | Every run keeps the invariant (first in first out, contiguous ids, replayed world, bounded window, file equal to the journal) or halts in a state that accounts for everything, with the journal still in the file and a cause: a refused or failed call of this run, or a failed materialization. A run that does not halt has done all that was sent, in order, and no call and no materialization of it failed. Those whose epoch fails are exactly the ones durable but not applied, who were told of no failed admission, and the one whose write failed, if there is one, who were; and whatever was acknowledged is synced. |
| `Admission.BarrierReached` | rust/crates/forthdb-world/src/admission_epoch.rs:676-760 | A barrier is answered exactly when every earlier intent has its outcome. |
| `Admission.FirstInFirstOut` | rust/crates/forthdb-world/src/admission_epoch.rs:676-839 | Effects are a prefix of what was sent, in order, whether the worker runs or has halted. |
| `Admission.LagIsBounded` | rust/crates/forthdb-world/src/admission_epoch.rs:676-839 | Durable minus applied epochs never exceeds the window while the worker runs. |
| `Admission.CrashKeepsReceipts` | rust/crates/forthdb-world/src/admission_epoch.rs:888-938 | Interrupted anywhere, with any prefix of the record under way on disk, the journal reads back as every acknowledged epoch in order and at most the one under way, and replay passes through the published world. |
| `Admission.Recover` | rust/crates/forthdb-world/src/admission_epoch.rs:1069-1166 | Without a snapshot, the result is the recovery function of schedule and content: the epochs the journal scan finds, exactly when the journal reads and every call of reading, creating or trimming succeeds; then everything behind them is cut off, and a new file holds just the header. A journal that was created or trimmed is durable. |
| `Admission.RecoversExactly` | rust/crates/forthdb-world/src/admission_epoch.rs:1069-1166 | On the schedule alone: a journal is recovered exactly when every call up to reading it succeeds (for a new one all pieces of its header and their sync), it reads as epochs, and, if it has a tail, the calls that cut it off and sync it succeed. |
| `Admission.RestartAfterCrash` | rust/crates/forthdb-world/src/admission_epoch.rs:1069-1202 | What recovery leaves is a journal again, and a new worker's invariant holds on it. |
| `Admission.HaltKeepsReceipts` | rust/crates/forthdb-world/src/admission_epoch.rs:888-1166 | Whatever a failed write and a failed truncation left behind the journal of a halted worker, the file reads as every acknowledged epoch in order, then what the debris holds, and replay passes through the published world; it is refused exactly when the debris, read as the next epochs, is corrupt. |
| `Admission.RestartAfterHalt` | rust/crates/forthdb-world/src/admission_epoch.rs:888-1202 | A new worker's invariant holds on what recovery leaves of a halted worker's file, when the debris holds no further epoch or is part of the record of one. |
| `Admission.RecoversUnlessCorrupt` | rust/crates/forthdb-world/src/admission_epoch.rs:1069-1166 | Recovery of a journal with anything behind it fails exactly when that is corrupt as next epochs or one of the calls it makes fails. |
| `Admission.DebrisBlocksRecovery` | rust/crates/forthdb-world/src/admission_epoch.rs:1069-1166 | Debris of 20 bytes or more that does not start with the epoch magic makes every later recovery fail, receipts or not. |
| `Admission.ReplayEpochs` | rust/crates/forthdb-world/src/admission_epoch.rs:1168-1202 | The replay loop computes the world that the journal ends in. |
| `Admission.ReplayAppends` | rust/crates/forthdb-world/src/admission_epoch.rs:1168-1202 | Replaying more epochs only adds to the history: each epoch is derived on the world that those before it left, and its frames come behind theirs. |
| `Completions.ValidateCompletionBatch` | rust/crates/forthdb-world/src/io_uring_epoch_io.rs:311-412 | Accepts a batch exactly when it has the expected size, the writes are numbered canonically, and the completions are a permutation of one full-length completion per write and one clean sync. |
| `Completions.CompleteTable` | rust/crates/forthdb-world/src/io_uring_epoch_io.rs:330-412 | A filled table with full lengths everywhere and a clean sync means the batch was complete. |
| `Completions.OncePerIdentifier` | rust/crates/forthdb-world/src/io_uring_epoch_io.rs:330-378 | No identifier completes twice in a complete batch. |
| `Completions.ArrivalOrderIsIrrelevant` | rust/crates/forthdb-world/src/io_uring_epoch_io.rs:311-412 | The order of arrival does not matter. |
| `Isa.FrameRoundTrip` | forthdb_compiler.py:128-173 | Either reader gets back an instruction stream that fits its field widths, and stops where it ends. |
| `Isa.FrameCanonical` | rust/crates/forthdb-world/src/semantic_isa.rs:102-230 | Whatever the strict reader accepts is exactly the encoding of what it reads. |
| `Layouts.StreamFields` | rust/crates/forthdb-world/src/semantic_isa.rs:70-100 | A stream starts with its magic, the version in four bytes, the namespace in eight and the number of slots in four. |
| `Layouts.InstructionFields` | rust/crates/forthdb-world/src/semantic_isa.rs:164-230 | An instruction is an opcode byte, a four-byte argument and an eight-byte immediate. |
| `Isa.WriteFrame` | rust/crates/forthdb-world/src/semantic_isa.rs:70-100 | The encoder's loops write the encoding. |
| `Isa.ReadFrame` | rust/crates/forthdb-world/src/semantic_isa.rs:102-162 | The decoder's counted loops compute the parse. |
| `Interpreter.ExecuteStep` | forthdb_world.py:240-302 | One turn of the interpreter does to the kernel, the locals and the stack what the step function says, or stops where it does, and returns the records it appended. |
| `Interpreter.ExecuteIsaFrame` | forthdb_world.py:219-302 | The interpreter's loop leaves the kernel as running the frame does, with the same failure, and returns exactly the records appended to the log (the source raises an exception in place of returning them when an expectation fails). |
| `Compiler.TransactionBuilder.Define` | forthdb_compiler.py:238-244 | Emits the three operands and the definition, interning names, as the compile function says. |
| `Compiler.TransactionBuilder.ExpectObject` | forthdb_compiler.py:250-262 | Emits the expectation with the expected cell. |
| `Compiler.TransactionBuilder.Allocate` | forthdb_compiler.py:191-196 | Emits an allocation into the next local and returns it. |
| `Compiler.PushRuns` | forthdb_compiler.py:222-236 | A pushed operand is read back at run time as the atom it stands for. |
| `Compiler.CompiledRunsAsMeant` | forthdb_compiler.py:191-276 | Running the compiled frame leaves the kernel as the calls leave it and fails on the same expectation, in the same way, or not at all. |
| `DirectLaws.DirectMeans` | forthdb_compiler.py:191-276 | Making the calls one by one is making the kernel calls behind them, with the k-th temporary the k-th entity allocated, up to the first expectation whose slot is empty or has another object on top of its stack. |
| `Compiler.CompileAndExecute` | forthdb_compiler.py:127-276 | Build, encode, decode, execute: the kernel ends where direct execution ends, the same expectation fails or none, and the records returned are exactly those appended. |
| `DirectLaws.CompiledFrameMeans` | forthdb_world.py:219-302 | The compiled frame of any program finishes exactly when every expectation is met where it stands, on the kernel that made all the calls; otherwise it halts at the first one that is not, naming its slot and whether that is empty, on the kernel that made the calls before it. |
| `Layouts.ProgramCode` | forthdb_compiler.py:191-276 | The dictionary and the code of one program that allocates, defines, expects and forgets, number by number. |
| `Compiler.EntityExpectation` | forthdb_world.py:270-296 | An entity expectation is judged as meant exactly when the object is not a literal that the expected number happens to denote (0 for any literal outside the dictionary, a cell number for the literal in it). |
| `Compiler.LiteralExpectation` | forthdb_world.py:270-296 | A literal expectation is judged as meant exactly when the object is not the entity numbered like the literal's cell. |
| `Compiler.PushedEntity` | forthdb_world.py:228-238 | A pushed entity is read back as that entity exactly when its id is below 2^63. |
| `Compiler.ZeroPassesForALiteral` | forthdb_world.py:270-296 | Expecting entity 0 passes on a literal the stream does not mention. |
| `Compiler.LargeIdsBecomeLiterals` | forthdb_world.py:228-238 | An entity id of 2^63 is read back as a literal. |
| `Rollback.FailedFrameIsRolledBack` | forthdb_world.py:219-302 | A compiled frame that fails leaves the kernel as it found it if and only if every call before the failing expectation was an expectation. |
| `Rollback.EmptyForgetIsLogged` | forthdb_world.py:284-287 | A forget of an empty slot changes no stack but still makes the log longer, so it is not undone either. |
| `Rollback.FailedFrameKeepsDefinition` | forthdb_world.py:219-302 | A define followed by an expectation of another object: the frame fails and the definition stays. |
| `SortedIndex.LookupToken` | rust/crates/forthdb-world/src/mmap_vm_snapshot.rs:140-153 | The bisection loop computes the token function. |
| `SortedIndex.TokenIsPlace` | rust/crates/forthdb-world/src/mmap_vm_snapshot.rs:140-153 | In a strictly sorted table a name has a token exactly when the table holds it, and the token is its place. |
| `SortedIndex.LowerBound` | rust/crates/forthdb-world/src/mmap_vm_snapshot.rs:974-988 | The bisection loop finds the first entry whose key prefix is not below the key. |
| `SortedIndex.RangeIsExact` | rust/crates/forthdb-world/src/mmap_vm_snapshot.rs:958-972 | When the last key component is below 2^64 - 1 the range holds exactly the entries whose key starts with the prefix. |
| `SortedIndex.IndexRange` | rust/crates/forthdb-world/src/mmap_vm_snapshot.rs:958-972 | The two bisections compute the range. |
| `SortedIndex.OpenRangeIsExactWhenLast` | rust/crates/forthdb-world/src/mmap_vm_snapshot.rs:965-968 | When the last component is 2^64 - 1 the open range is exact if and only if no entry's prefix lies above the key. |
| `SortedIndex.OpenRangeIsExactForOne` | rust/crates/forthdb-world/src/mmap_vm_snapshot.rs:965-968 | With a prefix of one component no entry's prefix can, so the open range is exact. |
| `SortedIndex.OpenRangeIsInexact` | rust/crates/forthdb-world/src/mmap_vm_snapshot.rs:965-968 | A concrete index and key for which it is not: the open range holds an entry of a later group. |
| `Snapshot.Definitions` | rust/crates/forthdb-world/src/mmap_vm_snapshot.rs:637-651 | The walk along previous records ends and lists the chain newest first. |
| `Snapshot.ResolvesAlike` | rust/crates/forthdb-world/src/mmap_vm_snapshot.rs:631-635 | An image that represents some stacks resolves every slot as they do. |
| `Snapshot.DefinesAlike` | rust/crates/forthdb-world/src/mmap_vm_snapshot.rs:637-651 | And lists the same definitions. |
| `Snapshot.ActiveIsProjected` | rust/crates/forthdb-world/src/mmap_vm_snapshot.rs:863-877 | Its active records, read back, are the projection's active facts in the projection's order. |
| `Snapshot.SmallCells` | rust/crates/forthdb-world/src/mmap_vm_snapshot.rs:958-972 | Every key the encoder produces stays below 2^64 - 1, so every range is exact. |
| `Snapshot.KeysAreSmall` | rust/crates/forthdb-world/src/mmap_vm_snapshot.rs:863-972 | Every key a query over a sound image searches for has all components below 2^64 - 1. |
| `Snapshot.MappedIsFaithful` | rust/crates/forthdb-world/src/mmap_vm_snapshot.rs:863-942 | The mapped lookup returns every active fact that can still unify exactly as often as it is active, whatever else and in whatever order. |
| `Snapshot.QueriesAlike` | rust/crates/forthdb-world/src/mmap_vm_snapshot.rs:742-1023 | Without a limit every query over the image returns the projection's bindings row by row, whatever plan either follows; with planning and deduplication off, the same rows in full. |
| `Snapshot.CountIsLength` | rust/crates/forthdb-world/src/mmap_vm_snapshot.rs:851-861 | The planner's count, read off the range without reading the candidates, is the number of candidates, in every sound image with complete indexes. |
| `Snapshot.QueryImage` | rust/crates/forthdb-world/src/mmap_vm_snapshot.rs:742-849 | A query over the image, planned by the counts that are read off the ranges, is the shared query function over the mapped lookup. (`SnapshotLookup` says which candidates it finds, and in which order.) |
| `SnapshotLookup.FoundIsSelection` | rust/crates/forthdb-world/src/mmap_vm_snapshot.rs:863-942 | The candidates found for a pattern are the selection from the active facts by the known parts, each as often as it is active, when no variable bound to a predicate stands for an atom and none bound to an atom for a predicate. |
| `SnapshotLookup.FoundInOrder` | rust/crates/forthdb-world/src/mmap_vm_snapshot.rs:863-972 | They come in the key order of the section whose key starts with the known parts, equal keys by original id, and in record order when nothing is known. |
| `SnapshotLookup.CountersAlike` | rust/crates/forthdb-world/src/mmap_vm_snapshot.rs:742-849 | Without planning and limit a query over the snapshot counts the same candidates and bindings and follows the same path as over the projection, when no variable stands both for an atom and for a predicate. |
| `SnapshotCreate.RecordAdds` | rust/crates/forthdb-world/src/mmap_vm_snapshot.rs:244-266 | A new record puts its entry on top of the chain it names as previous and disturbs no other chain. |
| `SnapshotCreate.AddStack` | rust/crates/forthdb-world/src/mmap_vm_snapshot.rs:244-266 | Lays one slot's stack down so that its head's chain is the stack, unless an entity id cannot be stored. |
| `SnapshotCreate.BuildRecords` | rust/crates/forthdb-world/src/mmap_vm_snapshot.rs:215-266 | The tables, records and heads describe all stacks; fails exactly when an entity id overlaps the literal cells or the records or strings outnumber 32 bits. |
| `SnapshotCreate.HeadsApart` | rust/crates/forthdb-world/src/mmap_vm_snapshot.rs:267-272 | The heads are records with different original ids, so sorting them leaves no choice. |
| `SnapshotCreate.BuildIndex` | rust/crates/forthdb-world/src/mmap_vm_snapshot.rs:273-308 | An index is sorted by key, holds every active record once, and each entry has its record's key. Entries with equal keys rise by original id. |
| `SnapshotCreate.Create` | rust/crates/forthdb-world/src/mmap_vm_snapshot.rs:202-308 | Succeeds exactly when every entity id can be stored and records and strings can be numbered in 32 bits, and then represents the stacks. |
| `SnapshotSections.RowsRoundTrip` | rust/crates/forthdb-world/src/mmap_vm_snapshot.rs:1105-1136 | Rows of fixed width read back from their bytes. |
| `SnapshotSections.RowPlace` | rust/crates/forthdb-world/src/mmap_vm_snapshot.rs:666-680 | Row i lies at i times the width: reading it in place is reading all rows and taking the i-th. |
| `SnapshotSections.ReadRow` | rust/crates/forthdb-world/src/mmap_vm_snapshot.rs:728-740 | Reading a row by index succeeds exactly when the section holds it. |
| `SnapshotSections.TableRoundTrip` | rust/crates/forthdb-world/src/mmap_vm_snapshot.rs:1089-1103 | A strictly sorted table of UTF-8 strings is read back from its bytes. |
| `SnapshotSections.ClimbingIsStrict` | rust/crates/forthdb-world/src/mmap_vm_snapshot.rs:104-115 | Comparing neighbours decides whether the whole table is strictly sorted. |
| `SnapshotSections.ReadTable` | rust/crates/forthdb-world/src/mmap_vm_snapshot.rs:71-116 | The parser accepts exactly the tables with a proper offset directory and strictly sorted UTF-8 strings, and returns their strings. |
| `SnapshotSections.WriteTable` | rust/crates/forthdb-world/src/mmap_vm_snapshot.rs:1089-1103 | The encoder's two loops write the table's bytes. |
| `SnapshotSections.HistoryRoundTrip` | rust/crates/forthdb-world/src/mmap_vm_snapshot.rs:1138-1272 | A history that fits 32-bit lengths and counts is read back from its bytes. |
| `SnapshotSections.HistoryCanonical` | rust/crates/forthdb-world/src/mmap_vm_snapshot.rs:1199-1272 | Whatever history decodes is the encoding of what it decodes to. |
| `SnapshotSections.ShortIsStorable` | rust/crates/forthdb-world/src/mmap_vm_snapshot.rs:1138-1197 | A frame the stores can hold fits the snapshot exactly when no count or string needs more than 32 bits. |
| `SnapshotSections.EncodeHistory` | rust/crates/forthdb-world/src/mmap_vm_snapshot.rs:1138-1197 | The encoder refuses exactly the histories that do not fit, and otherwise writes their bytes. |
| `SnapshotSections.ReadHistory` | rust/crates/forthdb-world/src/mmap_vm_snapshot.rs:1199-1272 | The decoder's loop computes the decoding. |
| `SnapshotFile.BodyHolds` | rust/crates/forthdb-world/src/mmap_vm_snapshot.rs:325-331 | Every section is found in its recorded span, spans ascend without overlap and stay inside the file. |
| `SnapshotFile.EnvelopeRoundTrip` | rust/crates/forthdb-world/src/mmap_vm_snapshot.rs:391-438 | Opening an envelope gives back its metadata and ten sections, and accepts exactly the journals whose prefix of the recorded length has the recorded digest. |
| `SnapshotFile.SectionsRoundTrip` | rust/crates/forthdb-world/src/mmap_vm_snapshot.rs:439-497 | The sections of a writable image open to that image exactly when the metadata counts its active slots and frames. |
| `SnapshotFile.CreatedOpens` | rust/crates/forthdb-world/src/mmap_vm_snapshot.rs:391-497 | Opening the file of a writable image gives back image, metadata and history, exactly when the journal's prefix of the recorded length has the recorded digest and the two counts are right. |
| `SnapshotFile.AnyHistoryOpens` | rust/crates/forthdb-world/src/mmap_vm_snapshot.rs:479-497 | Of the history only the leading count is compared: a writable image opens with any history bytes, exactly when they start with the recorded count and the rest of the metadata fits. |
| `SnapshotFile.UndecodableHistoryOpens` | rust/crates/forthdb-world/src/mmap_vm_snapshot.rs:1025-1031 | A history section that announces one frame and ends there opens and does not decode. |
| `Collisions.OtherJournalOpens` | rust/crates/forthdb-world/src/mmap_vm_snapshot.rs:407-414 | A snapshot taken after one concrete journal opens over another that does not start like it, as their prefixes have the same digest. |
| `SnapshotFile.RepresentedIsWritable` | rust/crates/forthdb-world/src/mmap_vm_snapshot.rs:202-308 | What the creator builds for any stacks is writable. |
| `SnapshotFile.OpenedIsSound` | rust/crates/forthdb-world/src/mmap_vm_snapshot.rs:499-534 | Whatever opens, from whatever bytes, has sorted UTF-8 tables, sorted indexes, no record, head or index entry that leads outside a section, and a history section that starts with the recorded count; it is sound if and only if its list of active records stays inside the records. |
| `SnapshotSeal.OpenedIsSealed` | rust/crates/forthdb-world/src/mmap_vm_snapshot.rs:391-438 | Whatever opens has the magic, the version, its own length, the trailer and the digest of everything behind the header; the journal's prefix of the recorded length has the recorded digest; all sections lie between header and trailer and no two overlap; the history returned is the last of them. |
| `SnapshotFile.ActiveListIsFree` | rust/crates/forthdb-world/src/mmap_vm_snapshot.rs:391-534 | Any list of 32-bit words of the recorded length may stand in for a file's list of active records, and the file opens with it. |
| `SnapshotFile.StrayActiveOpens` | rust/crates/forthdb-world/src/mmap_vm_snapshot.rs:499-534 | A concrete file opens to an image with an active record outside its records. |
| `SnapshotReopen.WriteFile` | rust/crates/forthdb-world/src/mmap_vm_snapshot.rs:324-357 | Laying out the aligned sections and filling in the header gives the file's bytes. |
| `SnapshotReopen.CreateFile` | rust/crates/forthdb-world/src/mmap_vm_snapshot.rs:202-389 | Refuses exactly when an entity id or a length cannot be written or the file is too large; otherwise writes an image that represents the stacks. |
| `SnapshotReopen.Validate` | rust/crates/forthdb-world/src/mmap_vm_snapshot.rs:499-534 | The validation loops, which compare neighbours only, decide that records, heads and indexes are in range and the indexes sorted. |
| `SnapshotReopen.CheckLayout` | rust/crates/forthdb-world/src/mmap_vm_snapshot.rs:414-438 | The bounds and overlap loops decide whether the spans lie in the file and, in order of start, do not overlap. |
| `SnapshotReopen.OpenFile` | rust/crates/forthdb-world/src/mmap_vm_snapshot.rs:391-497 | The opener computes the open function. |
| `SnapshotReopen.ReopenedAgrees` | rust/crates/forthdb-world/src/mmap_vm_snapshot.rs:202-534 | A snapshot of any replayed history, reopened over any journal that continues the one it followed, gives the projection's resolution, definitions, rows and frames; it can be taken exactly when ids and lengths can be written and the file is not too large. |
| `SnapshotReopen.ReopenedIsProjection` | rust/crates/forthdb-world/src/mmap_vm_snapshot.rs:202-534 | For every history that fits, every image created for it, and every journal that continues the one it followed: the file's bytes open to that image, it is sound, its decoded history is the frames, every slot resolves and lists its definitions as the replaying kernel's does, and every query's rows agree with the projection's. |
| `SnapshotReopen.UnroomyIsTooLarge` | rust/crates/forthdb-world/src/mmap_vm_snapshot.rs:324-389 | A snapshot whose records or strings outnumber 32 bits would exceed the size limit in any case. |

## Left out

- Real files, memory maps, fsync, ring submission, writer leases and threads: the abstract byte file with its fault
  schedule, and the steps of each worker, stand for them.
- Intent derivation, intent payload encoding and the token machine's own state (`queued.rs` and `stack_vm.rs` are not
  part of this model): derivation is an arbitrary deterministic function and the intent codec any codec that reads
  back what it wrote.
- Validators registered while a controller runs, derivation panics, tickets of submitters that race with a shutdown,
  and the batching by time and width of the durable controller: a run is a given sequence of batches.
- Timing, structural metrics and counters other than the query metrics.
- Overflow of entity ids, versions and epoch numbers past 64 bits while counting up; hash functions are arbitrary.
- Error message texts: errors are a few constructors or their absence.
- Display names and symbol tables, which are defines and resolves of slots with a fixed naming scheme.
- Admission.Recover: the branch that skips the journal's epochs because a mapped snapshot ends where the journal does;
  when such a snapshot opens, and what it then answers, is the subject of the snapshot modules.
- Database.Database.Append: whether the file takes the frame is a success flag here, and what a failed append leaves in
  the file is not part of the database's state; `FileStore.FileCommitStore.Append` is the same append with every file
  call explicit.
- Building a world directly from an epoch's derived state, and a projection that layers new frames over a mapped
  snapshot.
- A snapshot whose records or strings outnumber 32 bits: the model refuses it outright, where the code would first cut
  their numbers to 32 bits and build a file; `SnapshotReopen.UnroomyIsTooLarge` shows that the file is past the size
  limit, so the code refuses it as well.
- The per-record cache of decoded facts in an open snapshot, which holds only what the records say.
- The Python kernel is represented by the legacy kernel, whose define, forget and resolve it shares; copying a kernel
  and the JSON log of the Python database are not modelled.
- `mmap_store.rs` and `mmap_format.rs`, a third copy of the frame decoder; `queued_controller.rs`, whose batching
  repeats the durable worker; `shared_reaped.rs` and `history_lifecycle.rs`, which reclaim memory without an effect
  on results; the transaction syntax tree, a second front end with another byte layout.
- Demos, conformance runners, benchmarks and reports.
