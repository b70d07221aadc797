# A Dafny model of the chain indexer's entity index and of its fee-bumped sender

The indexer follows a chain whose transactions carry operations on entities
(create, patch, extend, transfer, delete). It folds each entity's operations
into versions that are valid on half-open ranges of blocks, keeps two tables of
them in step with a scanner that writes forward, late and over old rows, imports
the entities a chain was born with, and answers queries at any past block, page
by page. This project models that pipeline and proves what it promises, for all
inputs and all runs. A second, smaller part models the loop that sends one
nonce's transaction with fee bumps against an environment that may fail at
every step.

The central claim is `ProjectorTheorems.ReadyIndexIsTheFold`: whatever the
interleaving of chunk folds, late scans, genesis import, rescans and crashes, a
ready index holds, for every block up to the fold point, the fold of everything
stored up to that block, except for keys that have a row at or below the block
which the next late scan is sure to read, and for keys the start's watermark
passed over. `ProjectorStart` says exactly which those are. Everything else leans
on it or feeds it.

## Files

- `ByteStrings`, `BigEndian`, `Wrappers`: byte strings in lexicographic order, fixed-width numbers, hex, options and outcomes.
- `EntityIndex`, `FoldProperties`, `VersionProperties`: the fold, as functions and as the source's loops, and what it means.
- `EventPairing`: receipt logs paired with operations, and the scanner's pairing of creates with their keys.
- `IndexStorage`, `IndexTables`: which operations a key is folded from, batched refolds, and the two tables as a class.
- `StoredPast`: what the stored rows up to a block say of the fold of all of them.
- `Projector`, `ProjectorRuns`, `ProjectorTheorems`, `ProjectorStart`, `EntityProjector`: the projector as a state machine, its invariant over all runs, what readers get from it, what its start can lose, and the source's loops tied to the machine.
- `QuerySql`, `Paging`, `PagingRuns`, `Cursor`: queries compiled to predicates over the tables, pages at a pinned block, reading while the projector runs, and cursors bound to their request.
- `GenesisEntity`, `GenesisWalk`, `WalkRefinement`: the node's entities as versions, the walk that pages them in from several backends, and the walk as steps of the projector's machine.
- `Rlp`, `DumpRecord`, `Tokenizer`, `GenesisDump`, `Ledger`, `DumpImport`, `DumpVersions`: the offline dump, from bytes to rows and to the seed of the index.
- `FeeBumps`: replacement fees and the send loop.

Specifications are functions over values; code that works by changing things is
a method or a class proved against them. State machines model each database
transaction under the fold lock as one atomic step and everything the code
carries from one transaction to the next as local state, so that other
processes may act in between.

## Where the code differs from its documentation

- The start stores floor, fold point and watermark in three statements outside a
  transaction. A crash between them, or merely time passing, lets the watermark
  come later than the detection of the floor, and a keyed create written below
  the floor in between can be missing from a ready index with no late scan to
  list it: `ProjectorStart.CutShortStartLosesAKey` is such a run,
  `ProjectorStart.CleanStartExactly` says when there is none, and
  `ProjectorStart.StrandedForGood` that it does not heal.
- The scanner's key filling drops an `EntityCreated` log without a key topic
  before it pairs, the fold's event pairing counts it: `EventPairing.AMissingTopicDropsAnEvent`
  shows a receipt on which a filled create loses its event, and
  `EventPairing.FilledKeysAreKept` says exactly when none does.
- Failing a genesis import checks that it is running, not that it is still in
  the walk phase: a stale backend's refused page fails an import another
  backend has already handed to the repair (`GenesisWalk.LateRefusalFailsTheImport`,
  `GenesisWalk.HandedOverFailsExactly`).
- The strict text decoder drops a leading byte order mark, so a dump record's
  name or text that starts with one does not come back as it was seeded
  (`DumpRecord.AMarkIsLost`, `DumpRecord.AttributesSurviveUnmarked`).
- The cursor decoder refuses blocks past the bigint column so that a forged
  cursor is no driver error, but accepts positions and operation indices past
  the int columns (`Cursor.ForgedPositionIsAccepted`, `Cursor.AcceptedCursorsFit`).
- A head read whose fold point moves on between resolving its block and querying
  misses the entities changed since: `PagingRuns.HeadReadLosesAnAnswer` is such a
  run, `Paging.ReturnedExactly` and `Paging.WalkReturnsExactly` say what is missed.

## Model

| member | source | states |
|---|---|---|
| ByteStrings.PrefixIsRange | src/entityQuerySql.ts:49-62 | for all byte strings, starting with a prefix is lying at or above it and, where there is a next prefix, below that; empty and all-0xff prefixes included |
| ByteStrings.NextBytePrefix | src/entityQuerySql.ts:53-61 | the loop over trailing 0xff bytes and the bump in place give the next prefix, or null exactly when there is none; the input is untouched |
| EntityIndex.FoldEntityVersions | src/entityIndex.ts:250-336 | the loop over a mutable version list and attribute map computes the fold, or throws exactly when it does |
| EntityIndex.ReplayOp | src/entityIndex.ts:271-334 | one operation of the loop is one step of the fold |
| EntityIndex.ApplyAttributes | src/entityIndex.ts:216-233 | applying triples in order to the map, throwing at the first that is flagged or malformed |
| EntityIndex.SortedAttributes | src/entityIndex.ts:156-158 | sorting the map's values by name bytes gives the map's one sorted listing |
| EntityIndex.SummarizeAttributes | src/entityIndex.ts:161-171 | one pass computes the bytes held and the schema name |
| FoldProperties.FoldIgnoresOrder | src/entityIndex.ts:152-154 | the fold is a function of the set of operations: any input order gives the same versions |
| FoldProperties.FoldIsHistory | src/entityIndex.ts:250-336 | every fold is numbered from 0, ends each version where the next starts, ascends in chain order, keeps creation and creator, sorts attributes, and has nothing after a delete |
| FoldProperties.TimeTravel | src/entityIndexStorage.ts:1044-1053 | for every block, the version valid there is the last version of folding only the operations at or below it, and there is one exactly when that fold is not empty |
| FoldProperties.PastFoldIsStarted | src/entityIndexStorage.ts:1044-1053 | folding only the operations up to a block gives the versions of the whole fold that have started by then, the last of them open again |
| FoldProperties.ValidityPartitionsBlocks | src/entityIndex.ts:250-336 | validity ranges partition the blocks from creation on: at most one valid version per block, and one from the first on |
| FoldProperties.RefoldFromStoredBase | src/entityIndexStorage.ts:962-972 | the stored version 0, closed or not, replays to the same history as the genesis state it came from |
| FoldProperties.AttributesAreLastWriterWins | src/entityIndex.ts:216-233 | each version's attributes are the genesis state's, overwritten by the last word of every triple since creation, tombstones unsetting |
| VersionProperties.VersionsAreOperations | src/entityIndex.ts:271-334 | versions and effective operations of the entity's life correspond one for one; each version differs from the one before exactly in what its operation is about |
| VersionProperties.ResolvedExpiryIsTheLater | src/entityIndex.ts:141-150 | the requested expiry is the later of the deadline and the lifetime's end, capped at the permanent expiry |
| VersionProperties.SchemaNameIsTheTag | src/entityIndex.ts:161-171 | an entity has a schema name exactly when it has the indexed text attribute of that name |
| EventPairing.AttachEventsToOps | src/entityIndex.ts:420-438 | shifting per-kind queues gives every operation the event of the n-th log of its kind, dropped when the keys disagree |
| EventPairing.EachOpGetsItsEvent | src/entityIndex.ts:420-438 | with one registry event per operation in order, each operation gets its own |
| EventPairing.AttachedEventIsOwn | src/entityIndex.ts:429-437 | with no assumption on the receipt, an attached event comes from a registry log of the operation's kind and key |
| EventPairing.NoLogUsedTwice | src/entityIndex.ts:420-437 | where the receipt's log indices are distinct, two operations of a transaction, of one kind or of two, are never paired with the same log |
| EventPairing.FillCreateEntityKeys | src/arkivOperations.ts:375-411 | keys are written in place to the creates that lack one, in order, when and only when the counts agree |
| EventPairing.FilledKeysAreKept | src/arkivOperations.ts:375-411 | every filled create keeps its event in the fold's pairing if and only if every EntityCreated log before the last paired one has its key topic |
| EventPairing.AMissingTopicDropsAnEvent | src/arkivOperations.ts:387-397 | a receipt on which the two pairings disagree: an EntityCreated log without a key topic shifts the one and not the other |
| IndexStorage.RecordsAreApplied | src/entityIndexStorage.ts:834-921 | an entity's operations are exactly the keyed rows of transactions that succeeded and whose sender is known |
| IndexStorage.LoadEntityOps | src/entityIndexStorage.ts:834-921 | loading whole transactions that touch any wanted key gives each key exactly its own operations, whatever the other keys of the batch |
| StoredPast.TruthInThePast | src/entityIndexStorage.ts:834-921 | cutting the stored rows at a block and folding gives the history of the longer load as it stood at the block |
| IndexStorage.RefoldInTwo | src/entityIndexStorage.ts:935-955 | refolding a key set in two parts is refolding it at once, faults included: no batch width and no partition changes the result |
| IndexStorage.RenewedIsWellFormed | src/entityIndexStorage.ts:935-972 | a refold leaves a well-formed history and the genesis state it stands on |
| IndexTables.EntityIndexStorage.RefoldEntities | src/entityIndexStorage.ts:935-955 | the batched loop ends in the refold of the whole key set for every batch width, and both tables stand for it |
| IndexTables.EntityIndexStorage.ReplaceVersions | src/entityIndexStorage.ts:996-1016 | deleting and inserting rows leaves the versions table the histories and the attributes table its flattening |
| IndexTables.EntityIndexStorage.InsertGenesisVersions | src/entityIndexStorage.ts:979-994 | inserting where there is no conflict adds exactly the missing genesis states to both tables |
| IndexTables.EntityIndexStorage.LoadGenesisBases | src/entityIndexStorage.ts:962-972 | the version-0 rows at block 0 are exactly the genesis states of the histories |
| IndexTables.EntityIndexStorage.RefoldInTransaction | src/entityProjector.ts:376-386 | a refold under the fold lock succeeds exactly when every key folds, and otherwise leaves both tables as they were |
| IndexTables.AttributeRowsContents | src/entityIndexStorage.ts:393-406 | one attribute row per attribute of each version, under the version's key and number, and no others |
| ProjectorRuns.RunsKeepInvariant | src/entityProjector.ts:272-359 | every state of every run of projector, scanner, backfill, importers and crashes, the start's three separate writes included, satisfies the index invariant, which speaks of every key at every block covered |
| ProjectorRuns.WriteKeepsInvariant | src/entityIndexStorage.ts:796-803 | a write, committed within the overlap of its stamp, leaves its keys awaiting the late scan at the blocks from its own on, and everything else as it stood at each block |
| ProjectorRuns.FoldChunkKeepsInvariant | src/entityProjector.ts:370-392 | a chunk fold moves the fold point and keeps every key standing at every block up to it or awaiting the late scan there, rows written since the plan included |
| ProjectorRuns.RefoldLateKeepsInvariant | src/entityProjector.ts:404-434 | a late scan leaves waiting, at each block, only keys with rows up to there stamped within the overlap of its start |
| ProjectorRuns.MarkedKeepsInvariant | src/entityProjector.ts:409-412 | the first watermark, the start's or that of a late scan that finds none, keeps every key standing or waiting but those it is on record as passing over |
| ProjectorRuns.CommitWalkKeepsInvariant | src/entityProjector.ts:650-676 | a genesis batch, rewritten or new, keeps the index standing and the rows a prefix of the node's order |
| ProjectorRuns.CommitRepairKeepsInvariant | src/entityProjector.ts:822-838 | a repair page of any backend leaves its keys, and those it passes over, standing on their genesis states at every block covered, or awaiting the late scan there; one the repair has moved past leaves everything as it was |
| ProjectorTheorems.ReadyIndexIsTheFold | src/entityProjector.ts:334-352 | in every state of every run, at every block up to the fold point, each key's stored versions are the fold of its applied operations up to that block on its genesis state, unless it has a row at or below the block that the next late scan reads, or the first watermark passed it over |
| ProjectorTheorems.LateScanListsThePending | src/entityIndexStorage.ts:796-803 | a key awaits the late scan at some block covered exactly when the next one reads it |
| ProjectorTheorems.LateScanCompletes | src/entityProjector.ts:404-434 | an undisturbed late scan of readable receipts runs through and moves the watermark to its start |
| ProjectorTheorems.LateScanSettles | src/entityProjector.ts:404-434 | after it a key stands at a block unless one of its rows up to there was stamped within the overlap before it began |
| ProjectorTheorems.RunsAreConfluent | src/entityProjector.ts:272-359 | two runs that end at one fold point over the same stored operations with nothing behind end with the same versions as they stood at every block up to it, and with the same histories where neither has a version above it, whenever genesis was imported and however chunks were cut |
| ProjectorTheorems.TablesAreDetermined | src/entityIndexStorage.ts:979-1016 | the two tables are a function of the histories |
| ProjectorTheorems.RepairProgresses | src/entityProjector.ts:818-855 | each committed repair page finishes the repair or leaves strictly fewer keys, for any page limits and any number of backends |
| ProjectorTheorems.StalePageChangesNothing | src/entityProjector.ts:822-827 | over whole runs, once any backend has moved the repair past the key a page was read after, or the repair is over, committing that page changes nothing, however much later it comes |
| ProjectorTheorems.RepairedSeedStands | src/entityProjector.ts:784-856 | once the repair is done every genesis entity stands in the index on its own genesis state at every block covered, or is behind there |
| ProjectorTheorems.IndexAnswersThePast | src/entityIndexStorage.ts:1044-1053 | a key with nothing behind at a block has there exactly one valid stored version, its state by the operations up to the block, or none where it has no state; what is late or folded above plays no part |
| ProjectorStart.FirstWatermarkPassesOver | src/entityProjector.ts:409-412 | the keys the first watermark passes over are exactly those that stand wrong at some block covered and wait for no late scan there |
| ProjectorStart.CleanStartExactly | src/entityProjector.ts:303-307 | the first watermark passes over nothing if and only if every key that the rows at or below the fold point bring into being, at any block, has a row up to that block stamped within the overlap of the watermark |
| ProjectorStart.RecentCreatesSuffice | src/entityProjector.ts:303-307 | nothing is passed over where every keyed create at or below the fold point is stamped within the overlap of the watermark |
| ProjectorStart.PassedOverInTheWindow | src/entityProjector.ts:299-307 | a key passed over has a row at or below the fold point stamped after the floor's detection and not after the watermark, each less the overlap |
| ProjectorStart.CleanStartStaysWhole | src/entityProjector.ts:303-307 | a run whose first watermark passed over nothing stands for the fold in every later state, but for what the next late scan reads |
| ProjectorStart.StrandedForGood | src/entityIndexStorage.ts:796-803 | a key so passed over stays missing through every later chunk, late scan and repair, until a row of it is written again |
| ProjectorStart.CutShortStartLosesAKey | src/entityIndexStorage.ts:583-599 | a run, for any overlap: a crash after the floor row, a keyed create backfilled below it, a tick past the overlap; the ready index lacks the key and no scan will list it |
| EntityProjector.PlanChunkEnd | src/entityIndexStorage.ts:766-783 | the chunk ends at the first filled block with enough operations or the last of the planned ones, all earlier filled blocks being short of both, or at the head; it always makes progress |
| EntityProjector.EntityProjector.FoldChunk | src/entityProjector.ts:370-392 | the method's effect on tables and state row is the machine's chunk fold |
| EntityProjector.EntityProjector.FoldToHead | src/entityProjector.ts:334-352 | the tick's loop keeps the invariant for any chunk sizes and budget, says whether the fold point is at the head, and gets it there when folding is allowed, everything up to the head folds and the budget has a chunk for each block |
| EntityProjector.EntityProjector.RefoldLateArrivals | src/entityProjector.ts:404-434 | the method is the machine's late scan: it completes exactly when there was no watermark, nothing is listed, or folding is allowed and all that is listed folds; done, the index stands relative to its start |
| EntityProjector.EntityProjector.GenesisKeysWithOperations | src/entityIndexStorage.ts:811-823 | the first genesis keys with operations past a key, in key order, up to the limit |
| EntityProjector.EntityProjector.RepairGenesis | src/entityProjector.ts:818-855 | the repair loop keeps the invariant over any page size and budget, ends done exactly after a short page, and does end when every genesis entity's operations fold and the budget exceeds the keys left |
| EntityProjector.EntityProjector.CommitPage | src/entityProjector.ts:822-838 | one page's refold and the key to go on from are the machine's repair step, and fail together |
| QuerySql.CompilationPreservesMeaning | src/entityQuerySql.ts:108-165 | for every well-typed query, row and parameter placement the compiled predicate evaluates, with no failing cast, to what the query says of the version's own attributes |
| QuerySql.RowsAreOwnAttributes | src/entityQuerySql.ts:150-157 | the EXISTS over the attributes table looks at exactly the version's own indexed attributes |
| QuerySql.CompileFaultsExactly | src/entityQuerySql.ts:118-122 | compilation throws on exactly the queries with a prefix of a system attribute |
| QuerySql.NumericRoundTrip | src/entityQuerySql.ts:64-81 | a number passed as decimal text is read back as itself, sign included |
| QuerySql.CompileNode | src/entityQuerySql.ts:83-158 | the recursion that appends to the shared parameter list yields the predicate and parameters of the specification at any offset |
| QuerySql.CompileEntityQuery | src/entityQuerySql.ts:161-165 | a fresh parameter list at the given offset |
| Paging.HeadFilterIsSubset | src/entityIndexStorage.ts:1044-1053 | whatever was folded since, the head filter selects only rows the historical filter selects |
| Paging.HeadFilterIsExact | src/entityIndexStorage.ts:1044-1053 | a row passes the head filter exactly when it passes the historical one and no version of its entity starts above the block |
| Paging.ReturnedExactly | src/entityIndexStorage.ts:1044-1075 | with either filter, and however far the index has folded since the block was resolved, a statement returns no wrong row and misses exactly the answers a head read was overtaken on, by a version of the entity above the block |
| Paging.StatementSelectsAnswers | src/entityIndexStorage.ts:1055-1086 | the statement selects exactly the recorded live versions the query matches, whatever cursor and limit parameters follow |
| Paging.AnswersAreStates | src/entityIndexStorage.ts:1055-1075 | where nothing behind at the block answers otherwise than its fold, the answers are exactly each entity's state there, live and matching |
| Paging.PinnedAnswersAreStable | src/arkivJsonRpc.ts:408-436 | two states of the index any number of folds apart answer alike at a block nothing was stored below since, late rows above it notwithstanding |
| Paging.CreationTripleIsInjective | src/entityIndexStorage.ts:88-88 | no two entities share a creation triple, in any state whatever |
| Paging.PageCovers | src/entityIndexStorage.ts:1055-1075 | a page holds, in creation order, exactly the answers past its cursor up to the next one, and is not empty when there is a next |
| Paging.PageCursorsFit | src/arkivJsonRpc.ts:430-436 | over rows whose creation triples fit their columns, the cursor a page gives out encodes, is accepted as the triple it stands for, and fits the columns it is compared with |
| Paging.WalkReturnsExactly | src/arkivJsonRpc.ts:408-436 | with each request's block resolved in one state and its statement run in another, following the cursors at a pin returns matching live entities in creation order, none twice, and all of them but those the request whose page covers their place was overtaken on; for any page sizes, however far the projector folds and whatever is late or unreadable above |
| Paging.WalkReturnsEachAnswerOnce | src/arkivJsonRpc.ts:408-436 | where no request was overtaken, the walk returns each matching live entity exactly once, in creation order, as many as the count |
| Paging.WalkProgresses | src/arkivJsonRpc.ts:430-436 | each page with more to come leaves strictly fewer answers ahead |
| Paging.ReadsAreCovered | src/arkivJsonRpc.ts:343-358 | a read resolves only to a block a ready index covers, and takes the head filter exactly at the fold point |
| PagingRuns.ServedAlongARun | src/entityProjector.ts:272-359 | a state that serves a block goes on to: every later ready state of the run serves it with the same past, as long as nothing is stored at or below it and no import completes in between |
| PagingRuns.WalkAlongARun | src/arkivJsonRpc.ts:408-436 | so the requests of a walk along a run are served at the pin as soon as the first is, each statement finding a ready index with the import where it was and nothing stored at or below the pin |
| PagingRuns.HeadReadLosesAnAnswer | src/arkivJsonRpc.ts:413-429 | for any overlap a run from a clean start in which a reader resolves the head, the entity's delete one block up is stored and folded, and the statement then does not return the entity, which answers at the block |
| Cursor.CursorRoundTrip | src/arkivJsonRpc.ts:198-219 | a position decodes to itself under its own binding exactly when its block fits the column, and is refused under every other binding |
| Cursor.DecodedCursorsAreEncoded | src/arkivJsonRpc.ts:210-219 | every accepted token is the one its position encodes to |
| Cursor.AcceptedCursorsFit | src/arkivJsonRpc.ts:210-219 | an accepted token's block always fits its column; its position and operation index fit theirs exactly when the first hex digit of each word is at most 7 |
| Cursor.ForgedPositionIsAccepted | src/entityIndexStorage.ts:1060-1063 | under every binding a position past the int column is accepted by the decoder |
| Cursor.FingerprintIsInjective | src/arkivJsonRpc.ts:145-170 | different selections have different fingerprints |
| Cursor.PreimageIsInjective | src/arkivJsonRpc.ts:188-196 | no two requests hash the same bytes |
| Cursor.CursorResumesOnlyItsRequest | src/arkivJsonRpc.ts:188-219 | where the hash tells the preimages apart, a cursor decodes if and only if query, block and selection are those it was given out for |
| Cursor.WriteCursor | src/arkivJsonRpc.ts:198-205 | writing the words into the buffer gives the encoded cursor |
| Cursor.ProjectionFingerprint | src/arkivJsonRpc.ts:145-170 | pushing flags, mode and NUL-terminated sorted names gives the fingerprint |
| GenesisEntity.GenesisEntityToVersion | src/entityGenesis.ts:291-382 | the checks and the sorted attribute list give the version, or a refusal, of the specification |
| GenesisEntity.StoredEntityIsCanonical | src/entityGenesis.ts:291-382 | what is stored is version 0 from block 0 at its number in the node's order, with exactly the node's attributes, sorted and each once |
| GenesisEntity.SeedIsWellFormed | src/entityGenesis.ts:291-382 | entities under distinct keys make a seed the projector and the pages can stand on |
| GenesisWalk.WalkKeepsOrder | src/entityProjector.ts:645-721 | over all runs with expiries, rewinds, crashes and several backends the rows are the versions of a prefix of the node's order at their places, and the cursor is null exactly while the count is zero |
| GenesisWalk.HandedOverIsWhole | src/entityProjector.ts:688-721 | the import is handed to the repair only with exactly all counted entities in, each at its number |
| GenesisWalk.RowsAreNeverRewritten | src/entityIndexStorage.ts:979-994 | between any two states of a run no genesis row is lost or rewritten, through rewinds, stale walks and failures |
| GenesisWalk.OvertakenCommitChangesNothing | src/entityProjector.ts:650-668 | without a rewind in between, once the count has passed what a walk last saw, at any earlier moment of the run, whatever it commits later changes nothing |
| GenesisWalk.HandedOverFailsExactly | src/entityProjector.ts:766-776 | a row in the repair phase is left alone by every walk step except a refusal or the last allowed cursor expiry, which fail it |
| GenesisWalk.LateRefusalFailsTheImport | src/entityProjector.ts:766-776 | for every node and empty start a run in which one backend hands over and the other's refused first page fails the import with all entities in |
| GenesisWalk.LateExpiryFailsTheImport | src/entityProjector.ts:725-752 | a run from an empty table: three rewinds, then one backend hands over and the other's fourth expired cursor fails the import with all entities in |
| GenesisWalk.WalkGenesisEntities | src/entityGenesis.ts:414-461 | the generator refuses a count out of range or already passed, then refuses or passes exactly the pages of the specification, in order, up to the last |
| GenesisWalk.ConvertPage | src/entityGenesis.ts:448-448 | each entity of a page at the next position, or a refusal |
| WalkRefinement.WalkStepRefines | src/entityProjector.ts:650-676 | each step of any backend's walk is one import step of the projector's machine, or changes nothing of the index |
| WalkRefinement.WalkRunsRefine | src/entityProjector.ts:645-752 | every run of several backends is matched by a run of the projector's machine of import steps only, ending with the same rows and phase |
| Rlp.ItemProgresses | src/entityGenesisDump.ts:74-90 | an item read lies inside the buffer and moves the offset on |
| Rlp.ItemsTile | src/entityGenesisDump.ts:99-110 | the items of a list cover its payload one after the other, without gap or overlap |
| Rlp.TilesDecode | src/entityGenesisDump.ts:99-110 | items that cover a payload are what the list decodes to |
| Rlp.CountIsLength | src/entityGenesisDump.ts:113-150 | measuring a byte vector and decoding it agree on every input, refusals included |
| Rlp.ReadsBack | src/entityGenesisDump.ts:74-97 | an item encoded by the Yellow Paper, Appendix B, reads back wherever it stands in a buffer |
| Rlp.ListReadsBack | src/entityGenesisDump.ts:99-110 | a list's items read back, one for each written, with their payloads |
| Rlp.VectorRoundTrip | src/entityGenesisDump.ts:113-150 | both forms of a byte vector decode to the same bytes |
| Rlp.UnsignedRoundTrip | src/entityGenesisDump.ts:157-163 | an integer of its width reads back |
| Rlp.ReadItem | src/entityGenesisDump.ts:74-90 | the item at an offset |
| Rlp.ReadLength | src/entityGenesisDump.ts:92-97 | the length loop reads at most six big-endian bytes inside the buffer |
| Rlp.ListItems | src/entityGenesisDump.ts:99-110 | the loop collects the list's items or refuses |
| Rlp.ByteVector | src/entityGenesisDump.ts:113-134 | the array of the measured length is filled with the vector's bytes |
| Rlp.ByteVectorLength | src/entityGenesisDump.ts:137-150 | the counting loop measures the vector or refuses an overrun |
| Rlp.UnsignedField | src/entityGenesisDump.ts:157-163 | the loop reads the integer or refuses its width or a leading zero |
| DumpRecord.RecordRoundTrip | src/entityGenesisDump.ts:235-280 | decoding what the seeder encodes gives the entity back, in both byte-vector forms, with and without creation flags; a leading byte order mark of text is lost |
| DumpRecord.AttributesSurviveUnmarked | src/entityGenesisDump.ts:173-179 | the decoder returns a record's attributes exactly as seeded if and only if no name and no text starts with a byte order mark |
| DumpRecord.AMarkIsLost | src/entityGenesisDump.ts:173-179 | a record with one attribute whose text is the mark decodes to the empty text |
| DumpRecord.ValueRoundTrip | src/entityGenesisDump.ts:182-213 | every attribute value reads back from its storage bytes |
| DumpRecord.SignedRoundTrip | src/entityGenesisDump.ts:197-200 | two's complement integers of any width read back |
| Tokenizer.ScanInTwo | src/entityGenesisDump.ts:417-441 | feeding what was kept of one piece together with the next finds exactly the pairs of the whole, wherever it is cut |
| Tokenizer.EarlierMatchEndsFirst | src/entityGenesisDump.ts:417-418 | of two overlapping matches the one that starts first ends first |
| Tokenizer.SystemStorageTokenizer.Feed | src/entityGenesisDump.ts:421-441 | a chunk's pairs are given out and the text kept stands for all that was fed |
| Tokenizer.TokenizeChunks | src/entityGenesisDump.ts:421-441 | over any chunks the pairs are those of the whole text |
| GenesisDump.ReadGenesisDump | src/entityGenesisDump.ts:449-547 | for every way of cutting the bytes into chunks the events are those of the text read line by line, and the read throws exactly where that does |
| GenesisDump.ReadDumpRoot | src/entityGenesisDump.ts:398-404 | the first event decides: the root; no root, and the dump is refused; or JSON that does not parse, and the read throws |
| GenesisDump.RestartAtLineEnd | src/entityGenesisDump.ts:443-547 | restarting where a line's event ends yields exactly the remaining events |
| GenesisDump.DumpReader.FinishLine | src/entityGenesisDump.ts:474-506 | a line's own event after its slots, or a throw |
| GenesisDump.DumpReader.StartsWithSystemPrefix | src/entityGenesisDump.ts:458-467 | comparing across parts decides whether the line is the system account's |
| Ledger.VerifiedRecordsAreInIdOrder | src/entityGenesisDump.ts:361-376 | soundness: when the ledger adds up, the record keys in file order are the values stored for ids 0, 1, ... in order, as many as the manifest says |
| Ledger.WellFormedAccountAddsUp | src/entityGenesisDump.ts:331-343 | completeness: an account that lists the ids in order always adds up, whatever foreign slots stand between |
| Ledger.RebuiltLedgerAgrees | src/entityGenesisDump.ts:315-322 | a ledger rebuilt from its state answers every later run of bookings alike |
| Ledger.GenesisIdLedger.AddSlot | src/entityGenesisDump.ts:331-343 | booking a pair with the cached expected slot is booking it on the state alone |
| Ledger.GenesisIdLedger.AddRecord | src/entityGenesisDump.ts:325-328 | booking a key extends the record chain and numbers it |
| Ledger.GenesisIdLedger.Verify | src/entityGenesisDump.ts:361-376 | verification passes exactly when the state adds up |
| DumpImport.RunsKeepInvariant | src/entityGenesisDumpImport.ts:353-372 | at every moment of every run the stored offset, line, ledger and count describe exactly the prefix whose rows are in the table, a key recorded twice keeping its first row |
| DumpImport.InterruptedEqualsUninterrupted | src/entityGenesisDumpImport.ts:381-443 | stopped, lost, resumed or taken over any number of times, with any batch sizes, an import is handed over only if one straight reading would be, with the same rows, and refused only if that would be |
| DumpImport.ImportsAgree | src/entityGenesisDumpImport.ts:381-443 | two imports of a dump that were handed over wrote the same rows |
| DumpImport.SupersededIsFenced | src/entityGenesisDumpImport.ts:358-362 | a superseded attempt changes nothing any more |
| DumpImport.ImportedRowsAreInIdOrder | src/entityGenesisDumpImport.ts:419-423 | handed over, the records stand in the order of the ids the system account lists |
| DumpImport.ImportedRowsAreRecords | src/entityIndexStorage.ts:979-994 | handed over, the table holds for each key its first record and nothing else |
| DumpImport.DumpImporter.Commit | src/entityGenesisDumpImport.ts:353-372 | a batch and its resume point in one transaction, after which the row describes the longer prefix |
| DumpImport.ImportGenesisDump | src/entityGenesisDumpImport.ts:185-443 | the run, root check first, over any chunks, batch sizes and stops leaves a prefix, or, handed over, everything; a dump a straight reading accepts is handed over unless a stop comes first, only one it refuses is failed, and one that is empty or does not start with the expected root is failed before any of it is loaded |
| DumpVersions.SeededRecordIsStored | src/entityGenesisDump.ts:235-280 | an encoded record is stored exactly when place and expiry are in range and its names, as read back, are non-empty and distinct; then its attributes answer every query for the seeded values and no others |
| DumpVersions.ImportedDumpIsSeed | src/entityGenesisDumpImport.ts:386-395 | an imported dump with different keys is a seed the projector's runs and the pages stand on, and the table holds exactly it |
| DumpVersions.ImportedDumpIsInIdOrder | src/entityGenesisDumpImport.ts:381-423 | with records decoded as the source decodes them, an imported dump stands in the order of the ids its system account lists |
| DumpVersions.DecimalRoundTrip | src/entityValues.ts:94-115 | a decimal's canonical text reads back as its units, sign and trimmed zeros included |
| FeeBumps.BumpExistsExactly | src/baseloadTaskHelpers.ts:343-355 | from a tip under its fee there is a bump exactly when a hundred times the cap exceeds a hundred and ten times the previous fee |
| FeeBumps.BumpOutbids | src/baseloadTaskHelpers.ts:343-369 | a bump outbids in both fields, within the cap, tip under fee |
| FeeBumps.InitialFeeLeavesRoom | src/baseloadTaskHelpers.ts:325-334 | the first fee stays under the cap, lets the base fee double, and holds the tip |
| FeeBumps.SendsClimb | src/baseloadRuntime.ts:1237-1296 | against any environment there are at most three sends, each later one outbidding the one before within the cap, and only hashes of sent copies are returned |
| FeeBumps.NothingIsSentAfterExhaustion | src/baseloadRuntime.ts:1275-1280 | once the bumps are exhausted nothing more is sent |
| FeeBumps.RunsEndForCause | src/baseloadRuntime.ts:1264-1274 | spent elsewhere is reported only after the nonce was seen past and every copy's lookup was null; a hash is returned only on its successful receipt |
| FeeBumps.BumpsStopExactly | src/baseloadRuntime.ts:1275-1280 | the bumps stop exactly at two or when the cap no longer outbids |
| FeeBumps.FoundMeans | src/baseloadRuntime.ts:1304-1322 | what the lookups of the copies come to, in both directions |
| FeeBumps.FindLandedTransaction | src/baseloadRuntime.ts:1304-1322 | the loop over the copies with its unsettled flag |
| FeeBumps.SendWithFeeBumps | src/baseloadRuntime.ts:1237-1296 | the loop over the environment's rounds is the specified run |

## Left out

- Two projectors starting, folding forward or opening a repair at once: a chunk fold does not read the fold point again under its lock, so the machine has one projector; the genesis walk and the pages of a repair are modelled with any number of backends.
- A rescan that drops the last row of a key at or below the fold point: the late scan does not notice it; rewritten rows must touch the keys the old ones touched.
- Writes committed later than the overlap after the time stamped on their rows: excluded by the scanner's contract.
- Pinning the floor by configuration, lowering it after a late scan or once every block below it is stored, and `reset`: once a fold point is stored a lower floor only widens what reads accept; lowering it after a start was cut short and before its first chunk is not modelled.
- PostgreSQL, SQL text, query plans, secondary indexes, connections and retries: tables are maps, a statement is the set of rows it selects.
- JSON, HTTP and JSON-RPC framing, request parameter parsing and the query language's lexer and parser: queries are taken as syntax trees of the types the parser lets through.
- Reading an attribute value of an operation or of the node as its type: an operation's triple and a wire attribute carry their reading, or none.
- Hex quantities between a decoded dump record and the node's wire form: numbers pass as numbers.
- keccak: a parameter; injective, with unbounded output, only where a theorem says so.
- UTF-8 decoding inside the streaming tokenizer: a byte stands for the character it decodes to; the pairs are ASCII.
- JSON.parse of a dump line: a parameter that says malformed, or which string fields a line has.
- Event data beyond the first two words, and the ordering of the inputs of event pairing: operations and logs are given in operation and log order.
- Entity keys are taken in lower case wherever the source lowers both sides.
- The chain id, count, checksum and manifest checks before a dump import, and dropping and rebuilding secondary indexes: refusals before any row is written.
- Progress documents, logging, health counts, retry delays, timers, command lines and metrics.
- Authentication, access tokens, the faucet, key pools, aggregation and schedule windows, the frontend: not part of this model.
- The rest of the load generator: only fee arithmetic and the send loop are modelled; that a bump implies the nonce was read as unspent is not claimed, since a failed read counts as unspent, and the wait is unbounded by design.
