# The hazedb engine, modelled and proved in Dafny

hazedb is an in-memory SQL store. Rows live in sharded arenas behind an open-addressing
primary-key map; secondary indexes are maintained in the background; every change is
journaled to a segmented write-ahead log, and a drain copies sealed segments into a SQLite
file from which the store reopens. This project models that engine and proves what it is
for. `dafny verify dfyconfig.toml` checks all of it.

The main results, each over every input, run or reachable state:

- **Durability.** `DurabilityRuns` takes writes, flushes that succeed or fail on either side
  of the rename, drains, rolled-back drains, file removal, crashes, half-finished seeding,
  reopening and closing as the steps of one machine over the bytes on disk. Every run keeps
  its invariant (`RunKeepsInv`), the SQLite mirror is always the fold of the segments up to
  its cursor (`MirrorIsFold`), and a store killed at any point reopens and serves a prefix of
  the journaled records that contains everything flushed (`CrashRecovers`). What a statement
  of that machine does is said row by row (`LiveLog.LiveDoes`), and what a table stores and
  journals is that machine's statement (`WriteMarks.TookIsLive`). `DurabilityExec` and
  `DrainExec` are the loops that do it, proved against that machine; `Layouts` places every
  byte they write.
- **Transactions.** A commit has the effect of its statements one by one, under one log
  record, with every written shard locked, or no effect, each reason to refuse being exact:
  `Transactions.Commit`, and
  `PartTransactions.PartCommit` where keys move between partitions inside the transaction.
- **Indexes behind the writes.** Whatever the interleaving of writes with the separate steps
  of the merge, an indexed read, UPDATE or DELETE does what a full scan does, and exactly
  when it does not: `IndexOverlay.RunKeepsInv`, `IndexSelect.ExactPlanAgreesIff`,
  `IndexWrite.UpdateIndexed`. The protocol is the table's own: every write moves the dirty
  lists of its shards as the protocol says (`WriteMarks.WritesMoveOverlay`), and a merge left
  alone ends with every index current (`MergeRuns.QuietMergeCatchesUp`). Ordered walks deliver
  the ORDER BY window: `OrderedWalkExec.OrderedWalk`, `IndexedReads`.
- **Expressions.** Every WHERE is given its meaning apart from its interpreter (`Meanings`):
  arithmetic modulo 2^64, comparison as the order of texts whose characters are stated
  (`TextForms`); the compiled filters agree with it (`Expressions.CompiledIsInterpreted`).
- **Joins.** Whichever side drives, and whichever of the fetch, scan, streaming, walk, top-N
  and sort paths is taken, a two-table join answers as the nested loop with NULL padding
  does: `JoinQueries.ExecJoin` over `JoinSpecs.DrivenIsJoined`.
- **The data structures.** The backward-shift primary-key map, the order-preserving composite
  key, the two-way merge of a sorted index, the packed top-N heap, in-place compaction and
  the pruned partition lists each refine the plain map, order, sort or sequence they stand
  for. The codecs round-trip, and a log cut at any byte yields whole records only.

## How it is laid out

One module a file, under its own name. `Wrappers`, `ByteStrings`, `Sequences` and `Values`
come first. `PkMaps`, `CompositeKeys`, `IndexOrder`, `SecIndexes`, `IndexOverlay` are the
lookup structures and the index protocol, `MergeRuns` its quiet merges; `TextForms`,
`CellTypes`, `Expressions`, `Meanings`, `Planner`, `OrderedWalks`,
`OrderedWalkExec`, `IndexedReads`, `Sides`, `IndexSelect`, `TopNs` are reading. `Framing`,
`Codec`, `Catalog`, `Records`, `Layouts`, `CodecLoops` are the log's bytes; `Interpreters`, `LiveLog`,
`DrainRetry` what writes it and what reads it back; `Durability`, `DurabilityInv`,
`DurabilityRuns`, `DurabilityExec` and `DrainExec` the whole protocol. `Shards`,
`TableSpec`, `TableScans`, `Tables`, `WriteMarks`, `IndexWrite`, `Transactions`, `Budgets`,
`Reloads`, `Compaction` are the store, the `Part` modules its partitioned form, the `Join`
modules the joins.

What the source updates in place is a class (`PkMap`, `SecIndex`, `TopN`, `Table`,
`PartTable`, `Budget`, `Journal`, `Log`, `SqliteMirror`) whose methods are specified by
functions of the state before; protocols that interleave are step functions over a state.

## Model

| member | source | states |
|---|---|---|
| Values.UuidLessIsByteOrder | uuid.go:31-35 | comparing the two words of an identifier, high word first, is comparing its 16 bytes |
| Values.UuidTextRoundTrip | uuid.go:93-99 | the canonical text of an identifier parses back to it |
| Values.CompareSameKind | value.go:169-227 | within one kind `Compare` is a total order whose zero is `Equal` |
| Values.CompareTransitive | value.go:169-227 | and transitive |
| Values.EqualIsIdentity | value.go:232-249 | `Equal` is identity of kind and contents, NULL equal to NULL |
| TextForms.CompareIsTextOrder | value.go:164-227 | every comparison but that of two INTs is the byte order of the text forms, the fast paths for texts, bytes, booleans and identifiers included; none with NULL |
| TextForms.TextOf | value.go:125-148 | the text form of each kind: "true" and "false", the decimal numeral, the canonical identifier, the contents |
| TextForms.ParseIntReads | value.go:150-162 | arithmetic reads a text as an integer exactly when it is a decimal numeral of a 64-bit value, at its positional value |
| TextForms.FormatIntWrites | value.go:132-133 | an INT is written as the shortest numeral, which reads back |
| TextForms.UuidTextForm | uuid.go:31-70 | an identifier is written as its 32 lower-case digits in order, dashed 8-4-4-4-12 |
| TextForms.ParseUuidReads | uuid.go:104-118 | a text parses as an identifier exactly when it has its digits, in either case, and its dashes in those places |
| TextForms.UuidTextOrder | value.go:164-227 | the texts of identifiers are ordered as the identifiers |
| CellTypes.Utf8IsText | schema.go:234-239 | a STRING is accepted exactly when it encodes a sequence of Unicode scalar values |
| CellTypes.ColumnTakes | schema.go:217-254 | a column takes cells of its type, NULL where it may, and no other |
| PkMaps.ProbeMissMeansAbsent | pkmap.go:81-97 | a probe from the home slot that meets an empty slot proves the key absent: lookups need no tombstones |
| PkMaps.ShiftedHashIsHome | pkmap.go:61-65 | the shifted hash is a home slot within the table, the one hypothesis the map makes of its hash |
| PkMaps.ShiftKeepsSurvivors | pkmap.go:168-185 | one backward shift keeps every other key reachable and opens the gap behind the moved entry |
| PkMaps.WalkEnds | pkmap.go:168-185 | the deletion walk may stop at the first empty slot: nothing beyond it probes through the gap |
| PkMaps.PkMap.Init | pkmap.go:69-76 | sizing the table for a hint leaves it empty and valid |
| PkMaps.PkMap.Get | pkmap.go:81-97 | finds exactly the stored row id |
| PkMaps.PkMap.Reserve | pkmap.go:107-123 | one probe tells a duplicate from the slot an insert may take, growing first past three quarters load |
| PkMaps.PkMap.Commit | pkmap.go:127-130 | filling a reserved slot adds exactly its key |
| PkMaps.PkMap.Put | pkmap.go:133-139 | an upsert of the map the table stands for |
| PkMaps.PkMap.Find | pkmap.go:144-160 | the slot and row id of a present key, or absence |
| PkMaps.PkMap.DelAt | pkmap.go:168-185 | removes exactly the key in the slot and keeps every other key reachable |
| PkMaps.PkMap.Del | pkmap.go:189-196 | removes exactly the key, returning its row id |
| PkMaps.PkMap.Grow | pkmap.go:200-220 | doubling and reinserting under the new shift keeps the contents |
| CompositeKeys.AppendEscapedTerminated | composite_key.go:74-88 | the span-copying loop writes the escaped, terminated form of the string |
| CompositeKeys.EncodeCompositeKey | composite_key.go:28-31 | the column loop writes the encoding of the tuple |
| CompositeKeys.EncodingIsOrderEmbedding | composite_key.go:28-88 | byte order of two encodings is column-by-column order of the tuples |
| CompositeKeys.EncodingIsInjective | composite_key.go:28-88 | different tuples have different encodings |
| CompositeKeys.EncodingIsPrefixFree | composite_key.go:28-88 | encodings of one schema can be read from the front without ambiguity |
| CompositeKeys.PrefixMeansLeadingColumnsEqual | secindex.go:349-361 | the encoding of pinned leading cells is a prefix of a row's key exactly when the row's leading cells are those |
| CompositeKeys.PrefixUpperBound | secindex.go:385-394 | the bound the byte loop computes, or none when every byte is 0xFF |
| CompositeKeys.PrefixRange | secindex.go:367-380 | a string has the prefix exactly when it lies between the prefix and its bound |
| CompositeKeys.PrefixBoundIsLeast | secindex.go:382-394 | no smaller bound exists |
| CompositeKeys.NoBoundForAllOnes | secindex.go:382-394 | and none exists for a prefix of 0xFF bytes |
| IndexOrder.KeyOrderIsValueOrder | secindex.go:46-83 | index-key order is cell order, and equal keys are equal cells |
| IndexOrder.BucketIsEquality | secindex.go:67-83 | for a key of the index's own kind a bucket is equality; across kinds it is what the untyped comparison ties |
| IndexOrder.SortedViewUnique | secindex.go:189-215 | a reverse map has one sorted view |
| SecIndexes.MergeIsSortedView | secindex.go:226-266 | folding the changed keys into the old view gives the view of the new reverse map |
| SecIndexes.SecIndex.Apply | secindex.go:147-183 | records or drops one key; an ordered index reports exactly whether its reverse map changed |
| SecIndexes.SecIndex.RebuildSorted | secindex.go:206-215 | the sorted view of the reverse map |
| SecIndexes.SecIndex.MergeSorted | secindex.go:226-266 | the same view, by a two-way merge |
| SecIndexes.SecIndex.Lookup | secindex.go:289-312 | binary search and forward walk: each primary key of the bucket once, for a key of any kind |
| SecIndexes.SecIndex.LookupOne | secindex.go:319-341 | whether that bucket has any entry, and whether just one |
| SecIndexes.SecIndex.CountKey | secindex.go:469-482 | how many primary keys are under a key of the index's kind |
| SecIndexes.SecIndex.SnapshotPrefix | secindex.go:367-380 | exactly the entries whose composite keys have the prefix, in order |
| SecIndexes.SecIndex.PrefixLookup | secindex.go:349-361 | the forward walk finds the same entries |
| SecIndexes.IntersectPks | secindex.go:401-419 | exactly the keys in both buckets, each once |
| IndexOverlay.StepKeepsInv | secindex.go:657-749 | every single write and every single step of the background merge keeps the overlay invariant: a stale index entry is listed dirty past what the merge will drop |
| IndexOverlay.RunKeepsInv | secindex.go:657-749 | so does every interleaving of them |
| IndexedReads.ApplyOne | secindex.go:704-717 | one index's turn in the merge loop moves the index object as the protocol's apply step moves its state, reverse map and readers' view, and notes exactly the keys that moved in an ordered index |
| IndexedReads.FoldOne | secindex.go:727-731 | and its turn in the fold as the protocol's fold step |
| MergeRuns.QuietMergeCatchesUp | secindex.go:657-749 | from any idle state a merge with no write in between ends, changes no row, and leaves every index current, nothing listed and the counter at zero |
| WriteMarks.WritesMoveOverlay | store_write.go:10-29 | whatever a statement or a transaction wrote to a table moves the overlay its shards stand for as the protocol's writes do, dirty lists and counter included, and so keeps the invariant |
| WriteMarks.TookMovesOverlay | store_write.go:124-281 | a lone statement moves it by the one step |
| WriteMarks.ActMoves | store_write.go:124-281 | one insert, update or delete at a time: an insert and an update of an indexed column are listed dirty, a delete for clean-up |
| WriteMarks.IndexedReadSeesRows | exec_select.go:291-329 | so an indexed read right after the write, before any merge, selects what a scan of the table's rows selects |
| WriteMarks.DropMarks | secindex.go:737-745 | the merge drops from the table's lists what it snapshotted, as the protocol's drop step; later marks stay |
| WriteMarks.SettleCount | secindex.go:746-747 | and the counter follows in a step of its own |
| IndexOverlay.RebuiltInv | secindex.go:767-835 | a rebuild at boot establishes it |
| IndexOverlay.CounterNeverHides | secindex.go:619-645 | a zero dirty counter never hides a listed row |
| IndexOverlay.CleanRowIsIndexed | secindex.go:619-645 | a live row outside the overlay has exactly its current key in every index |
| IndexOverlay.StaleEntryIsListed | store_write.go:24-29 | an entry left by a deleted row is still listed for clean-up |
| IndexOverlay.HybridSelectsWhatScanSelects | exec_select.go:291-329 | after every run, hits plus overlay plus re-check select what a full scan selects |
| IndexOverlay.ExactNeedsNoRecheck | exec_select.go:444-452 | when the WHERE is exactly the probes and nothing is dirty the hits need no re-check |
| IndexOverlay.SplitReadMissesIff | exec_select.go:298-325 | index and overlay loaded in two steps: an untouched qualifying row is missed exactly when it was no hit at the first load and a drop in between covered all its marks |
| IndexOverlay.SplitReadErrsIff | exec_select.go:298-452 | whatever happens between the two loads: a row is returned wrongly exactly when the unchecked hits of an exact plan are taken and its entry has left the index since, and missed exactly when it was no hit and is marked no more |
| IndexOverlay.SplitReadCanMissRow | exec_select.go:298-325 | a run in which a row nobody writes in between is missed |
| IndexOverlay.SplitReadCanReturnStaleRow | exec_select.go:444-452 | a run in which a row that no longer matches is returned |
| Expressions.CompiledIsInterpreted | filter.go:15-47 | a compiled predicate never fails and is the truth of the interpreted one, on every row |
| Expressions.CompileOrdAgrees | filter.go:54-74 | the specialised ordered tests agree with `Compare`, mixed kinds and NULL included |
| Expressions.RowMatcherAgrees | filter.go:232-244 | whichever form the matcher chooses, it decides as the interpreter |
| Expressions.ConjunctsMatchWhere | filter.go:251-270 | matching every conjunct on its own is matching the WHERE, errors included |
| Meanings.ArithmeticSelects | eval.go:69-95 | `n + b = c` selects a row exactly when its cell solves it modulo 2^64; so for minus and star |
| Meanings.ArithmeticMeans | eval.go:69-95 | over INTs, BOOLs and numerals, plus, minus and star give the 64-bit integer congruent to the exact result |
| Meanings.ArithmeticFails | eval.go:69-95 | arithmetic is NULL exactly when an operand is, and otherwise an error exactly when one stands for no integer |
| Meanings.ComparisonsMean | eval.go:91-109 | = is identity, NULL = NULL included; <, <=, >, >= follow numbers between INTs and texts otherwise, and are false on NULL |
| Meanings.ConnectivesMean | eval.go:33-60 | AND, OR and NOT on truth and on failure, with the short cuts |
| Meanings.NullTestsMean | eval.go:116-127 | IS NULL holds exactly of NULL, IS NOT NULL of every other value |
| Meanings.TruthIs | eval.go:132-142 | a true BOOL and a non-zero INT are true, nothing else is |
| Planner.MatchImpliesPins | plan.go:683-699 | a matching row holds every pinned value |
| Planner.EqConjunctsAre | plan.go:683-699 | the pins are exactly the top-level column = literal-or-parameter conjuncts, in either order of the sides, a column's last one counting |
| Planner.ExactWhereIsPins | plan.go:359-365 | as many conjuncts as indexed pins: the WHERE is exactly the pins |
| Planner.PrefixAndResidualAreWhere | plan.go:604-637 | the pinned prefix and the residual together are the WHERE |
| IndexSelect.PlanIndexEq | plan.go:549-566 | the planner's pass collects the pinned single-column indexes, in index order |
| IndexSelect.IdxCandidates | exec_select.go:291-329 | the candidates are exactly where the probed buckets meet, beside the overlay; it fails or finds nothing exactly when the loop reaches a pin it cannot evaluate, or a NULL one |
| IndexSelect.Emit | exec_select.go:259-286 | each candidate is visited once, the passing ones kept until the bound |
| IndexSelect.MatchIsCandidate | exec_select.go:291-329 | a matching row is dirty or under every pin, unless a NULL pin ended the search |
| IndexSelect.ExecCandidates | exec_select.go:397-481 | the OFFSET/LIMIT window of a list of the chosen rows, each once |
| IndexSelect.SelectIdx | exec_select.go:337-390 | the whole indexed SELECT, lone-hit path included, returns that window |
| IndexSelect.SelectIdxOrdered | exec_select.go:397-432 | with ORDER BY: the window has the sort keys of the window of any sort of the rows a scan finds; each row is returned whole, or as the listed cells |
| IndexSelect.RecheckedAgreesIff | exec_select.go:291-329 | a plan that re-checks selects what a scan selects in every reachable state if and only if no pin is NULL or no row of the table's types satisfies the WHERE |
| IndexSelect.ExactPlanAgreesIff | exec_select.go:291-452 | an exact plan selects what a scan selects in every reachable state if and only if its pins do not stray: no holdable NULL, and no sorted index asked for a key of another kind that it takes for one of its own |
| IndexSelect.PlanSelectsWhatScanSelects | plan.go:549-566 | after every run the planner's own probes, taken as equality of keys, select what a scan selects, with no re-check when exact and clean; how a sorted lookup ties keys of different kinds is `ExactPlanAgreesIff` |
| Sides.DirtyPks | secindex.go:619-645 | lists exactly the live rows of the overlay, and nothing when the counter is zero |
| IndexWrite.LoneHit | exec_write.go:290-304 | the lone-hit path: its one candidate covers every matching row, or there is none |
| IndexWrite.UpdateIndexed | exec_write.go:290-456 | an indexed UPDATE has the outcome, the count and the table of the full scan, except for a NULL or unevaluable pin; what it wrote is journaled in one record and every changed row is marked |
| IndexWrite.DeleteIndexed | exec_write.go:544-603 | so does an indexed DELETE |
| OrderedWalks.OrderFixesKeys | exec_select.go:715-761 | two ordered arrangements of the same keys are the same sequence: ORDER BY fixes the key sequence |
| OrderedWalks.SliceIs | exec_select.go:1074-1085 | the window is the rows from the offset on, at most the limit of them when there is one |
| OrderedWalks.WalkIsListing | exec_select.go:715-761 | the merge of index slice and overlay lists exactly the qualifying rows, in order |
| OrderedWalks.CollectedSlice | exec_select.go:1063-1085 | stopping at offset+limit rows and slicing is slicing everything |
| OrderedWalks.StreamedSlice | exec_select.go:981-1035 | the streamed form delivers the same window, cut only where the visitor asked |
| OrderedWalkExec.OrderColumnRange | exec_select.go:792-823 | the bounds found are bounds the WHERE implies |
| OrderedWalkExec.SeekOrderedSnap | exec_select.go:832-860 | every entry clipped off provably fails the WHERE |
| OrderedWalkExec.BuildDirtyCands | exec_select.go:678-707 | the passing overlay rows sorted, and every dirty key shadowed |
| OrderedWalkExec.MergeOrderedStreams | exec_select.go:715-761 | the sink is fed the walk in order until it is done |
| OrderedWalkExec.OrderedWalk | exec_select.go:911-969 | the rows are a contiguous window of an ordered listing |
| OrderedWalkExec.OrderedWalkEach | exec_select.go:981-1035 | so are the streamed ones |
| IndexedReads.FoldMeetsItsContract | secindex.go:657-749 | when the merge folds an ordered index only the listed keys differ: the fold's precondition |
| IndexedReads.SingleColumnWalkIsReady | exec_select.go:911-969 | in every reachable state slice and overlay hold what ORDER BY on a NOT NULL column needs |
| IndexedReads.CompositeWalkIsReady | plan.go:604-637 | and the prefix run with the residual what ORDER BY on the next column needs |
| IndexedReads.CompositeWalkServesNextColumn | plan.go:604-637 | tuple order under a pinned prefix is order by the next column |
| IndexedReads.CleanRowIsWalkedIffNotNull | plan.go:380-388 | a clean row is in the walked view exactly when its cell is not NULL |
| Framing.ReadsFrame | wal.go:162-193 | a frame reads back as its envelope, whatever follows |
| Framing.ReadIsFrame | wal.go:300-369 | whatever reads as an envelope was its frame |
| Layouts.FrameLayout | wal.go:162-193 | the envelope byte by byte: magic, type, version 2, length, payload, and the checksum of everything before it |
| Framing.FramedIsScanned | wal.go:300-369 | a segment of whole frames is handed over exactly and ends cleanly |
| Framing.ScannedIsFramed | wal.go:300-369 | conversely, what a scan hands over is framed at the front of the file |
| Framing.CutSegment | wal.go:300-369 | cut at any byte, a segment hands over exactly the records wholly before the cut, and reports broken framing unless the cut is a boundary |
| Framing.ScanRecords | wal.go:300-369 | the scanning loop does what that scan says, stopping where the callback refuses |
| Codec.CellRoundTrip | mutation_codec.go:172-251 | a cell decodes to itself |
| Codec.CellIsCanonical | mutation_codec.go:199-251 | the encoding is the only one for its value, except that every BOOL byte but 1 reads as false |
| Layouts.CellLayout | mutation_codec.go:172-198 | the kind byte, width and byte order of every cell |
| Layouts.CountedLayout | mutation_codec.go:253-259 | rows, changed columns, envelope parts and definitions: a 16-bit count, then the items one after another |
| Layouts.MutationLayout | mutation_codec.go:29-56 | the code, the table and the body of each mutation |
| Codec.RowRoundTrip | mutation_codec.go:253-280 | a row decodes to itself |
| Codec.RowPrefixRejected | mutation_codec.go:261-280 | no proper prefix of a row is a row |
| Codec.MutationRoundTrip | mutation_codec.go:29-112 | INSERT, UPDATE and DELETE bodies decode to themselves |
| Codec.MutationPrefixRejected | mutation_codec.go:29-112 | no proper prefix of one is accepted |
| Codec.TxnRoundTrip | mutation_codec.go:117-155 | an envelope decodes to its mutations exactly when there are at most 65535 of them |
| Codec.TxnCountWraps | mutation_codec.go:117-124 | beyond that the written count has wrapped |
| Codec.TxnPrefixRejected | mutation_codec.go:131-155 | a torn envelope is never a shorter transaction |
| Catalog.CreateTableRoundTrip | catalog.go:217-338 | a table definition survives its record |
| Layouts.ColumnLayout | catalog.go:217-257 | a column's name, type code and four property bits |
| Layouts.CreateTableLayout | catalog.go:217-257 | slot, name, columns and indexes of a definition, in this order |
| Catalog.CreateTablePrefix | catalog.go:259-338 | exactly one proper prefix of a CREATE record decodes: the one without the index section |
| Catalog.DropTableRoundTrip | catalog.go:340-354 | a DROP record decodes to its name |
| Catalog.DropTablePrefixRejected | catalog.go:345-354 | no proper prefix of a DROP record decodes |
| Records.RecordRoundTrip | wal.go:162-193 | every log record survives its envelope |
| Layouts.RecordLayout | wal.go:39-49 | the type byte of each kind of record |
| CodecLoops.DecodeRow | mutation_codec.go:261-280 | the decoding loop accepts exactly the rows |
| CodecLoops.EncodeRow | mutation_codec.go:253-259 | the encoding loop writes the row's encoding |
| CodecLoops.EncodeTxn | mutation_codec.go:117-124 | the encoding loop writes the envelope |
| CodecLoops.ForEachTxnMutation | mutation_codec.go:131-155 | applying while parsing succeeds exactly when the whole envelope is well formed and every part applies in order |
| Interpreters.OpAgreement | db_replay.go:83-141 | replay and drain accept a mutation together exactly when it is well typed and free of conflicts, and reach the same contents |
| Interpreters.RecordAgrees | drain.go:425-542 | one record that follows from the memory is taken by both readers, which stay mirror images |
| Interpreters.LogAgrees | drain.go:383-420 | so is a whole log |
| Interpreters.MirrorReloads | recover_sqlite.go:19-102 | reloading the mirror gives the memory it mirrors, cell for cell |
| LiveLog.JournalReplays | store_write.go:161-215 | replaying an update's journal on the old row gives the updated row, repeated SET columns included |
| LiveLog.LiveDoes | store_write.go:124-309 | a live statement on rows: which are accepted, the memory left, table by table and key by key, and the record journaled: an inserted row under its key, an updated row with each SET column at its last value, a key gone, a group's chain of those, a table made or removed |
| LiveLog.LiveActDoes | store_write.go:124-281 | one row's effect has exactly one outcome, and is refused when it can have none |
| LiveLog.LiveGroupDoes | txn.go:198-372 | a group is the chain of its effects |
| LiveLog.ReservedIs | catalog.go:100-104 | table names beginning with `_hz_`, in any letter case, are refused |
| LiveLog.LiveReplays | db_replay.go:26-141 | what a live statement journals replays to the memory it left; what that memory is, `LiveDoes` says |
| WriteMarks.TookIsLive | store_write.go:124-281 | a row a table stored, changed or removed is the machine's statement: the same memory, and the record the table journaled is the machine's |
| WriteMarks.TookGroupIsLive | txn.go:198-372 | so is a statement over many rows and a transaction |
| DrainRetry.DrainIsBy | drain.go:451-465 | the map-order lookup of a DROP is one of the choices the drain may make |
| DrainRetry.LooseDrainsClean | drain.go:347-420 | from a registry that safe failed attempts left, a segment drains as from the file's own, whatever each lookup meets first |
| DrainRetry.SafeStaysLoose | drain.go:347-420 | further safe attempts keep it so |
| DrainRetry.RetryCleanIffSafe | drain.go:451-465 | a rolled-back attempt leaves the retry as if never made, for every lookup choice, if and only if no DROP in it names a table of the file or one it leaves registered |
| DrainRetry.LiveRetryCleanIffSafe | drain.go:383-465 | the same for every segment a process can seal |
| DrainRetry.RetriedDropBlocksOpen | drain.go:451-465 | the smallest case outside it: the next Open refuses the file |
| Durability.SegmentReads | wal_segment.go:118-148 | a sealed segment reads back as its records |
| DurabilityInv.SeedingCompletes | drain.go:125-147 | seeding completes a partly seeded mirror |
| DurabilityInv.OpenRecovers | db.go:104-202 | Open never refuses a disk the protocol can leave, and serves the state after every sealed record |
| DurabilityRuns.StepKeepsInv | wal.go:162-275 | every write, flush outcome, drain, rollback, file removal, crash, partial seeding, reopen and close keeps the durability invariant |
| DurabilityRuns.RunKeepsInv | db.go:104-226 | so does every run |
| DurabilityRuns.MirrorIsFold | drain.go:347-420 | in every reachable state the mirror is the fold of the segments up to the cursor |
| DurabilityRuns.FilesAreContiguous | wal_segment.go:118-148 | the files above the cursor are contiguous, hold their records, and the next number is free |
| DurabilityRuns.CrashRecovers | db.go:104-202 | killed at any point of any run the store reopens and serves a prefix of the journaled records that contains everything flushed |
| DurabilityRuns.CleanCloseLosesNothing | db.go:211-226 | a clean close loses nothing |
| DurabilityRuns.RefusedWriteAfterCrash | wal.go:200-244 | a write refused after the rename is nevertheless recovered: exactly when |
| DurabilityExec.Log.FlushLocked | wal.go:200-244 | the segment appears whole or not at all and any failure is sticky |
| DurabilityExec.Log.WriteRecord | wal.go:162-193 | one whole envelope is appended, sealed inline once the buffer reaches 1 MiB |
| DurabilityExec.Log.Close | wal.go:258-275 | the rest is sealed, later writes are refused |
| DurabilityExec.WriteIsWriteRecord | wal.go:162-193 | a write of the protocol is that call, effective in memory only when it succeeds |
| DurabilityExec.ReplaySegments | wal_segment.go:118-148 | the replay loop is the tail replay of the protocol |
| DurabilityExec.RecoverFromSqlite | recover_sqlite.go:19-102 | the reload loop gives the memory the mirror stands for, and refuses what does not fit |
| DurabilityExec.MirroredIsConsistent | recover_sqlite.go:19-51 | every mirror image of a memory is a registry that reload accepts |
| DurabilityExec.OpenDb | db.go:104-202 | the opening sequence is the protocol's Open |
| DrainExec.SqliteMirror.DrainSegment | drain.go:383-420 | segment and cursor commit together; on failure the file is as before and only the process registry moved |
| DrainExec.SqliteMirror.DrainOnce | drain.go:347-369 | the sealed segments are drained in order, stopping below the first that cannot be |
| DrainExec.LooseIsUnambiguous | drain.go:451-465 | no segment the live paths seal is ambiguous for the drainer |
| Shards.DistinctSetsAreExact | store_write.go:161-215 | with distinct SET columns the journaled byte delta is the row's true change, whatever the row |
| Shards.DriftIsOverwritten | stats.go:99-108 | otherwise it is off by exactly the overwritten assignments' deltas |
| Shards.TallyExactIffSizedOnce | store_write.go:161-215 | on every row of a table and all values that fit it the tally is exact if and only if no STRING or BYTES column is set twice |
| TableSpec.TalliesAreCosts | stats.go:85-91 | the running tallies add up to the cost of the live rows |
| Shards.CostIs | stats.go:57-91 | a row costs 64 bytes, 48 an index, 32 a cell, and the bytes its texts and blobs occupy |
| TableScans.ScanKeysAre | store_write.go:416-462 | a full scan collects exactly the matching rows, each once |
| TableScans.PlanIsGroup | store_write.go:416-462 | overwriting the collected rows is the atomic group of their SETs, and every image fits its row |
| TableScans.CoveringCandidatesAreScan | store_write.go:470-518 | covering candidates select what a scan selects |
| Tables.Table.InsertJournaled | store_write.go:124-151 | a duplicate key, a cost that overshoots the cap, or a journal that fails: exactly then, in this order, it is refused and leaves nothing behind; otherwise the row is stored, journaled and marked for the indexes |
| Tables.Table.UpdateByPk | store_write.go:161-215 | the update takes effect with its record, and with a mark exactly when it touches an indexed column, or the row is put back cell by cell |
| Tables.Table.DeleteByPk | store_write.go:260-281 | the delete takes effect with its record and its clean-up mark, or not at all |
| Tables.Table.UpdateWhereAll | store_write.go:416-462 | every matching row is updated under one record and marked, or nothing happens |
| Tables.Table.UpdateByCandidates | store_write.go:470-518 | the same over a covering candidate list |
| Tables.Table.UpdateOneByCandidate | store_write.go:526-562 | the same for a lone covering candidate |
| Tables.Table.DeleteWhereAll | store_write.go:587-624 | every matching row goes under one record and is marked for clean-up, or nothing happens |
| Tables.Table.DeleteByCandidates | store_write.go:629-665 | the same over a covering candidate list |
| Tables.Table.DeleteOneByCandidate | store_write.go:290-309 | the same for a lone one |
| Tables.RevertRestores | store_write.go:161-215 | writing the saved cells back restores the row, repeated columns included |
| Transactions.CollectShards | txn.go:387-423 | each shard a staged statement may touch, once, ascending |
| Transactions.Walk | txn.go:198-372 | the walk resolves every statement against the ones staged before it |
| Transactions.LockedCover | txn.go:198-372 | the locked shards cover every shard the effects write |
| Transactions.ResolvedCost | txn.go:198-322 | what the walk tallies is the difference of what the rows cost before and after |
| Budgets.StepAccounts | budget.go:30-56 | each step of the counter moves what admitted rows hold by its cost, or not at all, and the counter is that plus what is still to be backed out |
| Transactions.Commit | txn.go:198-372 | the staged statements take effect together, as if executed one by one, under one record and with their marks, or nothing happens: refused beyond 1000 of them, by the first that fails, when what the rows cost grows past the cap, or when the journal fails, and for no other reason |
| Budgets.CapHolds | budget.go:30-56 | however reserves, back-outs and releases interleave, admitted rows never exceed the cap as long as no update grows a row |
| Budgets.RefusalIsHonest | budget.go:30-39 | a refused reserve would not have fitted beside what was held and in flight |
| Budgets.LoadsIffFits | recover_sqlite.go:56-102 | rows of given costs load under a cap exactly when their sum fits it |
| Budgets.GrowthBlocksReload | budget.go:30-56 | the input: a row admitted within the cap and then grown past it is one that boot refuses |
| Reloads.InsertBoot | store_write.go:89-108 | the boot insert: a duplicate key or a full budget leaves nothing behind |
| Reloads.LoadRows | recover_sqlite.go:56-102 | the rows of a mirror table are loaded one after another, all of them exactly when they fit the cap beside what is loaded |
| Reloads.ReloadsIffWithinCap | recover_sqlite.go:56-102 | the rows a table holds load under a cap, in whatever order they come back, if and only if the table's byte tally is within it |
| Compaction.CompactShardLocked | store_compact.go:66-99 | live rows move up in order, every key follows, nothing readable changes |
| Compaction.SweepCompact | compact.go:68-77 | every shard of 64 slots or more with more dead slots than live rows is rebuilt; the table stores and marks what it did |
| Compaction.CompactionKeepsRow | store_compact.go:66-99 | after a compaction every key finds the row it found |
| Compaction.ScanShardsBatched | store_read.go:148-194 | shard by shard and chunk by chunk, over a table that changes between chunks: no key twice, every row as it is when its chunk is resolved and listed before, and every row that is there and passes throughout |
| Compaction.ScanShardBatched | store_read.go:148-194 | one shard of that |
| Compaction.CompactionIsInvisible | store_read.go:148-194 | while shards are compacted between chunks, however often, the scan delivers exactly the rows that pass of the table it started on, each once |
| PartShards.TailIsPartition | partition_store.go:73-89 | a partition's id list, dead ids skipped, is its rows in insert order |
| PartShards.ScanPartition | partition_store.go:73-89 | visits that sequence, until told to stop |
| PartShards.ScanPartitionRev | partition_store.go:96-114 | visits it newest first |
| PartShards.TailsTombstone | store_compact.go:31-50 | one more dead id, or a pruned list: the partition keeps its rows |
| PartShards.DeleteRow | store_compact.go:15-50 | the row leaves its partition's sequence, every other row stays |
| PartTables.PartTable.Insert_ | partition_store.go:43-68 | the row joins the end of its partition, or nothing happens: exactly for a duplicate key, a cost that overshoots the cap, or a journal that fails |
| PartTables.PartTable.UpdateByPk | partition_store.go:249-299 | the row changes in place in its partition's sequence |
| PartTables.PartTable.DeleteByPk | partition_store.go:369-389 | the row leaves its partition's sequence |
| PartTables.PartTable.CompactShard | store_compact.go:66-99 | rows, lists and directory are renumbered together, contents and sequences unchanged |
| PartTransactions.CollectPartShards | txn.go:387-423 | inserts contribute by partition value, updates and deletes by the current directory, an absent key nothing |
| PartTransactions.PartActsCovered | txn.go:387-423 | through DELETE, INSERT elsewhere and UPDATE of the same key every effect writes a contributed shard |
| PartTransactions.PartLockedCover | txn.go:198-372 | so the locked shards cover the commit, however a key moves between partitions |
| PartTransactions.PartCommit | txn.go:198-372 | the same on a partitioned table: only locked shards change, and each partition's sequence is the statements' effect on it |
| PartTransactions.PartTookGroupIsLive | txn.go:198-372 | the commit is the durability machine's statement |
| TopNs.EvictableIsWorse | exec_select.go:1397-1406 | the heap's comparison on cells is the order on keys |
| TopNs.TopN.Offer | exec_select.go:1459-1494 | the heap keeps the best rows offered, each projection in a window of its own |
| TopNs.KeptAreFirst | exec_select.go:1459-1522 | what is kept is the front of any sort of everything offered |
| TopNs.SortedRows | exec_select.go:1506-1522 | the kept rows, sorted, are the first of any full sort; each is returned whole when the query lists no columns, else as the listed cells |
| JoinPlans.EvalReadsOnly | join.go:769-775 | an expression over one table's columns cannot tell apart rows that agree there |
| JoinPlans.PlanJoin | join.go:84-428 | the drive side, the fetch, the walks and the split of the WHERE; a pinned walk wherever there is one to take |
| JoinRuns.PlannedIsReady | join.go:84-428 | what the planner returns is what the executor requires, whatever the kinds of the ON columns |
| JoinPlans.WhereImpliesPath | join.go:386-417 | a row the WHERE accepts is on the chosen path |
| JoinPlans.PathIsWhereIffPinsAgree | join.go:386-417 | a row of the path satisfies the WHERE exactly when the unchecked equalities agree with the walked ones |
| JoinPlans.SecondEqualityIsDropped | join.go:490-538 | two different equalities on a pinned column: whatever plan is made delivers rows the WHERE rejects |
| JoinSpecs.DrivenIsJoined | join.go:743-1147 | pushdown is sound and complete: the joined pairs are what the driver rows of the path yield, for every join type and drive side |
| JoinSpecs.ListingExists | join.go:743-1147 | every join has an ordered listing, so an answer is never vacuous |
| JoinSpecs.ConcatIs | join.go:845-858 | a result row is the left row's cells, then the right row's, NULL for a side that is padding |
| JoinSpecs.DrainedInOrder | join.go:1059-1111 | driver rows in order give joined rows in order |
| JoinExecs.ProbeRows | join.go:637-711 | for a key of any kind, the probe finds exactly the live rows with the cell, except clean rows a composite index leaves out for a NULL; through the primary key, the row the key names |
| JoinExecs.ProbeIsEqualityIffSafe | join.go:637-711 | over every reachable state a probe finds exactly the rows with the key in the probed column if and only if: through the primary key, the key is no text naming an identifier; through an index, the key is of another kind or every other column of the index is NOT NULL |
| JoinExecs.SafeProbeIsEquality | join.go:637-711 | under that condition, in the state at hand |
| JoinExecs.TextMeetsIdentifierOneWay | join.go:637-711 | a text that names a row's identifier meets the row when it probes the primary key, and not when the identifier probes the text |
| JoinDrives.ProbeAndEmit | join.go:871-899 | one driver row's whole yield, padding included, or as much as fits |
| JoinDrives.Drive | join.go:871-906 | the driver rows' yields up to the bound |
| JoinDrives.DriveStreaming | join.go:907-924 | chunk by chunk, reading no further chunk once the bound is met |
| JoinRuns.FetchDrivers | join.go:786-803 | the driver rows under the fetch key that pass the rest, for a key that probes safely and is not NULL on a nullable column |
| JoinRuns.TopRows | join.go:1113-1128 | ORDER BY with LIMIT answers the query, each row whole or as the listed cells |
| JoinRuns.SortAll | join.go:1130-1146 | so does ORDER BY without LIMIT |
| JoinWalks.ColumnWalk | join.go:996-1111 | an ordered walk of the driver answers the query |
| JoinWalks.PinnedWalk | join.go:996-1111 | so does a walk under a pinned prefix, while the overlay keeps to the prefix |
| JoinWalks.PinnedWalkIffOverlayPinned | join.go:1004-1038 | exactly when every overlay row the driver predicates pass holds the prefix |
| JoinWalks.UnmergedRowEscapesPins | join.go:1004-1038 | an insert under another prefix breaks that until the next merge |
| JoinProbeWalks.ProbeWalk | join.go:926-994 | a single driver row and a probe-side ORDER BY: its matches come in order |
| JoinQueries.ExecJoin | join.go:743-1147 | whichever side drives and whichever path is taken, the rows are an answer of the nested loop with padding, WHERE, ORDER BY, OFFSET and LIMIT, shown whole or as the listed cells; it fails exactly when an equality the path looks at has no argument, and returns nothing when the first unusable pin is NULL |

## Findings

Each of these is a promise that the code does not keep in full; the member named gives the
failing input and the exact condition.

- **A rolled-back drain of a DROP** leaves the process registry changed, and the retry then
  removes the wrong row of the SQLite registry (`drain.go:451-465`). The retry comes out
  right if and only if the attempt dropped no table of the file and none of a name it left
  registered: `DrainRetry.RetryCleanIffSafe`, `DrainRetry.RetriedDropBlocksOpen`.
- **A log write that fails after the rename** refuses its statement, yet its record is on
  disk and the next open recovers it (`wal.go:200-245`):
  `DurabilityRuns.RefusedWriteAfterCrash`.
- **An index and its overlay loaded in two steps** (`exec_select.go:298-325`) miss a row whose
  mark a merge drops in between, and on an exact plan return a row whose stale entry the
  merge has mended: `IndexOverlay.SplitReadMissesIff`, `IndexOverlay.SplitReadErrsIff`,
  `IndexOverlay.SplitReadCanMissRow`, `IndexOverlay.SplitReadCanReturnStaleRow`.
- **A sorted index asked for a key of another kind** compares fields the key leaves zero
  (`secindex.go:71-83`), so `WHERE n = 'x'` on an exact plan returns every row with `n >= 0`;
  and **a NULL argument** for an indexed column finds nothing where a scan finds the NULL
  rows (the comment at `value.go:229-231` promises that no scan does).
  `IndexSelect.ExactPlanAgreesIff` is the exact condition on the plan and its arguments,
  `IndexSelect.RecheckedAgreesIff` the one for plans that re-check.
- **An unmerged row under another prefix** escapes the pinned prefix of an ordered join
  (`join.go:1004-1038`): `JoinWalks.PinnedWalkIffOverlayPinned`,
  `JoinWalks.UnmergedRowEscapesPins`.
- **A second, different equality on a pinned column** is checked nowhere in such a join:
  `JoinPlans.PathIsWhereIffPinsAgree`, `JoinPlans.SecondEqualityIsDropped`.
- **A NULL in another column of a composite probe index** hides the row from the join until
  it is dirty, and **a text joined to a primary key** meets the row it names only when the
  text's side drives (`join.go:637-711`): `JoinExecs.ProbeIsEqualityIffSafe`,
  `JoinExecs.TextMeetsIdentifierOneWay`.
- **An envelope of more than 65535 mutations** wraps its count and cannot be replayed
  (`mutation_codec.go:117-124`): `Codec.TxnRoundTrip`, `Codec.TxnCountWraps`. `Tx` refuses
  such a commit; a statement over many rows does not.
- **A STRING or BYTES column set twice in one UPDATE** makes the journaled byte tally drift:
  `Shards.DriftIsOverwritten`, `Shards.TallyExactIffSizedOnce`.
- **A store grown past its byte cap by updates** cannot be reopened with that cap:
  `Budgets.GrowthBlocksReload`, `Reloads.ReloadsIffWithinCap`.
- **A CREATE TABLE record has a proper prefix that decodes**, the table without its indexes:
  `Catalog.CreateTablePrefix`. A **BOOL byte** other than 1 reads as false:
  `Codec.CellIsCanonical`.

## Left out

- Tables.Table.UpdateByPk: with a log, stated for SET lists that name no STRING or BYTES column twice, the case in which the journaled tally is exact; `Shards.TallyExactIffSizedOnce` and `Shards.DriftIsOverwritten` say what happens otherwise.
- PartTables.PartTable.UpdateByPk: the same hypothesis, for the same reason.
- JoinWalks.PinnedWalk: takes for granted that the overlay keeps to the prefix and that the pins agree, the conditions `PinnedWalkIffOverlayPinned` and `PathIsWhereIffPinsAgree` show to be exact.
- JoinQueries.ExecJoin: under `Supported`. Read off the schemas: `JoinSafe`, the condition of `ProbeIsEqualityIffSafe` for the ON columns, and no walk of the probe side when their kinds differ. Of the arguments: a fetch key that probes safely and is not NULL on a nullable column (`FetchSafe`; an identifier given as text is looked up as the identifier it names), pinned values of their columns' kinds (`PinsTyped`; for a NULL one the contract says that nothing is returned), pins that agree and an overlay that keeps to the prefix, the two conditions of `JoinWalks.PinnedWalk`. The ORDER BY column is never NULL in the result.
- JoinRuns.FetchDrivers: the fetch key is `FetchSafe`, as above.
- IndexSelect.SelectIdxOrdered: takes for granted that the ORDER BY column holds no NULL; the source leaves the place of NULLs open there.
- OrderedWalkExec.OrderedWalk: LIMIT plus OFFSET is not made to overflow.
- Budgets.CapHolds: updates that grow a row are outside it, as the source says; they bypass admission.
- DurabilityRuns.CrashRecovers: a rolled-back drain attempt satisfies the condition of `DrainRetry.RetryCleanIffSafe`; the other attempts are the finding. A run has no statement whose record does not fit its field widths, such as an UPDATE of more than 65535 rows (`Codec.TxnRoundTrip` is exact about those), and Open has no byte cap (`Reloads.ReloadsIffWithinCap` is exact about that).
- DurabilityRuns.DrainSucceeds: SQLite accepts every table name. `CREATE TABLE sqlite_x (..)` is accepted by the engine (catalog.go:93-123) and refused by SQLite, so the drain never gets past its segment; recovery from the log still holds.
- DurabilityRuns.StepKeepsInv: bootstrap tables are not dropped or redefined, and a power loss after a failed directory sync, or a SQLite commit whose outcome is unknown, is not a step.
- DurabilityInv.OpenRecovers: the next table id after a reopen is any free one; the source reuses the id of a dropped table once the DROP is drained, contrary to the comment at catalog.go:106.
- DurabilityExec.ReplaySegments: a corrupt segment in the middle of a run is not produced by any step; what reading one yields is `Framing.CutSegment`.
- CodecLoops.ForEachTxnMutation: the callback decodes each part before it applies it, as the replay does.
- SecIndexes.SecIndex.Apply: follows the code where a hash index reports a change for a row that was not indexed, contrary to its comment.
- SecIndexes.SecIndex.CountKey: counts keys of the index's own kind; `COUNT(*)` from a bucket is not modelled.
- Compaction.ScanShardsBatched: the callback that stops the scan early only cuts its tail, and is left out.
- Interpreters.OpAgreement: SQL names are compared exactly; SQLite folds their case, so two bootstrap tables whose names differ only in case share one SQLite table; names given at run time cannot, being lower-cased. Columns are addressed by position, since names are distinct.
- PartTables.PartTable.DeleteByPk: DELETE by predicate on a partitioned table is not modelled.
- Budgets.LoadsIffFits: a list of costs; `Reloads.LoadRows` ties it to the rows of one table, the other tables of a store being the total it starts from.
- Transactions.Commit: statements are staged already resolved; SQL text, and the visibility of pending rows to reads, are not part of it.
- TopNs.TopN.Offer: sort keys are of one kind and not NULL, as for `IndexSelect.SelectIdxOrdered`; the unbounded collecting mode is replaced by a sort of the rows.
- The hash of the primary-key map and the checksum of a frame are parameters: nothing depends on which they are.
- Key-only sorts order ties by primary key in the model; the source leaves them open.
- The in-memory packing of a value into two words and an address is not modelled.
- IndexSelect.IdxCandidates: reads index and overlay in one state, as every read here does; loaded in two steps a row can be missed, exactly as `IndexOverlay.SplitReadMissesIff` says.
- The counter of pending delete marks, which only paces the merger, is not modelled; boot inserts mark nothing, as in the source, and the rebuild that follows is `IndexOverlay.RebuiltInv`.
- Merges that end early because nothing is dirty are not told apart from merges that find nothing.
- A primary key is declared and not nullable; column types outside the five kinds do not exist.
- Secondary indexes never cover the same columns twice, which table creation ensures.
- A constant SET value that cannot be computed is reported per matching row; the source reports it even when no row matches.
- Projection of column names, JSON output, streaming rows to a callback and prepared statements.
- The lexer, the parser, binding of names, type checks of DDL, and the wire protocol.
- Concurrency of DDL with reads and writes; the retry of a partitioned read when its row moved.
- Statistics, events, options, benchmarks and the server module.
- Fields marked `ghost` in the classes are bookkeeping for the proofs.
