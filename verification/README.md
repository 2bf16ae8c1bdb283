# Durable mutations, stream framing and game arithmetic: a verified model

A Dafny model of the parts of the server where a small slip loses or corrupts
player data. `dafny verify dfyconfig.toml` verifies all of it.

**The durable mutation pipeline.** A channel's saves go through a queue to a
worker that groups them into batches (`Batcher`, `FlushUnit`). A batch is written to a file
of JSON lines named by a UUIDv7 (`Uuid`, `Codec`, `WalFile`), then run with its
audit rows in one transaction, and the file is removed after a reported commit
(`Recovery`, `WalStore`). At boot the remaining files are run again, smallest name
first (`FileOrder`, `Replay`, `WalStore`). `SqlTables` gives statements a meaning
as operations on keyed rows of the schema's tables and `StableBatches` says which
batches of them may be run again. `Exchange` gives the item exchange unit and the
safebox size statements their meaning, `ExchangeUnits` treats batches of several
units, `ExchangeSql` builds the unit's mutations and reads their parameters,
`Pipeline` puts SQL into the recovery theorems, and `PushOrder` joins the queues of
successive processes to the recovered database.

**Rebuilding byte streams.** The packet splitter of the bench client
(`Splitter`) and the TCP reassembly of the capture script (`Reassembly`,
`Conflicts`).

**Random attributes, hashing, distance.** The weighted choice and the layout of
the seven attribute slots (`WeightedPick`, `Attributes`, `AttributeLayout`),
SHA-1 (`Words`, `Sha1`) and the distance made of shifts (`Distance`).

Code that changes things step by step is modelled as methods, loops, arrays and
classes (`WalStore.Store`, `Splitter.Splitter`, `Attributes.Rng`), each proved
equal to a function; the lemmas are about those functions.

## Where the code and its comments part

The model follows the code.

- The statements of a batch run before its audit rows and the audit is never
  consulted (`source/reforge/database/src/wal.rs:303-335`), so replay is safe
  only as far as the SQL itself is: one batch recovers exactly when a second
  application, where it is not rejected, changes nothing
  (`Replay.OneBatchExact`). `SqlTables` says when that is so.
- Idempotent statements do not add up to an idempotent batch: a size update
  followed by the insert of size 1 gives 1, and replayed 4
  (`Exchange.SetSizesExact`).
- The comments call every exchange unit safe to run again. It is, exactly when its
  result is absent or has an id (`Exchange.ExchangeReplayExact`); a result that
  takes a generated id is made a second time (`Exchange.FreshUnitDoubles`). Units
  that share a batch must also agree on the counts and gold that they pass on
  (`ExchangeUnits.UnitsReplayExact`).
- After a failed commit the worker carries on, and the channel boots even when
  the replay failed (`source/reforge/server_realms/src/channel/mod.rs:114-122`),
  so an old file can be run over newer rows. `Replay.TwoBatchesExact` is the
  exact condition, `Pipeline.OvertakenSaveReverts` the ordinary case that breaks it.
- File names sort by millisecond only; within one millisecond their order is
  chance (`Uuid.FileNameExact`), so two files left over from one millisecond can be
  replayed in the wrong order (`Replay.SameMillisecondReverts`). A replay that
  succeeds commits no batch past an older one exactly when the names are in order
  (`WalStore.Store.ReplayWal`), and rising timestamps put them in order
  (`WalStore.TimestampsInOrder`).
- The flush timer starts again with every message
  (`source/reforge/database/src/wal.rs:380-389`), so a batch is open for up to
  (max_batch - 1) intervals, not one (`Batcher.OpenTimeExact`).
- Success for a flush vouches for its whole unit only if the unit and what was
  already waiting stay below max_batch together; at a multiple of max_batch the
  flush is answered with success no matter what the sink did, and past it with the
  answer to the last batch only (`FlushUnit.FlushAnswer`, `FlushUnit.FlushVouches`). A
  unit shorter than max_batch is still split when it meets an open batch without
  enough room.
- Text of the form `\x` and an even, positive number of hex digits comes back from the file
  as bytes, and empty bytes come back as the text `\x` (`RoundTrip.RoundTripExact`).
  Bytes print in lower case, so `\xAB` in upper case is not the text of the
  byte 0xAB, although it is read as that byte.
- A newline in a statement or text makes the file unreadable
  (`WalFile.FileRoundTrip`). Once its first commit has failed, the batch is out of
  reach for good (`Recovery.StuckForever`) and every replay stops at its file
  (`WalStore.UnreadableStops`).
- A payload on the SYN is placed one byte early, so its first byte is lost, and its
  last byte comes twice if a segment carries it again (`Reassembly.SynComplete`).
  The stream comes back only when that happens and all bytes of the payload are
  equal (`Reassembly.SynPayloadExact`).
- The splitter's `push` drops the packets of a call that ends in an error
  (`Splitter.PushUntilError`).
- With all five normal slots taken, a normal attribute is written into the
  first rare slot (`AttributeLayout.FullNormalSpills`); only the bound of three
  in the callers keeps this from happening (`AttributeLayout.RollLayout`).

## Model

| member | source | states |
|---|---|---|
| `Recovery.NoLoss` | source/reforge/database/src/wal.rs:480-511 | for any SQL and any run with failures and crashes: a persisted id is in the audit or its file is still there unchanged; a file is gone only when its batch was committed and all its ids are audited |
| `Recovery.StuckForever` | source/reforge/database/src/wal.rs:546-563 | in every later run a left-over batch with a newline keeps its file and never reaches the worker again, so one that was not committed never is; the directory never becomes empty |
| `Recovery.ConsistentStep` | source/reforge/database/src/wal.rs:297-337 | every step keeps the database equal to the committed batches in log order, a batch already run counting once |
| `Recovery.CrashRecovery` | source/reforge/database/src/wal.rs:480-565 | after any legal run that leaves the directory empty, the database is every persisted batch applied once, in the order of persisting |
| `Recovery.EmptyDirectory` | source/reforge/database/src/wal.rs:534-565 | a consistent state with no file left holds exactly the fold of the log |
| `Recovery.KeepsReadsBack` | source/reforge/database/src/wal.rs:517-527 | a batch that keeps (one-line, exact parameters) is read back from its file unchanged |
| `Replay.OrderedRecovery` | source/reforge/database/src/wal.rs:480-565 | recovery when batches are stable, names fresh and no commit passes an outstanding older file |
| `Replay.PairsRecover` | source/reforge/database/src/wal.rs:360-405 | with no ordering rule at all, batches that may pairwise come late always recover |
| `Replay.CrashAnywhere` | source/reforge/database/src/wal.rs:480-565 | a crash may end any run, losing what the worker held and nothing else; it never makes a run illegal |
| `Replay.LateReplay` | source/reforge/database/src/wal.rs:391-399 | a concrete run, failed commit then a newer batch then boot, ends with the older batch applied over the newer |
| `Replay.SameMillisecondReverts` | source/reforge/database/src/wal.rs:535-545 | in any millisecond two names sort against the order of persisting; with both batches left over, the replay in name order ends with the older batch applied over the younger |
| `Replay.TwoBatchesExact` | source/reforge/database/src/wal.rs:480-565 | over all databases and runs, two batches recover if and only if the first may be applied after the second |
| `Replay.AppliedTwice` | source/reforge/database/src/wal.rs:303-335 | the concrete run, commit reported as an error then boot, ends with the batch applied to its own result, the audit notwithstanding |
| `Replay.OneBatchExact` | source/reforge/database/src/wal.rs:480-565 | over all databases and runs, one batch that reads back recovers if and only if a second application changes nothing where it is not rejected |
| `FileOrder.SortedIsAscending` | source/reforge/database/src/wal.rs:535-543 | sorting a listing keeps its names and puts them in strictly ascending order |
| `WalStore.Store.constructor` | source/reforge/database/src/wal.rs:471-477 | an empty directory over the given database and audit |
| `WalStore.Store.Transaction` | source/reforge/database/src/wal.rs:297-337 | statements and audit rows take effect together or not at all; success is reported only for a commit, and an unclear commit may have taken effect |
| `WalStore.Store.Apply` | source/reforge/database/src/wal.rs:484-511 | one call is a run of persist, commit and unlink steps; on any error after persisting the file is still there with the batch's text |
| `WalStore.Store.ReplayFile` | source/reforge/database/src/wal.rs:546-563 | a file is removed exactly when it parses, its commit is reported and the removal works; otherwise the directory is unchanged; the turn is in order if nothing older is outstanding, and a turn that removes its file only then |
| `WalStore.Store.ReplayNext` | source/reforge/database/src/wal.rs:546-563 | one turn of the replay keeps what holds between turns: the files passed parsed and are gone, the others are as they were, and the files were in order if and only if the run so far was and the files left are |
| `WalStore.Store.ReplayWal` | source/reforge/database/src/wal.rs:534-565 | for any left-over files: the replay is a run that persists nothing; success means an empty directory and that all files parsed, an error leaves exactly the files from the failing one on; if the names sort in the order of persisting no batch is committed past an older one, and for a replay that succeeds over batches with a file each, only then |
| `WalStore.UnreadableStops` | source/reforge/database/src/wal.rs:549-557 | with a file that does not parse no replay succeeds, and that file and all after it are left |
| `WalStore.HandleRuns` | source/reforge/database/src/wal.rs:490-509 | handling a held batch is a run of the step system, in order if and only if it commits nothing or nothing older is outstanding |
| `WalStore.FileRuns` | source/reforge/database/src/wal.rs:546-563 | replaying a file is a fresh run starting with its load, in order if and only if it commits nothing or nothing older is outstanding |
| `WalStore.ApplyRuns` | source/reforge/database/src/wal.rs:484-511 | applying a new batch is a run starting with its persist |
| `WalStore.InOrderExact` | source/reforge/database/src/wal.rs:535-545 | the names still there sort in the order of persisting if and only if the smallest belongs to the oldest outstanding batch and the others sort so |
| `WalStore.TimestampsInOrder` | source/reforge/database/src/wal.rs:514-527 | files named with rising timestamps below 2^48 sort in the order of persisting, whatever the random bits |
| `WalStore.OrderedIsOldest` | source/reforge/database/src/wal.rs:535-545 | when the files still there sort in the order of persisting, the next one is the oldest |
| `WalStore.BootRecovers` | source/reforge/game_core/src/world.rs:44-51 | from any consistent state, a boot replay stays consistent, and if it empties the directory the database is every persisted batch once, in order |
| `SqlTables.RowByRow` | source/reforge/database/src/wal.rs:303-335 | the schema's value checks aside, statements that name their rows are never rejected, and each row ends as its own statements make it |
| `SqlTables.StableExactlyByRow` | source/reforge/database/src/wal.rs:440-465 | such a batch is replay-stable if and only if it is at each row |
| `SqlTables.EmptyDatabaseDecides` | source/reforge/database/src/wal.rs:440-465 | an unguarded batch is replay-stable over all databases if and only if it is over those without rows |
| `SqlTables.AbsentRowDecides` | source/reforge/database/src/item.rs:63-107 | without guards, stability at the absent row gives stability at every row |
| `SqlTables.WideUpsertsStable` | source/reforge/database/src/item.rs:63-84 | updates and upserts in any mix are stable when the upserts write all the updated columns |
| `SqlTables.InsertsIfAbsentStable` | source/reforge/database/src/safebox.rs:205-212 | inserts that do nothing on conflict are stable in any number |
| `SqlTables.ChainStable` | source/reforge/database/src/item.rs:736-751 | a linked chain of guarded updates and deletes is stable whether or not its guards match |
| `StableBatches.GuardsStableExact` | source/reforge/database/src/item.rs:736-751 | guarded statements on one column of a row are stable if and only if the replay is silent from each value that one of them asks for |
| `StableBatches.ChainSettles` | source/reforge/database/src/item.rs:736-751 | a linked chain of guards meets that criterion |
| `StableBatches.UnlinkedUnstable` | source/reforge/database/src/item.rs:736-751 | example of guards that are not linked: from 4 they lead to 5 and, replayed, to 3 |
| `StableBatches.UnlinkedStable` | source/reforge/database/src/item.rs:736-751 | example of guards that are not linked and stable all the same |
| `StableBatches.FullForgets` | source/reforge/database/src/item.rs:63-84 | statements on a row with a delete or an upsert of all its columns among them end the same from every row |
| `StableBatches.SettledBatchStable` | source/reforge/database/src/wal.rs:440-465 | a batch is replay-stable when, row by row, a statement starts over, or there are updates with wide upserts only, or do-nothing inserts only, or guards that settle |
| `SqlTables.SequenceAdvances` | source/reforge/database/src/event.rs:17 | every run takes from a table's sequence exactly as many ids as the batch has generated-id inserts |
| `SqlTables.FreshIds` | source/deploy/win/schema/schema.sql:1174-1181 | generated ids count from one, each insert making the row of the next |
| `SqlTables.FreshReplay` | source/reforge/database/src/event.rs:17 | in a database whose sequence only committed inserts have moved, applying a generated-id statement again: if the next id is free there is one row more, equal to the first; if it is taken its row is overwritten, or a plain insert is rejected |
| `SqlTables.DisjointCommute` | source/reforge/database/src/wal.rs:360-405 | batches with no row in common, and no table in common where one of them generates an id, give the same in either order, rejections included |
| `ExchangeSql.ItemParamsMutation` | source/reforge/database/src/item.rs:661-680 | the vector grown in loops is the parameters of the upsert in the order of its columns, with or without the id |
| `ExchangeSql.ExchangeMutations` | source/reforge/database/src/item.rs:736-761 | the mutations of the unit, with their texts and parameters in order: guarded material statements, the upsert, the guarded gold update |
| `ExchangeSql.UnitInFull` | source/reforge/database/src/item.rs:736-761 | the unit mutation by mutation: id, count left unless zero and count expected for each material, the upsert with the id in front if there is one, then owner, gold left and gold expected |
| `ExchangeSql.RowInFull` | source/reforge/database/src/item.rs:661-680 | the twenty-two parameters of the upsert besides the id, one by one |
| `ExchangeSql.UnitIds` | source/reforge/database/src/wal.rs:172-180 | from identifiers drawn apart no two mutations of a unit share one, so their set is as large as the unit |
| `ExchangeSql.UnitsIds` | source/reforge/database/src/wal.rs:172-180 | the same for any number of units |
| `ExchangeSql.OneRowEach` | source/reforge/database/src/wal.rs:314-330 | a committed batch with fresh identifiers, no two alike, adds exactly one audit row a mutation |
| `ExchangeSql.UnitMeans` | source/reforge/database/src/item.rs:736-761 | read as their statements read them, the parameters of these mutations give exactly the operations of the unit |
| `ExchangeSql.ExchangesRecover` | source/reforge/database/src/wal.rs:480-565 | when every persisted batch is any number of units whose guards settle at every row that is no result, names are fresh and commits in order, an empty directory means every unit was applied exactly once, in order |
| `Exchange.ExchangeEffect` | source/reforge/database/src/item.rs:736-761 | first application over any database: matched materials have their post count or are gone, unmatched ones are kept, the result's row, under its id or the next generated one, is exactly what was declared, gold follows its guard, nothing else changes |
| `Exchange.ColumnsInFull` | source/reforge/database/src/item.rs:661-680 | column by column, what the declared row of the result is |
| `Exchange.ExchangeReplayExact` | source/reforge/database/src/item.rs:685-761 | over every database with the schema's columns, a unit with distinct materials is replay-stable if and only if its result is absent or has an id, even the id of a material |
| `Exchange.FreshUnitDoubles` | source/reforge/database/src/item.rs:685-692 | the replay of a unit without an id makes the item again under the next id, over whatever held it, and the first item stays unless the unit consumes it |
| `Exchange.SetSizesExact` | source/reforge/database/src/safebox.rs:205-222 | a batch of size statements on one account is stable if and only if it is not some updates followed by nothing but inserts |
| `Exchange.SetSizeFourThenOne` | source/reforge/database/src/safebox.rs:205-222 | over any database without a row for the account, size 4 then size 1 leaves size 1, and replayed 4 |
| `ExchangeUnits.UnitsReplayExact` | source/reforge/database/src/item.rs:685-761 | a batch of any units, materials repeated or not, is replay-stable if and only if every result is absent or has an id and, at every row that is no result, the guarded statements of all units in order are silent when replayed from each value they ask for |
| `Pipeline.StableFromOps` | source/reforge/database/src/wal.rs:440-465 | replay-stable statements make a replay-stable batch of mutations |
| `Pipeline.LateFromDisjoint` | source/reforge/database/src/wal.rs:360-405 | batches that share no row, and no table where one generates an id, may come late |
| `Pipeline.SqlPipelineRecovers` | source/reforge/database/src/wal.rs:480-565 | recovery stated over the SQL: an empty directory means the tables are all statements ever persisted, each once, in order |
| `Pipeline.SettledBatchesRecover` | source/reforge/database/src/wal.rs:360-565 | the same for batches of any mix of saves and parts of units: it is enough that no statement generates an id and that each row's statements settle |
| `Pipeline.OvertakenSaveReverts` | source/reforge/database/src/wal.rs:391-399 | two saves of one column, each idempotent: some run ends with the older value |
| `PushOrder.BatchesArePushes` | source/reforge/database/src/wal.rs:360-410 | the batches handed over, joined, are the pushes in order |
| `PushOrder.PushesInOrder` | source/reforge/database/src/wal.rs:360-565 | from queues to tables, over any number of processes one after the other: with no persist failure, after any legal run that empties the directory the database is what the first so many pushes of each process make of the initial one, each once, in push order, none skipped |
| `PushOrder.PartsArePushes` | source/reforge/database/src/wal.rs:360-410 | the first batches of each process, joined, are the first pushes of each process; all of its pushes if all of its batches were handed over |
| `Codec.ParseJsonString` | source/reforge/database/src/wal.rs:617-647 | the scanning loop is the string parser, errors included |
| `Codec.ParseJsonArray` | source/reforge/database/src/wal.rs:660-676 | the loop over the parameters is the array parser, errors included |
| `Codec.ParsePayloadJson` | source/reforge/database/src/wal.rs:569-614 | the loop over the fields is the line parser, errors included |
| `RoundTrip.LineInFull` | source/reforge/database/src/wal.rs:193-201 | a printed line, key by key and mark by mark |
| `RoundTrip.LiteralLine` | source/reforge/database/src/wal.rs:569-614 | a line spelled out with the keys `mutation_id`, `sql` and `params` parses to its mutation |
| `RoundTrip.IntsInFull` | source/reforge/database/src/wal.rs:144-163 | null, zero, and a positive and a negative number as they are printed |
| `RoundTrip.BytesInFull` | source/reforge/database/src/wal.rs:144-163 | two bytes as they are printed: prefix, lower-case digits |
| `RoundTrip.TextInFull` | source/reforge/database/src/wal.rs:144-163 | a text with a quote and a backslash as it is printed |
| `RoundTrip.LooseLine` | source/reforge/database/src/wal.rs:569-614 | with any white space between all tokens, the fields in another order, a field of unknown meaning among them and no parameters, a line still parses to its mutation |
| `RoundTrip.IncompleteLine` | source/reforge/database/src/wal.rs:610-613 | a line without a statement, and one without an identifier, is an error that says so |
| `RoundTrip.LooseItems` | source/reforge/database/src/wal.rs:660-676 | parameters with any white space around each of them parse to the same parameters |
| `RoundTrip.LooseArray` | source/reforge/database/src/wal.rs:660-676 | white space around and inside the brackets changes nothing, also of an empty array |
| `RoundTrip.SkippedOthers` | source/reforge/database/src/wal.rs:711-727 | the value of an unknown key is skipped: null, an array, or a token up to a comma or brace |
| `RoundTrip.BadStrings` | source/reforge/database/src/wal.rs:617-647 | a backslash before any other character is an error that names it, and so is a string that does not end |
| `RoundTrip.BeyondI64` | source/reforge/database/src/wal.rs:703-707 | decimal numbers are read if and only if 64 bits hold them |
| `RoundTrip.WhitespaceInFull` | source/reforge/database/src/wal.rs:571 | the twenty-five characters that are trimmed |
| `RoundTrip.TwoPassEscape` | source/reforge/database/src/wal.rs:146-163 | the two replacement passes escape like the single pass used for the statement |
| `RoundTrip.ParseInvertsPrint` | source/reforge/database/src/wal.rs:193-216 | every printed line parses, to the mutation up to one normalisation, for all strings and all 64-bit integers |
| `RoundTrip.RoundTripExact` | source/reforge/database/src/wal.rs:687-698 | the line gives back the very mutation if and only if no parameter is empty bytes or text that looks like printed bytes |
| `RoundTrip.NormalFixpoint` | source/reforge/database/src/wal.rs:678-708 | a parameter is its own normal form if and only if it is exact |
| `RoundTrip.PrintInjective` | source/reforge/database/src/wal.rs:193-201 | equal lines come from equal ids, equal statements and parameters with equal normal forms |
| `RoundTrip.AmbiguousText` | source/reforge/database/src/wal.rs:151-156 | a text and a byte string that print alike, and the text that empty bytes become |
| `WalFile.WriteLines` | source/reforge/database/src/wal.rs:517-527 | the write loop produces one line per mutation, in order |
| `WalFile.ReadLines` | source/reforge/database/src/wal.rs:549-557 | the read loop parses the non-blank lines in order and stops at the first error |
| `WalFile.BlankLine` | source/reforge/database/src/wal.rs:552-556 | a line of white space only, whatever it is, changes nothing |
| `WalFile.CarriageReturn` | source/reforge/database/src/wal.rs:552 | a carriage return before the newline is not part of the line |
| `WalFile.FileRoundTrip` | source/reforge/database/src/wal.rs:517-557 | a file is read back as its batch, in order, up to normalisation, if no statement or text has a newline, and is an error otherwise |
| `WalFile.ReadsBack` | source/reforge/database/src/wal.rs:549-557 | one-line mutations come back from the file |
| `WalFile.FailsToReadBack` | source/reforge/database/src/wal.rs:549-557 | any newline in a statement or text makes the whole file an error |
| `Uuid.ParseInvertsToText` | source/reforge/database/src/wal.rs:730-740 | parsing the canonical text gives back the sixteen bytes |
| `Uuid.FileNameExact` | source/reforge/database/src/wal.rs:33-43 | for all timestamps and random words: bytes, text and file name sort by the millisecond, and within one by the ten bytes with the random bits, both directions |
| `Uuid.SameMillisecond` | source/reforge/database/src/wal.rs:33-43 | in every millisecond there are two names that sort against the order in which they may be drawn |
| `Uuid.ChronologicalOrder` | source/reforge/database/src/wal.rs:67-77 | below 2^48 a smaller timestamp gives smaller bytes, text and file name, whatever the random bits |
| `Uuid.EqualIdentifiers` | source/reforge/database/src/wal.rs:33-43 | identifiers are equal if and only if the timestamps agree modulo 2^48 and the random words in their low 56 bits |
| `Uuid.VersionAndVariant` | source/reforge/database/src/wal.rs:33-43 | version and variant bits are always those of section 5.7 of RFC 9562, after the 48-bit timestamp |
| `Uuid.PartsInFull` | source/reforge/database/src/wal.rs:33-43 | every byte: the low 48 bits of the timestamp, twelve random bits from bit 36 on behind the version, four from bit 32 on behind the variant, and the low 56 at the end |
| `Uuid.TextInFull` | source/reforge/database/src/wal.rs:67-77 | every digit and dash of the text: two lower-case digits a byte, dashes at 8, 13, 18 and 23 |
| `Uuid.NameInFull` | source/reforge/database/src/wal.rs:519 | the file name is the text and `.wal` |
| `Uuid.ParseAccepts` | source/reforge/database/src/wal.rs:730-740 | an identifier is accepted if and only if it has 32 hex digits of either case besides dashes |
| `Common.BigEndianAt` | source/reforge/database/src/wal.rs:33-43 | byte i of a number in k bytes, most significant first |
| `Batcher.Fill` | source/reforge/database/src/wal.rs:376-390 | the inner loop gathers until size, flush, pause or a closed channel, with the clock it needs |
| `Batcher.Work` | source/reforge/database/src/wal.rs:360-405 | the worker's hand-overs and acknowledgements, event by event |
| `Batcher.FirstInFirstOut` | source/reforge/database/src/wal.rs:360-430 | the events read in order give back the channel: nothing lost, doubled or reordered, every flush acknowledged once and in its place |
| `Batcher.AnyMoment` | source/reforge/database/src/wal.rs:360-430 | at any moment what was handed over and acknowledged is an initial part of what was sent |
| `Batcher.BatchSizes` | source/reforge/database/src/wal.rs:376-380 | every batch has between 1 and max(1, max_batch) mutations |
| `FlushUnit.FlushAnswer` | source/reforge/database/src/wal.rs:360-405 | a prompt unit, what waited before it and its flush, batch by batch for every limit and sink: full batches, then the rest answered with its own result, or nothing left and success |
| `FlushUnit.AnswerIs` | source/reforge/database/src/wal.rs:391-399 | the flush's answer is the reply to the batch with the last mutation if something is left over the full batches, and success otherwise |
| `FlushUnit.FlushVouches` | source/reforge/database/src/wal.rs:411-428 | with p mutations waiting, a unit of n is in one batch if and only if p + n is within the limit, and success vouches for all of it under every sink if and only if p + n is below the limit |
| `FlushUnit.LeftoverFlush` | source/reforge/database/src/wal.rs:370-376 | a flush met by an idle worker is acknowledged with success |
| `Batcher.OpenTime` | source/reforge/database/src/wal.rs:380-389 | no batch is open longer than (max(1, max_batch) - 1) intervals |
| `Batcher.OpenTimeReached` | source/reforge/database/src/wal.rs:380-389 | a run that reaches the bound |
| `Batcher.OpenTimeExact` | source/reforge/database/src/wal.rs:380-389 | a time bounds all batches of all schedules if and only if it is at least (max(1, max_batch) - 1) intervals |
| `Batcher.ClosingExact` | source/reforge/database/src/wal.rs:376-390 | what closes a batch and when: the mutation that fills it; a flush within the interval after the last mutation; the end of the channel within it; or the end of that interval, with nothing received since |
| `Batcher.SinkAwaited` | source/reforge/database/src/wal.rs:360-405 | a batch is open from when its first mutation is there and the worker free, is handed over when it closes, and no other is opened before the sink is done with it |
| `Splitter.Splitter.TryExtract` | source/reforge/bench_bot/src/splitter.rs:211-256 | takes exactly the first packet off the buffer; on an incomplete packet or an error the buffer is unchanged |
| `Splitter.Splitter.Push` | source/reforge/bench_bot/src/splitter.rs:176-183 | returns all complete packets of buffer and read, or the error, and leaves the rest |
| `Splitter.Splitter.Next` | source/reforge/bench_bot/src/splitter.rs:188-209 | reads no more than it needs and returns the next packet, the error, or the error of a socket at its end or broken |
| `Splitter.Splitter.Drain` | source/reforge/bench_bot/src/splitter.rs:188-209 | repeated calls up to the first error give the packets and error of the session |
| `Splitter.SessionIsSplit` | source/reforge/bench_bot/src/splitter.rs:188-209 | a session returns the split of all the bytes, and the split's error or the socket's |
| `Splitter.SessionInvariance` | source/reforge/bench_bot/src/splitter.rs:188-209 | two cuts of one stream give the same packets and the same final error, also when the stream goes wrong |
| `Splitter.LookExtends` | source/reforge/bench_bot/src/splitter.rs:211-256 | a packet or error seen at the front stays the same when bytes are added |
| `Splitter.SplitAppend` | source/reforge/bench_bot/src/splitter.rs:176-183 | splitting a longer stream continues the split of its beginning |
| `Splitter.SplitKeepsBytes` | source/reforge/bench_bot/src/splitter.rs:176-183 | packets and rest together are the bytes received |
| `Splitter.SplitStops` | source/reforge/bench_bot/src/splitter.rs:211-256 | the rest begins with an incomplete packet or with the reported error |
| `Splitter.ChunkInvariance` | source/reforge/bench_bot/src/splitter.rs:176-183 | for an error-free stream two ways of cutting it give the same packets and the same buffer |
| `Splitter.PushUntilError` | source/reforge/bench_bot/src/splitter.rs:176-183 | with an error, the packets returned are those completed before the failing read, and the bytes alone decide which read fails |
| `Splitter.NextOfStream` | source/reforge/bench_bot/src/splitter.rs:188-209 | what `next` decides after some reads is what the whole stream begins with |
| `Splitter.SplitInvertsFlatten` | source/reforge/bench_bot/src/splitter.rs:97-149 | well-formed packets and an incomplete one, concatenated, split into exactly these |
| `Splitter.SplitIsWellFormed` | source/reforge/bench_bot/src/splitter.rs:211-256 | every packet returned is well-formed |
| `Splitter.SplitUnique` | source/reforge/bench_bot/src/splitter.rs:211-256 | the split is the only reading of the bytes as well-formed packets and an incomplete rest, both directions |
| `Splitter.WireExact` | source/reforge/bench_bot/src/splitter.rs:87-149 | a packet is well-formed if and only if the server writes it so: one of 31 fixed sizes; header 4, 130, 152 or 153, the whole length low byte first, at least 9, 3, 7, 7; or header 140, the length of at least one byte that follow |
| `Splitter.WireRoundTrip` | source/reforge/bench_bot/src/splitter.rs:176-209 | whatever such packets are sent one after the other come back, with the beginning of the next one left over |
| `Splitter.WireErrors` | source/reforge/bench_bot/src/splitter.rs:211-256 | the errors are exactly: a header that no packet has, and a length below the least one of its header, with that number |
| `Splitter.SessionEnds` | source/reforge/bench_bot/src/splitter.rs:198-206 | a session without a wrong packet ends with the read error, a clean end, or an end with the number of bytes left |
| `Reassembly.FindBase` | scripts/gpg/extract_pcap_login3.py:128-136 | the loop finds one past the first SYN in sequence order, or the lowest sequence number |
| `Reassembly.MergeAll` | scripts/gpg/extract_pcap_login3.py:137-152 | the merge loop is the fold of the segments over the next expected byte |
| `Reassembly.Reassemble` | scripts/gpg/extract_pcap_login3.py:123-153 | sort, base and merge together |
| `Reassembly.AssembleIsCoverage` | scripts/gpg/extract_pcap_login3.py:123-153 | for slices of one stream with any order, overlaps, repeats and gaps, the result is the stream without exactly the bytes no segment carries |
| `Reassembly.ReassemblyExact` | scripts/gpg/extract_pcap_login3.py:123-153 | the result is the stream if and only if every byte of it was captured |
| `Conflicts.DeciderDecides` | scripts/gpg/extract_pcap_login3.py:127 | of the segments that carry a byte exactly one decides it: the lowest sequence number, and among equal ones the first captured |
| `Conflicts.AssembleHears` | scripts/gpg/extract_pcap_login3.py:123-153 | for every capture, also with segments that contradict each other: from the base on, the result is each carried byte as its deciding segment has it |
| `Reassembly.BaseDetermined` | scripts/gpg/extract_pcap_login3.py:128-136 | captures with the same segments have the same base |
| `Reassembly.ArrivalOrder` | scripts/gpg/extract_pcap_login3.py:123-153 | captures with the same segments give the same stream |
| `Reassembly.SynAssembles` | scripts/gpg/extract_pcap_login3.py:123-153 | for every capture numbered as in section 3.4 of RFC 9293, retransmissions of the SYN and of its payload included: the result is the SYN's payload without its first byte, then the bytes of the stream that are carried from the payload's last one on |
| `Reassembly.SynPayloadExact` | scripts/gpg/extract_pcap_login3.py:123-153 | so with a payload of m bytes on the SYN the stream comes back if and only if every byte from the m-th on is carried by a segment at its own number and the first m bytes are equal |
| `Reassembly.SynComplete` | scripts/gpg/extract_pcap_login3.py:123-153 | when every byte behind the payload is captured: the stream without its first byte, and with the payload's last byte twice if that is carried again |
| `Reassembly.SynWithoutPayload` | scripts/gpg/extract_pcap_login3.py:123-153 | when the SYN has no payload: the stream without exactly the bytes no segment carries |
| `Reassembly.SynFlag` | scripts/gpg/extract_pcap_login3.py:131 | a segment is a SYN if and only if its flags are 2 or 3 modulo 4 |
| `Reassembly.OpeningAssembles` | scripts/gpg/extract_pcap_login3.py:123-153 | with flags 2 or 18 on one segment without payload and 16, 17, 24 or 25 on all others: the stream that begins one past that segment, without the bytes no segment carries |
| `Reassembly.RunningAssembles` | scripts/gpg/extract_pcap_login3.py:123-153 | with flags 16, 17, 24 or 25 on all segments: the stream that begins at the lowest number, without the bytes no segment carries |
| `WeightedPick.Select` | source/reforge/database/src/attr.rs:298-307 | the subtracting loop is the pick function |
| `WeightedPick.PickExact` | source/reforge/database/src/attr.rs:298-307 | every roll up to the total selects one row: the one whose stretch of the running sums holds the roll; a row of weight 0 never |
| `WeightedPick.RollCount` | source/reforge/database/src/attr.rs:298-307 | the exact number of rolls that select a row, also for a saturated total; its weight for the full total |
| `WeightedPick.DrawCount` | source/reforge/database/src/attr.rs:251-253 | the exact number of raw draws that select a row, modulo bias included |
| `Attributes.SetIndexExact` | source/reforge/database/src/attr.rs:227-248 | an item has a set if and only if it is a weapon other than an arrow or one of seven kinds of armour; weapons share the first, armours share one only with their own kind |
| `Attributes.SetsInOrder` | source/reforge/database/src/attr.rs:43-50 | which set each weapon and each kind of armour has |
| `Attributes.InRange` | source/reforge/database/src/attr.rs:251-253 | a draw is brought into the inclusive range |
| `Attributes.Rng.Number` | source/reforge/database/src/attr.rs:251-253 | uses exactly one draw and brings it into the inclusive range |
| `Attributes.CollectAvailable` | source/reforge/database/src/attr.rs:281-295 | the loop collects the usable rows and their saturated total |
| `Attributes.PutAttributeWithLevel` | source/reforge/database/src/attr.rs:273-324 | the array, the result and the draws used after one write |
| `Attributes.PutAttribute` | source/reforge/database/src/attr.rs:342-359 | the level by percentile, then the write |
| `Attributes.AlterToMagicItem` | source/reforge/database/src/attr.rs:364-387 | one to three writes by the chances of the item's type |
| `Attributes.AddRareAttribute` | source/reforge/database/src/attr.rs:394-432 | one unweighted choice among the usable rare rows |
| `Attributes.RollAttrs` | source/reforge/database/src/attr.rs:447-472 | sockets, attributes and draws after the whole roll |
| `AttributeLayout.PutIsOneMore` | source/reforge/database/src/attr.rs:273-324 | with a free normal slot, at most one new attribute, in the first free slot, of a usable row, with the value of the rolled level if the row's cap allows it and of the cap otherwise, narrowed to 16 bits |
| `AttributeLayout.FullNormalSpills` | source/reforge/database/src/attr.rs:314-323 | with all five normal slots taken, a successful write goes to the first rare slot and nowhere else |
| `AttributeLayout.SpillExample` | source/reforge/database/src/attr.rs:314-323 | a table and slots for which a rare attribute is overwritten, whatever the draws |
| `AttributeLayout.MagicGrows` | source/reforge/database/src/attr.rs:364-387 | at most three attributes more, all normal, the rare slots unchanged |
| `AttributeLayout.RareGrows` | source/reforge/database/src/attr.rs:394-432 | at most one attribute more, in the first free rare slot, from an enabled rare row |
| `AttributeLayout.RollLayout` | source/reforge/database/src/attr.rs:447-472 | for every item, tables and random stream: tidy slots stay tidy, at most three normal and one rare attribute are added, all from enabled rows, and an item with a normal attribute is untouched |
| `AttributeLayout.LevelShares` | source/reforge/database/src/attr.rs:342-359 | of the hundred rolls 30, 40, 20, 8 and 2 bring levels one to five for the first attribute, and 50, 40 and 10 levels one to three for the others |
| `AttributeLayout.UsableExact` | source/reforge/database/src/attr.rs:281-295 | a row may be chosen if and only if it is enabled for the set and no slot of the kind holds its apply index |
| `AttributeLayout.AvailableExact` | source/reforge/database/src/attr.rs:281-295 | the choice is among all such rows, in the order of the table |
| `AttributeLayout.RareAvailableExact` | source/reforge/database/src/attr.rs:408-418 | the same for the rare rows |
| `AttributeLayout.TotalNumbers` | source/reforge/database/src/attr.rs:290-297 | the weights are the positive ones, their total stops at 2^32 - 1, and a total of zero uses no draw and writes nothing |
| `AttributeLayout.PutChoice` | source/reforge/database/src/attr.rs:297-324 | one write in numbers: which row the draw chooses, which level counts under its cap, and exactly when and where it is written |
| `AttributeLayout.MagicNumbers` | source/reforge/database/src/attr.rs:364-387 | the first attribute always, a second for 20 rolls of a hundred on a weapon and 10 on armour, a third for 5, 2 on body armour and 1 on other armour, with the draws in order |
| `AttributeLayout.RareNumbers` | source/reforge/database/src/attr.rs:394-432 | one draw chooses among the usable rare rows evenly, at level five under the row's cap |
| `AttributeLayout.RollNumbers` | source/reforge/database/src/attr.rs:458-472 | when the roll uses no draw, one draw, or goes on to the magic attributes and then the rare one |
| `AttributeLayout.RowShare` | source/reforge/database/src/attr.rs:281-307 | without saturation, exactly the weight of a usable row is its number of rolls, and its exact share of the raw draws |
| `Words.BitwiseBit` | source/reforge/database/src/sha1.rs:46-51 | a bitwise operation acts on each bit by itself |
| `Words.InvertedBit` | source/reforge/database/src/sha1.rs:47 | the complement flips each bit |
| `Sha1.FBits` | source/reforge/database/src/sha1.rs:46-51 | bit by bit the round functions are choice, parity, majority and parity |
| `Sha1.RoundConstants` | source/reforge/database/src/sha1.rs:14 | the four constants are 2^30 times the square roots of 2, 3, 5 and 10, rounded down |
| `Words.RotlBit` | source/reforge/database/src/sha1.rs:52-60 | a rotation by any n moves bit i to place i + n around the end |
| `Words.RotlNumbers` | source/reforge/database/src/sha1.rs:41-60 | the rotations by 1, 5 and 30 in numbers |
| `Words.SumOrder` | source/reforge/database/src/sha1.rs:52-57 | wrapping sums may be taken in any order |
| `Sha1.GapMinimal` | source/reforge/database/src/sha1.rs:16-25 | no shorter run of zeros gives whole blocks |
| `Sha1.PaddingInjective` | source/reforge/database/src/sha1.rs:16-25 | messages of any lengths have the same padded form if and only if they are equal |
| `Sha1.FieldIsLength` | source/reforge/database/src/sha1.rs:20 | the last eight bytes are the length in bits if and only if the message is shorter than 2^61 bytes |
| `Sha1.PaddedBytes` | source/reforge/database/src/sha1.rs:18-25 | the padded message byte by byte: message, 0x80, zeros, and the length in bits, most significant byte first |
| `Sha1.Pad` | source/reforge/database/src/sha1.rs:18-25 | the loop that pushes zeros produces the padded message of section 4 of FIPS 180-1 |
| `Sha1.FillSchedule` | source/reforge/database/src/sha1.rs:36-42 | the array holds the recursive word sequence of section 7 |
| `Sha1.FirstWords` | source/reforge/database/src/sha1.rs:37-39 | the first sixteen words in numbers, from the bytes of the block |
| `Sha1.LaterWords` | source/reforge/database/src/sha1.rs:40-42 | every later word, bit by bit: the parity of the words 3, 8, 14 and 16 before it, one place up around the end |
| `Sha1.RunRounds` | source/reforge/database/src/sha1.rs:44-63 | the loop over five variables is the eighty recursive rounds |
| `Sha1.RoundsNumbers` | source/reforge/database/src/sha1.rs:44-63 | each round in numbers: the sum modulo 2^32, the rotations by 5 and 30, and where the registers move |
| `Sha1.RoundsInjective` | source/reforge/database/src/sha1.rs:44-63 | after any number of rounds over a block two states agree if and only if they did before |
| `Sha1.CompressBlock` | source/reforge/database/src/sha1.rs:35-70 | the five words are updated in place to the compression of the block |
| `Sha1.CompressNumbers` | source/reforge/database/src/sha1.rs:65-69 | after eighty rounds the registers are added to the words modulo 2^32 |
| `Sha1.ChainBlocks` | source/reforge/database/src/sha1.rs:35 | the blocks are the message from front to back, 64 bytes each |
| `Sha1.StartBytes` | source/reforge/database/src/sha1.rs:27-33 | the starting words as the twenty bytes they would come out as |
| `Sha1.HashIsChain` | source/reforge/database/src/sha1.rs:72-76 | the digest is what all blocks of the padded message leave |
| `Sha1.Digest` | source/reforge/database/src/sha1.rs:13-77 | the twenty bytes are the recursive hash of FIPS 180-1, for every message |
| `Distance.ApproxExact` | source/reforge/game_core/src/combat.rs:448-455 | for all 32-bit differences: the shifts give floor((246 max + 102 min) / 256) if and only if 246 max + 102 min is below 2^31 |
| `Distance.NothingLostExactly` | source/reforge/game_core/src/combat.rs:448-455 | no intermediate value overflows if and only if two peaks fit; always up to 5,000,000 an axis |
| `Distance.Symmetric` | source/reforge/game_core/src/combat.rs:448-455 | order and signs of the differences do not matter |
| `Distance.Monotone` | source/reforge/game_core/src/combat.rs:448-455 | farther along both axes is never nearer |
| `Distance.WithinBounds` | source/reforge/game_core/src/combat.rs:448-455 | 65536 d^2 <= 70920 (dx^2 + dy^2) and 65536 (d + 1)^2 > 60516 (dx^2 + dy^2) |

## Left out

- PostgreSQL, its connections and the wording of the statements: a transaction is one step, statement texts are parameters, and what a text does is written down for the exchange unit in `ExchangeSql.Meaning` and is a parameter elsewhere.
- Files and sockets: the directory is a map from names to texts, reads are sequences of bytes, and the failures of a call (persist, commit, unlink) are parameters.
- A file torn by a crash inside `persist_batch` (`source/reforge/database/src/wal.rs:517-527`): persisting is one step, as the sync at its end intends. The parser accepts some cut lines.
- The asynchronous runtime: the worker's channel is the sequence of messages with their arrival times, and the sink is how long each batch takes it and what it answers.
- Column values wider than the target column (`Param::to_sql`, `source/reforge/database/src/wal.rs:94-141`): values are not narrowed.
- The quality of the random bits of identifiers and the repair of equal timestamps: names are assumed fresh where a theorem needs it.
- Codec.ParseJsonString: returns the text that is left instead of the number of UTF-8 bytes consumed; strings are sequences of characters.
- Wording of error messages: errors are constructors.
- Exchange.ExchangeReplayExact: requires materials with distinct ids; a unit that names one id twice falls under `ExchangeUnits.UnitsReplayExact`.
- SqlTables.RowByRow: does not model the checks of the values, `item_window_check`, `player_gold_check` and `safebox_gold_check` (`source/deploy/win/schema/schema.sql:1053`, `1505`, `1610`), by which the server rejects a statement and with it the transaction; a database is any rows with the tables' columns.
- SqlTables.FreshReplay: a rejected statement or transaction leaves the sequences where they were, while the server's identity sequences stay moved on, so the replay there may take a later id than the next one.
- The sizes of fixed packets are the ones written in the comments of `source/reforge/bench_bot/src/splitter.rs`; the protocol crate is not part of this model.
- Columns of a player that no modelled statement names are numbered, and `last_play` is left out. The table `player.event` is not in `source/deploy/win/schema/schema.sql`; it has the columns its insert names.
- Reassembly.ReassemblyExact: sequence numbers do not wrap, as the script compares them as plain numbers.
- `melee_max_range`, the cooldown and range gates of `handle_attack` and the damage formulas of `source/reforge/game_core/src/combat.rs`: floating-point factors and single comparisons.
- Loading the attribute tables and the catalogue of apply names (`source/reforge/database/src/attr.rs`): tables are parameters of any length.
- The other repositories of the database crate, the bench bot's sessions, the administration tools, deployment scripts and the schema: input and output, or single statements with nothing across them to prove.
