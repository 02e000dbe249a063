# Fastore in Dafny

A model of the hard parts of Fastore and proofs about them: the LALR driver template that
builds its SQL parser, the single-threaded framed server, the write-ahead log with its index
and recovery, block-wise ID allocation, client transactions and their quorum and retry
logic, and two codecs.  `dafny verify dfyconfig.toml` checks everything.

| files | subject |
|---|---|
| `LemparTables`, `LemparMachine`, `LemparSoundness`, `LemparErrors`, `LemparDriver`, `LemparTermination`, `LemparProgress`, `LemparRanks`, `LemparExample`, `LemparCyclic` | the table-driven parser: tables and their certificate, the step functions, soundness over all runs, which errors are reported, the driver with its mutable stack, when its loop ends and what in the tables makes it end, a grammar that meets the hypotheses and one on which the loop does not end |
| `FramedStream`, `Connection` | length-prefixed framing and one server connection |
| `LogRecords`, `LogText`, `LogFiles`, `LogIndex`, `LogManager`, `LogHistory`, `LogScan`, `LogAnswers`, `TransactionIndex` | record layout and its formatted text, files, the revision index, the write path, whole histories, the index in any scan order and what it answers, the transaction index |
| `ColumnBuffer`, `Worker`, `WorkerSchema`, `Recovery`, `RecoveryTheorem` | column buffers, a worker's repositories, which columns it ends up with, replay, replay against live operation |
| `IdAllocation`, `IdProgress`, `IdOutcomes` | the ID generator as an interleaving of atomic steps, its progress, and how its calls end |
| `ClientTransaction`, `ValueGroups`, `MergeJoin`, `MergeMeaning` | a transaction's log, overlay reads, the range merge |
| `Quorum`, `PrepareQuorum`, `Retry` | deciding writes in both clients, the hive index, retried reads |
| `BufferStream`, `Csv`, `CsvFile` | chunked save and load, the demo's CSV printer and parser |
| `Options`, `Collections` | shared helpers |

## How the model relates to the code

Objects that the code updates in place are classes, its loops are loops, and every such
method is proved against a function of the inputs or of the old state; what the code
promises is then proved of that function.  Threads are modelled as interleavings of atomic
steps.  Row IDs and values are integers in the order of their types.  Foreign calls
(sockets, `realloc`, Thrift serialization, clocks, the work done on a worker) are parameters
over which the statements quantify.

Where the code departs from its own comments the model follows this list.

- `LogManager.cpp` 237-243 and 528 change a copy of an index entry, and 257-261 never store
  a new one.  The index modules model the entry itself; `LogIndex.CopiedIndexFindsNothing`
  states what the code as written does.  `getRange` (453) increments its bound instead of
  its counter; `Recovery.GetRange` increments the counter.
- `LogStream.cpp` writes records as formatted text (340-421) and cuts payloads at a zero byte
  (157).  The model uses the layout of `LogConstants.h` 9-58;
  `LogText.RecordReadsBackIff` and `LogRecords.CutAtZeroKeepsIff` state the failures.  The
  buffer of `readRevision` (147-157) has no terminator, so a payload without a zero byte is
  read on beyond it: `LogRecords.PayloadReadsOn`.
- `LogConstants.h` 71-72 gives 48 and 26 as the sizes of begin and end records; the layout
  has 44 and 36.  The model keeps the constants, so a file may exceed its limit by ten bytes.
- `initalizeLogManager` scans files in directory order, not by LSN: see
  `LogScan.LatestRightIff`.  `LogManager.LogManager.RebuildIndex` and
  `RecoveryTheorem.Recover` take any order.
- `unpark` (`StoreHandler.cpp` 104-106) writes no length prefix: see
  `Connection.UnparkAnswersIff`.
- `Transaction.cpp` 96 stores the row ID as the value, 175, 205 and 225 index by column ID,
  198-216 do not advance on an equal row, 219 inverts the exclude test.  `MergeJoin` models
  the algorithm its comment (148-156) describes.
- The lempar comment says that three shifts separate two reports; with an error symbol the
  test is `yyerrcnt<0`, which makes it four.
- `Scheduler.cpp` 135 indexes the pool of workers, which is keyed by pod
  (`Scheduler.h` 50), by a column ID.  `Recovery` takes the worker of the pod.
- `Database.cpp` 920-944 sends one commit with all writes per pair of worker and column, so a
  worker with several written columns gets the same commit several times.
  `RecoveryTheorem.Recover` delivers each commit once.
- `Database.cpp` 904-908 continues before the retry counter at 910-912 is reached, so the
  apply loop is not bounded by it.  The rounds of that loop are not modelled.
- `ProcessPrepareResults` (`Database.cpp` 1131-1136) walks the pairs of a failed worker until
  the worker changes, without a test for the end, so it runs past the last pair.
  `PrepareQuorum.ProcessPrepareResults` stops there.
- `WorkerHandler::commit` means to create a new column before its first writes (320-323):
  see `Worker.NewColumnWritten`.

These properties turned out false of the code.  For each the table gives the exact condition
under which it holds, and an input for which it fails.

- A Parse call returns: `LemparProgress.StuckIff` for one call, `LemparProgress.NoDivergenceEnds`,
  `LemparRanks.DescendingEnds` and `LemparRanks.FallingEnds` as conditions on the tables and the
  grammar, `LemparCyclic.NeverReturns`, `LemparCyclic.NoRank`.
- Recovery of the whole live state: `RecoveryTheorem.Recover`, `RecoveryTheorem.RecoveredIff`,
  `RecoveryTheorem.NewColumnNotRecovered`, `RecoveryTheorem.UnbootedColumnThrows`.
- Loading a whole column in any scan order: `Recovery.LoadedWholeIff`, `LogHistory.DirectoryOrderMisleads`.
- Read-your-writes, row by row: `ClientTransaction.ReadsOwnWrites`, `ClientTransaction.ShadowedReadDiffers`.
- Read-your-writes over a range: `MergeMeaning.RangeReadsOwnWritesIff`, `MergeMeaning.ShadowedRowTwice`.
- Read-your-writes in the other columns of a local row: `MergeMeaning.LocalRowReads`, `MergeMeaning.LocalRowMisses`.
- The transaction index does not depend on the order of the log: `TransactionIndex.ConfluentIff`, `TransactionIndex.DisagreementShows`.
- Index lookups when revisions have gaps: `LogIndex.LookupRightIff`, `LogIndex.GapMisleads`.
- The latest revision told by the index: `LogScan.LatestRightIff`, `LogHistory.DirectoryOrderMisleads`.
- Formatted records read back: `LogText.RecordReadsBackIff`, `LogText.RecordsPrintAlike`.
- Payloads read back as strings: `LogRecords.CutAtZeroKeepsIff`, `LogRecords.PayloadReadsOn`.
- Writes to a column created by the same commit: `Worker.NewColumnWritten`, `Worker.NewColumnDropped`.
- Buffer doubling beyond 2^31: `FramedStream.DoublingEndsIff`, `FramedStream.DoublingSpins`.
- The CSV file round trip: `CsvFile.FileRoundTripIff`, `CsvFile.ReturnSplitsLine`.
- The C++ port's IDs are unique: `IdAllocation.PortDistinctIff`, `IdAllocation.PortRepeats`.
- The workers behind two highest revisions meet: `PrepareQuorum.HighestBucketsMeetIff`, `PrepareQuorum.HighestBucketsMayBeDisjoint`.
- Trying every pod under interference: `Retry.ExhaustiveIff`, `Retry.InterferenceGivesUpEarly`.

## Model

| member | source | states |
|---|---|---|
| `LemparTables.ShiftActionSound` | External/SQLite/lempar.c:391-446 | for every grammar and tables consistent with it, a shift lookup answers a transition on a symbol the token plays (itself, by fallback, by wildcard), a reduce the state supports, or the error action |
| `LemparTables.ShiftActionExact` | External/SQLite/lempar.c:391-446 | along the chain token, fallback, fallback of that and so on, the answer is the action of the first symbol the state lists; if it lists none, that of the wildcard, unless the chain ends in the end of input; and the default exactly if nothing answers |
| `LemparMachine.FastPathRefines` | External/SQLite/lempar.c:611-631 | in a bounded state the inlined push of a reduce leaves the same stack, index and peak as yy_shift, whatever the allocator does |
| `LemparMachine.PopToError` | External/SQLite/lempar.c:806-815 | error recovery pops a suffix of the stack only, and stops where the error symbol can be shifted |
| `LemparSoundness.TreeDerives` | External/SQLite/lempar.c:563-636 | a tree built by shifts and reduces is a derivation of its yield |
| `LemparSoundness.SpellsConcat` | External/SQLite/lempar.c:563-636 | derivations of two words make a derivation of their concatenation |
| `LemparSoundness.StackOkPush` | External/SQLite/lempar.c:504-545 | a push along a certified transition keeps what every state knows about the stack below it |
| `LemparSoundness.PushKeeps` | External/SQLite/lempar.c:504-545 | yy_shift, landing or overflowing, keeps the stack invariant and extends the yield by the pushed tree |
| `LemparSoundness.ReduceNode` | External/SQLite/lempar.c:563-636 | a certified reduce never pops entry 0, its node is valid, and the yield of the stack is unchanged |
| `LemparSoundness.ReduceKeeps` | External/SQLite/lempar.c:563-636 | a reduce keeps the invariant, acceptance included |
| `LemparSoundness.RecoverKeeps` | External/SQLite/lempar.c:797-826 | recovery by the error symbol keeps the invariant |
| `LemparSoundness.ErrorKeeps` | External/SQLite/lempar.c:763-859 | every error mode keeps the invariant |
| `LemparSoundness.DiscardLeavesStack` | External/SQLite/lempar.c:797-859 | whenever a token is discarded, the error symbol on top included, the iteration ends the call and leaves stack and yield alone, except that the end of input fails a parse without error symbol |
| `LemparTheorems.IterateAllowed` | External/SQLite/lempar.c:755-763 | no iteration reads outside the stack or the tables |
| `LemparTheorems.IterateKeeps` | External/SQLite/lempar.c:755-861 | every iteration of Parse keeps the invariant |
| `LemparTheorems.RunSafe` | External/SQLite/lempar.c:711-862 | over every sequence of Parse calls and iterations no access leaves the stack or tables, and the invariant holds throughout |
| `LemparTheorems.AcceptanceSound` | External/SQLite/lempar.c:711-862 | when a run accepts, the accepted tree derives exactly the tokens kept in this parse from the start symbol, up to fallback and wildcard |
| `LemparTheorems.PlainAcceptance` | External/SQLite/lempar.c:711-862 | without an error symbol those are all tokens shifted since the parse began |
| `LemparTheorems.ReportsSpaced` | External/SQLite/lempar.c:755-859 | two syntax-error reports of one parse have at least three shifts between them, four with an error symbol |
| `LemparErrors.ReportedIff` | External/SQLite/lempar.c:763-859 | in every run a syntax error is reported exactly if it is the first of its parse or at least three shifts, four with an error symbol, have followed the last error, reported or not; without recovery every error is |
| `LemparErrors.PopsNoFurther` | External/SQLite/lempar.c:806-815 | recovery pops no entry that could have shifted the error symbol |
| `LemparErrors.IterateEnds` | External/SQLite/lempar.c:755-861 | an iteration empties the stack exactly if it tells, last, of acceptance, failure or overflow |
| `LemparTheorems.FastPathInEveryRun` | External/SQLite/lempar.c:611-631 | the inlined push equals yy_shift in every reachable state |
| `LemparDriver.Parser.constructor` | External/SQLite/lempar.c:272-290 | a new parser is the machine's initial state |
| `LemparDriver.Parser.GrowStack` | External/SQLite/lempar.c:243-260 | a successful growth gives 2n + 100 entries and keeps the contents |
| `LemparDriver.Parser.Clear` | External/SQLite/lempar.c:486-499 | emptying the stack (overflow, accept, failure) and the one hook call |
| `LemparDriver.Parser.Shift` | External/SQLite/lempar.c:504-545 | equals the step function Push on the abstract state |
| `LemparDriver.Parser.ReduceBy` | External/SQLite/lempar.c:563-636 | with the inlined push, equals Reduce, which always calls yy_shift |
| `LemparDriver.Parser.PopStack` | External/SQLite/lempar.c:326-344 | one entry popped; entry 0 leaves no trace |
| `LemparDriver.Parser.RecoverFromError` | External/SQLite/lempar.c:806-826 | equals Recover |
| `LemparDriver.Parser.OnError` | External/SQLite/lempar.c:763-859 | equals HandleError in all three error modes |
| `LemparDriver.Parser.Once` | External/SQLite/lempar.c:755-861 | one iteration equals Iterate |
| `LemparDriver.Parser.Begin` | External/SQLite/lempar.c:727-742 | the (re)initialisation equals Enter |
| `LemparDriver.Parser.Parse` | External/SQLite/lempar.c:711-862 | a call of Parse extends the run so far by feeding its token and iterating |
| `LemparDriver.RunReady` | External/SQLite/lempar.c:711-862 | every reachable machine can take its next step |
| `LemparTermination.IterateAlike` | External/SQLite/lempar.c:755-861 | what an iteration does depends only on the states on the stack, on whether the error symbol is on top, and on yyerrorhit |
| `LemparTermination.Lockstep` | External/SQLite/lempar.c:755-861 | two iterations of one call that start from equal control continue in lockstep |
| `LemparTermination.NoCycleEnds` | External/SQLite/lempar.c:755-861 | without a repeated control, and with the stack below a height, the loop ends within as many iterations as there are controls |
| `LemparTermination.LoopEndsIff` | External/SQLite/lempar.c:755-861 | as long as the allocator delivers, a call returns if and only if in its own course no control repeats and the stack stays below some height |
| `LemparTermination.FixedDepthEndsIff` | External/SQLite/lempar.c:755-861 | with a fixed stack depth, if and only if no control repeats; whether it does shows within as many iterations as there are controls |
| `LemparTermination.CycleReduces` | External/SQLite/lempar.c:755-861 | between two iterations of equal control there are only reductions: no token is shifted and no error handled |
| `LemparProgress.DivergesAtTop` | External/SQLite/lempar.c:755-861 | reductions that go on for ever reach a stack whose top two states, on their own, go on for ever |
| `LemparProgress.TwoStatesSuffice` | External/SQLite/lempar.c:755-861 | on any token, reductions end from every stack exactly if they end from every stack of at most two states |
| `LemparProgress.NoDivergenceEnds` | External/SQLite/lempar.c:755-861 | if no stack of at most two states goes on for ever on the token, the call returns, whatever the stack and the allocator |
| `LemparProgress.StuckIff` | External/SQLite/lempar.c:755-861 | as long as the allocator delivers, a call does not return exactly if at some point its top two states would go on for ever in the room that is left |
| `LemparRanks.DescendingEnds` | External/SQLite/lempar.c:755-861 | a rank on the states such that every reduction on the token pays (rank of the top and a weight per entry together go down, empty rules included) makes every call with the token return, whatever the allocator does |
| `LemparRanks.ParseToEnd` | External/SQLite/lempar.c:711-862 | on such tables Parse with its loop as written returns, having extended the run by its token and its iterations |
| `LemparRanks.FallingDescends` | External/SQLite/lempar.c:755-861 | for a grammar without empty rules, a rank that falls along every one-symbol rule gives such a rank for every token |
| `LemparRanks.FallingEnds` | External/SQLite/lempar.c:755-861 | for such a grammar every call on every consistent table set returns |
| `LemparCyclic.NeverReturns` | External/SQLite/lempar.c:755-861 | tables consistent with T ::= A, T ::= T, S ::= T on which the second call repeats its control and never returns |
| `LemparCyclic.NoRank` | External/SQLite/lempar.c:755-861 | on those tables the two top states go on for ever, and there is no rank, neither on states nor on symbols |
| `LemparExample.OneRuleConsistent` | External/SQLite/lempar.c:104-131 | tables in the template's layout for the grammar S ::= A meet the hypothesis of the theorems |
| `LemparExample.OneRuleAccepts` | External/SQLite/lempar.c:711-862 | on those tables A and the end of input are shifted, reduced and accepted |
| `FramedStream.FramesOfFrameAll` | Source/FastoreCore/TFastoreServer.cpp:128-181 | decoding framed messages followed by more bytes gives the messages and then the frames of the rest |
| `FramedStream.FramesMonotone` | Source/FastoreCore/TFastoreServer.cpp:128-181 | more bytes never take back a frame |
| `FramedStream.NetworkOrder` | Source/FastoreCore/TFastoreServer.cpp:128-181 | the length goes out most significant byte first |
| `FramedStream.DoublingEndsIff` | Source/FastoreCore/TFastoreServer.cpp:382-393 | the 32-bit doubling loop ends exactly if the wanted size is at most 2^31 |
| `FramedStream.DoublingSpins` | Source/FastoreCore/TFastoreServer.cpp:382-393 | from 2^31 on the size becomes zero and stays zero |
| `Connection.DoubleTo` | Source/FastoreCore/TFastoreServer.cpp:382-393 | the loop ends without wrap at the smallest sufficient doubling |
| `Connection.TConnection.Init` | Source/FastoreCore/TFastoreServer.cpp:70-116 | a pooled connection restarts with an empty history and keeps its buffer |
| `Connection.TConnection.CheckIdleBufferMemLimit` | Source/FastoreCore/TFastoreServer.cpp:439-454 | each buffer is dropped as a whole exactly if it exceeds its limit |
| `Connection.TConnection.AfterSend` | Source/FastoreCore/TFastoreServer.cpp:348-377 | housekeeping between answer and next frame loses no byte, and looks at the buffers exactly after every n-th answer |
| `Connection.TConnection.AfterFrameSize` | Source/FastoreCore/TFastoreServer.cpp:379-412 | the buffer has room for the announced frame; it is replaced exactly if it is too small, by the smallest sufficient doubling |
| `Connection.TConnection.Answer` | Source/FastoreCore/TFastoreServer.cpp:317-346 | the output buffer becomes the framed answer to the one outstanding request, or nothing for a one-way call |
| `Connection.TConnection.AfterRequest` | Source/FastoreCore/TFastoreServer.cpp:276-346 | the complete frame is handed over once; answer, parking and failure |
| `Connection.TConnection.WorkFraming` | Source/FastoreCore/TFastoreServer.cpp:128-181 | partial length bytes are kept across reads; the connection stays open exactly if the length is acceptable |
| `Connection.TConnection.WorkRecv` | Source/FastoreCore/TFastoreServer.cpp:183-219 | bytes arrive in order; a reply comes only with a completed request; a zero-length frame trips the assertion |
| `Connection.TConnection.WorkSend` | Source/FastoreCore/TFastoreServer.cpp:221-255 | partial writes send the next bytes of the answer; the connection closes exactly if a write is tried and throws |
| `Connection.TConnection.AfterWrite` | Source/FastoreCore/TFastoreServer.cpp:244-252 | the sent bytes are the next ones of the write buffer, and nothing is lost when it is through |
| `Connection.TConnection.Close` | Source/FastoreCore/TFastoreServer.cpp:423-437 | closing keeps what was received, handed over and sent |
| `Connection.TConnection.Unpark` | Source/FastoreCore/StoreHandler.cpp:97-108 | the posted data become the parked request's answer |
| `Connection.TConnection.RequestsAreFrames` | Source/FastoreCore/TFastoreServer.cpp:118-261 | in every state, open or closed, the requests handed over are exactly the complete frames received, and never more is sent than was answered |
| `Connection.ChunkingIndependence` | Source/FastoreCore/TFastoreServer.cpp:118-261 | equal received bytes give equal requests, however they were split and however the connections ended |
| `Connection.UnparkLosesPrefix` | Source/FastoreCore/StoreHandler.cpp:104-106 | what a client reads of unprefixed data: nothing of four bytes or fewer, and longer data without their first four bytes |
| `Connection.UnparkAnswersIff` | Source/FastoreCore/StoreHandler.cpp:104-106 | a payload is answered exactly if four bytes stand in front of it |
| `Connection.Deliver` | Source/FastoreCore/TFastoreServer.cpp:118-261 | one event adds its bytes and its answer to the history, unless it trips the zero-length assertion, which happens exactly on a read while a frame of length zero is wanted |
| `Connection.Serve` | Source/FastoreCore/TFastoreServer.cpp:118-412 | over every run, closed or open at its end: requests are the frames of the byte stream in order, answers those of the completing events in order, sent bytes the framed answers up to the write buffer, or a prefix of them once closed |
| `LogRecords.RecordRoundTrip` | Source/FastoreCore/LogConstants.h:22-58 | every storable record reads back as itself, whatever follows |
| `LogRecords.RecordLayout` | Source/FastoreCore/LogConstants.h:20-58 | every field of every record lies at its documented offset, followed by the data and sixteen bytes |
| `LogRecords.PairLayout` | Source/FastoreCore/LogConstants.h:21-28 | pair k of a begin record: column, then revision |
| `LogRecords.ScanOfEncoded` | Source/FastoreCore/LogManager.cpp:158-198 | scanning encoded records and zero fill finds exactly those records at their offsets |
| `LogRecords.CutAtZeroKeepsIff` | Source/FastoreCore/LogStream.cpp:144-157 | for any memory behind the buffer, a payload comes back as written exactly if it holds no zero byte and one follows the buffer |
| `LogRecords.PayloadReadsOn` | Source/FastoreCore/LogStream.cpp:144-157 | a payload without zero bytes that grows by what lies behind it |
| `LogText.TypeReadsBackIff` | Source/FastoreCore/LogStream.cpp:53-64 | for every record and whatever follows, the type reads back exactly if the next field is negative |
| `LogText.RecordReadsBackIff` | Source/FastoreCore/LogStream.cpp:53-205 | for every storable record and whatever follows, all its integers read back exactly if every field is negative and no digit follows |
| `LogText.CountedNeverReadsBack` | Source/FastoreCore/LogStream.cpp:66-157 | so no begin and no revision record ever reads back |
| `LogText.RecordsPrintAlike` | Source/FastoreCore/LogStream.cpp:395-406 | two records of different columns and revisions print alike |
| `LogFiles.AppendToLast` | Source/FastoreCore/LogManager.cpp:507-520 | appending bytes to the last file appends one record to the log at the file's size |
| `LogFiles.StartFile` | Source/FastoreCore/LogManager.cpp:580-611 | a new file changes no record's place |
| `LogFiles.ReadBack` | Source/FastoreCore/LogManager.cpp:461-465 | every record reads back from its file and offset, in whatever order the files are listed |
| `LogFiles.FlatInOrder` | Source/FastoreCore/LogManager.cpp:614-629 | LSNs ascend along the log |
| `LogFiles.ScanFile` | Source/FastoreCore/LogManager.cpp:158-198 | scanning a zero-filled file from disk finds its records |
| `LogIndex.FindLsn` | Source/FastoreCore/LogManager.cpp:200-212 | the first entry of a file, or none |
| `LogIndex.WriteKeepsIndex` | Source/FastoreCore/LogManager.cpp:507-542 | the incrementally kept index equals the rebuilt one after each write |
| `LogIndex.IndexMeaning` | Source/FastoreCore/LogManager.cpp:233-262 | one entry per file that mentions the column, listing all its offsets and starting at its first revision |
| `LogIndex.LookupFindsRecords` | Source/FastoreCore/LogManager.cpp:214-231 | with consecutive revisions per file every lookup gives the record's place, or none if there is no record |
| `LogIndex.RightLookupsAreConsecutive` | Source/FastoreCore/LogManager.cpp:214-231 | if every lookup is right, revisions run consecutively in each file |
| `LogIndex.LookupRightIff` | Source/FastoreCore/LogManager.cpp:214-231 | both directions together |
| `LogIndex.GapMisleads` | Source/FastoreCore/LogManager.cpp:214-231 | revisions 1 and 3 in one file: 2 is answered with 3's place and 3 is not found |
| `LogIndex.CopiedIndexMeaning` | Source/FastoreCore/LogManager.cpp:233-262 | as written, every column looked up is there without entries |
| `LogIndex.CopiedIndexFindsNothing` | Source/FastoreCore/LogManager.cpp:233-262 | as written, where copies are changed, no lookup finds anything |
| `LogManager.LogManager.CreateLogFile` | Source/FastoreCore/LogManager.cpp:580-629 | a new last file, empty but for its header, with the next LSN; log and index unchanged |
| `LogManager.LogManager.PrepLog` | Source/FastoreCore/LogManager.cpp:555-565 | room for the record, or an empty file; a file is started exactly if the record does not fit the one being written |
| `LogManager.LogManager.Write` | Source/FastoreCore/LogManager.cpp:555-565 | one record appended at the size of the last file; a file exceeds the limit by more than ten bytes only if one record fills it |
| `LogManager.LogManager.WriteBracket` | Source/FastoreCore/LogManager.cpp:487-505 | begin and end records leave the revision index alone |
| `LogManager.LogManager.WriteRevision` | Source/FastoreCore/LogManager.cpp:507-542 | the record is appended and the index still equals the rebuilt one |
| `LogManager.LogManager.InternalCommit` | Source/FastoreCore/LogManager.cpp:369-384 | a commit appends its begin, one record per write with the revision listed for its column, up to the first column not listed, and its end exactly if there is none; it throws exactly if there is one |
| `LogManager.FindRevisionIff` | Source/FastoreCore/LogManager.cpp:373-381 | the revision found for a column is the one the request lists with it |
| `LogManager.SegmentLeaves` | Source/FastoreCore/LogManager.cpp:369-384 | what one commit leaves in the log, told by membership in the request |
| `LogManager.OffsetByRevision` | Source/FastoreCore/LogManager.cpp:214-231 | the loop equals the lookup; -1 when absent |
| `LogManager.LogManager.RebuildIndex` | Source/FastoreCore/LogManager.cpp:99-144 | scanning the files in any directory order gives the index of the log so arranged; in LSN order exactly the index that writing maintained, across rotations |
| `LogManager.IndexRecords` | Source/FastoreCore/LogManager.cpp:158-198 | indexing found records extends the index by them |
| `LogManager.ScanAll` | Source/FastoreCore/LogManager.cpp:99-144 | the loop over the listed files indexes all their records |
| `LogHistory.CommitAll` | Source/FastoreCore/LogManager.cpp:369-384 | any sequence of commits, thrown ones included, gives the log of their segments across rotations |
| `LogHistory.LogBracketed` | Source/FastoreCore/LogManager.cpp:369-384 | in every prefix of every log an end record closes one whole commit: its begin, one revision per written column, nothing of another |
| `LogHistory.UnfinishedHasNoEnd` | Source/FastoreCore/LogManager.cpp:369-384 | a commit that throws leaves no end record |
| `LogHistory.DirectoryOrderMisleads` | Source/FastoreCore/LogManager.cpp:99-122 | files scanned 1 before 0: the latest revision comes out too low |
| `LogScan.ScanIndex` | Source/FastoreCore/LogManager.cpp:99-198 | in any scan order the index has one entry per file that mentions the column, in that order, with its offsets and first revision |
| `LogScan.IndexEnds` | Source/FastoreCore/LogManager.cpp:398-407 | the bounds told by the index are the first revision of the first and the last of the last scanned file that mention the column |
| `LogScan.LatestRightIff` | Source/FastoreCore/LogManager.cpp:639-648 | in any scan order the latest revision told is the newest logged exactly if the last scanned file that mentions the column holds it |
| `LogScan.NumberedEnds` | Source/FastoreCore/LogManager.cpp:639-648 | in LSN order a numbered column runs from 1 to the number of revisions logged |
| `LogAnswers.AnswerReads` | Source/FastoreCore/LogManager.cpp:444-485 | in any scan order the place the index gives lies in a file, and the bytes there are a record of the column |
| `LogAnswers.AnswerRight` | Source/FastoreCore/LogManager.cpp:214-231 | with consecutive revisions in each file the answer is the record of the wanted revision, or none if there is none |
| `LogAnswers.AnswerNumbered` | Source/FastoreCore/LogManager.cpp:444-485 | in any scan order of a numbered log, revision k is answered with the k-th record of the column and nothing outside 1..n |
| `TransactionIndex.IndexTransactions` | Source/FastoreCore/LogManager.cpp:158-198 | the scan loop builds the transaction index |
| `TransactionIndex.IndexDescribes` | Source/FastoreCore/LogManager.cpp:271-329 | for every log and transaction: listed exactly if some record reports it, with the highest state reported and the revisions of its first begin record that has any |
| `TransactionIndex.StateConfluent` | Source/FastoreCore/LogManager.cpp:290-329 | the same records in any order and with any repetition list the same transactions in the same states |
| `TransactionIndex.EntryConfluent` | Source/FastoreCore/LogManager.cpp:271-329 | if a transaction's begin records agree, its whole entry is the same too |
| `TransactionIndex.ConfluentIff` | Source/FastoreCore/LogManager.cpp:271-329 | every order of a log gives a transaction the same entry if and only if its begin records that have revisions agree |
| `TransactionIndex.IndexConfluent` | Source/FastoreCore/LogManager.cpp:271-329 | if they agree for every transaction, the whole index is the same in any order |
| `TransactionIndex.DisagreementShows` | Source/FastoreCore/LogManager.cpp:271-288 | two begin records with different, non-empty revisions, in both orders |
| `ColumnBuffer.ApplyMeaning` | Source/FastoreCommon/Buffer/TreeBuffer.cpp:81-99 | per row: a present, not excluded value stays; otherwise the first include wins |
| `ColumnBuffer.TreeBuffer.IncludeRow` | Source/FastoreCommon/Buffer/TreeBuffer.cpp:101-142 | row and value index stay mirrors, statistics stay sizes; a present row is not touched |
| `ColumnBuffer.TreeBuffer.ExcludeRow` | Source/FastoreCommon/Buffer/TreeBuffer.cpp:144-179 | the row leaves both indexes, empty values disappear |
| `ColumnBuffer.TreeBuffer.ApplyWrites` | Source/FastoreCommon/Buffer/TreeBuffer.cpp:81-99 | all excludes, then all includes, on the contents |
| `Worker.Sync` | Source/FastoreCore/WorkerHandler.cpp:80-147 | system columns stay as they are; new columns are empty at revision 0 |
| `Worker.SchemaIdsMeaning` | Source/FastoreCore/WorkerHandler.cpp:80-147 | a column is assigned to the pod exactly if some row names the pod in column 400 and the column in column 401 |
| `Worker.SyncMeaning` | Source/FastoreCore/WorkerHandler.cpp:80-147 | with rows for the pod a sync leaves exactly the system columns there were and the assigned columns, without any everything |
| `Worker.WorkerHandler.SyncToSchema` | Source/FastoreCore/WorkerHandler.cpp:80-147 | the drop and create loops equal Sync |
| `Worker.WorkerHandler.Commit` | Source/FastoreCore/WorkerHandler.cpp:308-340 | the loop over the writes with its schema syncs equals CommitFrom |
| `Worker.WorkerHandler.LoadWrite` | Source/FastoreCore/WorkerHandler.cpp:439-451 | the next revision on an existing repository, else the exception |
| `Worker.WorkerHandler.LoadEnd` | Source/FastoreCore/WorkerHandler.cpp:453-465 | sets the revision, else the exception |
| `Worker.SurvivorCommitted` | Source/FastoreCore/WorkerHandler.cpp:308-340 | a column that is there before and after a commit gets exactly its writes and one revision, whatever the schema does |
| `Worker.SystemColumnStays` | Source/FastoreCore/WorkerHandler.cpp:80-147 | a system column survives every commit |
| `Worker.QuietCommit` | Source/FastoreCore/WorkerHandler.cpp:308-340 | without schema changes every existing column is written and no other appears |
| `Worker.NewColumnWritten` | Source/FastoreCore/WorkerHandler.cpp:318-335 | writes to a column created by the same commit arrive exactly if an existing column with an ID in between is written too |
| `Worker.NewColumnDropped` | Source/FastoreCore/WorkerHandler.cpp:318-340 | a commit that assigns column 10000 to the pod and writes to it leaves the column empty |
| `Worker.LiveColumn` | Source/FastoreCore/WorkerHandler.cpp:308-340 | over every run of commits a column that survives, system or user, holds its whole history, one revision per write |
| `Worker.SystemColumnSurvives` | Source/FastoreCore/WorkerHandler.cpp:80-147 | system columns survive every run |
| `WorkerSchema.CommitKeys` | Source/FastoreCore/WorkerHandler.cpp:308-340 | the columns after a commit: those before, or those the schema tables as this commit leaves them assign to the pod, synced once |
| `WorkerSchema.SystemKeys` | Source/FastoreCore/WorkerHandler.cpp:80-147 | after any run a system column is there exactly if it was at the start or an effective sync assigned it |
| `WorkerSchema.UserKeys` | Source/FastoreCore/WorkerHandler.cpp:80-147 | after any run a new user column is there exactly if the last effective sync assigned it |
| `WorkerSchema.SameColumnsIff` | Source/FastoreCore/WorkerHandler.cpp:80-147 | a worker started with system columns ends with the same columns exactly if the commits assign no new column to its pod |
| `Recovery.GetWrites` | Source/FastoreCore/LogManager.cpp:386-485 | exactly the answers to the wanted revisions clamped to the bounds told; nothing for an unknown column or when one is missing |
| `Recovery.GetRange` | Source/FastoreCore/LogManager.cpp:444-485 | from index over file and offset to the bytes, one revision after the other; all or nothing |
| `Recovery.LoadColumn` | Source/FastoreCore/Scheduler.cpp:129-165 | the column gets the probes of all revisions from 0 to the latest, and its number; the exception exactly if the repository is missing |
| `Recovery.PopulateWorkers` | Source/FastoreCore/Scheduler.cpp:125-171 | for any log and scan order: completes exactly if every logged column has a repository, and then gives the replayed state, whatever the order of columns |
| `Recovery.LoadedNumbered` | Source/FastoreCore/Scheduler.cpp:129-165 | in any scan order of a numbered log a column is loaded with its revisions from the first of the first to the last of the last file scanned that mention it |
| `Recovery.LoadedWholeIff` | Source/FastoreCore/Scheduler.cpp:129-165 | in any scan order a column is loaded with its whole history exactly if the first scanned file that mentions it starts at revision 1 and the last ends with the newest |
| `Recovery.LoadedInOrder` | Source/FastoreCore/Scheduler.cpp:129-165 | scanned in LSN order it is loaded whole |
| `RecoveryTheorem.LogTellsHistory` | Source/FastoreCore/LogManager.cpp:369-384 | the log's records of a column are its writes in order, numbered from 1, reading back as written |
| `RecoveryTheorem.ReplayedEqualsLive` | Source/FastoreCore/Scheduler.cpp:125-171 | every column of a fresh worker that the live worker keeps throughout, user columns included, ends with the contents and revision it has there |
| `RecoveryTheorem.RecoveredIff` | Source/FastoreCore/Scheduler.cpp:125-171 | replay delivers the live worker exactly if the transactions write only columns it was started with (else it throws) and assign no new column to its pod |
| `RecoveryTheorem.NewColumnNotRecovered` | Source/FastoreCore/Scheduler.cpp:125-171 | after the commit that creates and writes column 10000 the replay throws, and the worker it was filling differs from the live one |
| `RecoveryTheorem.UnbootedColumnThrows` | Source/FastoreCore/Scheduler.cpp:125-171 | a write to a column the worker does not have makes the replay throw although no column is assigned |
| `RecoveryTheorem.CommitLive` | Source/FastoreCore/WorkerHandler.cpp:308-340 | committing a sequence to a worker gives its live state |
| `RecoveryTheorem.Recover` | Source/FastoreCore/Scheduler.cpp:125-171 | log, live worker and restart end to end, the index rebuilt from the files as the directory lists them: replay completes exactly if only booted columns were written; each then holds the revisions between the ends of the scan; listed by LSN, all surviving columns agree with the live worker; a worker started with system columns is recovered whole exactly if replay completes and no new column was assigned |
| `RecoveryTheorem.UnfinishedIsReplayed` | Source/FastoreCore/Scheduler.cpp:140-160 | replay ignores brackets: what a thrown commit had logged is replayed |
| `IdAllocation.StepKeeps` | Source/Fastore.Client/IDGenerator.cs:60-204 | every atomic step of Generate, the loader and ResetCache keeps the invariant |
| `IdAllocation.RunKeeps` | Source/Fastore.Client/IDGenerator.cs:60-204 | invariant and history hold after every interleaving |
| `IdAllocation.IdsUnique` | Source/Fastore.Client/IDGenerator.cs:114-175 | no ID is returned twice, each lies in a granted block, granted blocks are disjoint |
| `IdAllocation.WasteBounded` | Source/Fastore.Client/IDGenerator.cs:87-111 | a replaced block wastes at most max(0, threshold - 1) IDs |
| `IdAllocation.Exclusion` | Source/Fastore.Client/IDGenerator.cs:87-175 | one latch holder, at most one load |
| `IdAllocation.EventTracksLoad` | Source/Fastore.Client/IDGenerator.cs:87-175 | the event is unsignalled exactly while a load is being started or outstanding |
| `IdAllocation.NoDeadlock` | Source/Fastore.Client/IDGenerator.cs:114-204 | while a call is unfinished, some call can move |
| `IdProgress.EveryCallCanFinish` | Source/Fastore.Client/IDGenerator.cs:60-204 | after any interleaving every call has a continuation, by steps of calls under way, in which it finishes |
| `IdOutcomes.ThrowsOnlyAfterFailure` | Source/Fastore.Client/IDGenerator.cs:158-160 | in every run a call throws only if the callback of some load has failed |
| `IdOutcomes.UntroubledCallReturns` | Source/Fastore.Client/IDGenerator.cs:114-175 | after any run a Generate call that no failed load troubles has a continuation in which it returns an ID, the newest |
| `IdOutcomes.CondemnedCallThrows` | Source/Fastore.Client/IDGenerator.cs:146-163 | after any run a call that waits for a failed load has a continuation in which it throws |
| `IdOutcomes.ResetEmpties` | Source/Fastore.Client/IDGenerator.cs:178-204 | when ResetCache releases the latch for good the window is empty |
| `IdOutcomes.LoadsInTime` | Source/Fastore.Client/IDGenerator.cs:127-140 | a call that leaves fewer IDs than the threshold behind leaves a load outstanding |
| `IdAllocation.GrantKeeps` | Source/Fastore.Client/Generator.cs:56-78 | a grant at or above the stored value keeps the invariant |
| `IdAllocation.PortRepeats` | Source/FastoreClient/IDGenerator.cpp:42-57 | the C++ port hands out the first ID of a block twice, for every block size |
| `IdAllocation.PortDistinctIff` | Source/FastoreClient/IDGenerator.cpp:36-59 | from an exhausted block of n the IDs handed out differ exactly for at most n + 1 calls |
| `ClientTransaction.Transaction.IncludeRow` | Source/FastoreClient/Transaction.cpp:275-295 | the columns up to the first unknown one are logged; a row's first include stays |
| `ClientTransaction.Transaction.ExcludeRow` | Source/FastoreClient/Transaction.cpp:314-321 | the same for excludes |
| `ClientTransaction.Transaction.BuildLogMap` | Source/FastoreClient/Transaction.cpp:116-130 | one optional log entry per selected column |
| `ClientTransaction.OverrideRow` | Source/FastoreClient/Transaction.cpp:132-146 | each value but the range column's is overlaid |
| `ClientTransaction.Transaction.GetValues` | Source/FastoreClient/Transaction.cpp:247-273 | every remote row overlaid in every logged column |
| `ClientTransaction.GatherWrites` | Source/FastoreClient/Transaction.cpp:38-79 | the included cells and excluded rows of exactly the non-empty columns |
| `ClientTransaction.LogMeaning` | Source/FastoreClient/Transaction.cpp:275-321 | after any operations: a row's first included value, and whether it was ever excluded |
| `ClientTransaction.ReadsOwnWritesIff` | Source/FastoreClient/Transaction.cpp:132-146 | reading inside equals reading after the writes are applied, exactly unless a remaining remote row is included with another value |
| `ClientTransaction.ReadsOwnWrites` | Source/FastoreClient/Transaction.cpp:38-79 | the same for every sequence of operations, in terms of the operations |
| `ClientTransaction.ShadowedReadDiffers` | Source/FastoreClient/Transaction.cpp:132-146 | a remote row included again reads 5 inside and 7 afterwards |
| `ClientTransaction.ExcludeAfterIncludeLost` | Source/FastoreClient/Transaction.cpp:38-79 | an exclude after an include of the same row has no effect |
| `MergeJoin.AddRow` | Source/FastoreClient/Transaction.cpp:87-114 | the next local row, and the cursor moved by exactly it |
| `MergeJoin.AddLocal` | Source/FastoreClient/Transaction.cpp:196-216 | all local rows before the remote row, no other |
| `MergeJoin.MergeRows` | Source/FastoreClient/Transaction.cpp:189-242 | the loops end and equal Merge |
| `MergeJoin.GetRange` | Source/FastoreClient/Transaction.cpp:157-245 | the merged data, and the flags of both answers combined |
| `MergeMeaning.MergeMembers` | Source/FastoreClient/Transaction.cpp:148-245 | the result holds exactly the not excluded remote rows, overlaid, and the local rows |
| `MergeMeaning.MergeSorted` | Source/FastoreClient/Transaction.cpp:148-245 | for sorted, disjoint inputs the result is strictly sorted by value and row ID |
| `MergeMeaning.MergeConserves` | Source/FastoreClient/Transaction.cpp:148-245 | each row ID occurs as often as among kept remote and local rows together |
| `MergeMeaning.MergedValues` | Source/FastoreClient/Transaction.cpp:148-245 | for any range of values, the values a row has in the merged range: the remote one unless excluded, and the included one, as far as they lie in the range |
| `MergeMeaning.RangeReadsOwnWritesIff` | Source/FastoreClient/Transaction.cpp:148-245 | for any range of values, a read shows a row of the range column as it will be after the commit, exactly unless a remaining remote row is included with another value that lies in the range |
| `MergeMeaning.ShadowedRowTwice` | Source/FastoreClient/Transaction.cpp:148-245 | such a row shows twice |
| `MergeMeaning.RemoteRowReads` | Source/FastoreClient/Transaction.cpp:221-229 | a kept remote row shows each other column as after the commit, exactly unless the row is included there with another value while it remains |
| `MergeMeaning.LocalRowReads` | Source/FastoreClient/Transaction.cpp:92-103 | a local row shows each other column as after the commit, exactly unless the row remains there remotely and the log does not include it with the same value |
| `MergeMeaning.LocalRowMisses` | Source/FastoreClient/Transaction.cpp:92-103 | a local row whose other column has only a remote value shows nothing there |
| `Quorum.ProcessWriteResults` | Source/Fastore.Client/Database.cs:748-785 | workers grouped by the transaction ID they returned, in order |
| `Quorum.FinalizeTransaction` | Source/Fastore.Client/Database.cs:787-814 | success exactly if more than half returned the highest ID; then exactly the workers that replied are told to commit it, otherwise exactly they are told to roll back the ID they returned |
| `Quorum.SuccessesShare` | Source/Fastore.Client/Database.cs:787-814 | two successes over the same workers share a worker that voted for both |
| `PrepareQuorum.MergeColumns` | Source/FastoreClient/Database.cpp:497-524 | the merge of sorted column lists is their intersection |
| `PrepareQuorum.ProcessPrepareResults` | Source/FastoreClient/Database.cpp:1099-1150 | the loops collect results per column |
| `PrepareQuorum.CollectedMeaning` | Source/FastoreClient/Database.cpp:1099-1150 | a column lists exactly the workers that failed on it and, under each revision, exactly those that reported it, and requires validation exactly if some reply asks for it |
| `PrepareQuorum.CanFinalizeTransaction` | Source/FastoreClient/Database.cpp:1152-1178 | in whatever map order: accepted exactly if every column is acceptable, with the revision after each column's highest |
| `PrepareQuorum.AllowsIff` | Source/FastoreClient/Database.cpp:1152-1178 | the tests on what was collected, told by the replies: no validation asked for, fewer than half failed unless one alone was counted, and at least half reported the highest revision |
| `PrepareQuorum.DecideRound` | Source/FastoreClient/Database.cpp:881-908 | collecting and deciding together: refused if any reply asks for validation; otherwise accepted exactly if the counted replies and failures of every column concerned allow it, each column getting the revision after the highest reported |
| `PrepareQuorum.AcceptedByMajority` | Source/FastoreClient/Database.cpp:1152-1178 | acceptance means a strict majority of the counted workers replied and the chosen revision exceeds every reported one |
| `PrepareQuorum.SumIsReplies` | Source/FastoreClient/Database.cpp:1159-1164 | the counted total is failures plus replies, none lost or doubled |
| `PrepareQuorum.AcceptancesShare` | Source/FastoreClient/Database.cpp:1152-1178 | two acceptances over the same counted workers share one that replied |
| `PrepareQuorum.HighestBucketsMayBeDisjoint` | Source/FastoreClient/Database.cpp:1168-1171 | but the workers behind the two highest revisions may be disjoint |
| `PrepareQuorum.HighestBucketsMeetIff` | Source/FastoreClient/Database.cpp:1152-1178 | over the same counted workers the two must share one exactly if their numbers add up to more than the counted workers |
| `Retry.UpdateHiveState` | Source/Fastore.Client/Database.cs:278-306 | the index lists each column's pods in order; it throws exactly if a pod is listed twice |
| `Retry.PodsOnce` | Source/Fastore.Client/Database.cs:278-306 | these are exactly the pods holding the column, once each |
| `Retry.PodMap.NextPod` | Source/Fastore.Client/Database.cs:338-357 | round robin |
| `Retry.PodMap.AttemptRead` | Source/Fastore.Client/Database.cs:418-467 | at most one failed attempt per pod, an end within n + 1 picks whatever other threads do, and giving up exactly on a pod that failed already |
| `Retry.UndisturbedIsExhaustive` | Source/Fastore.Client/Database.cs:418-467 | without interference it gives up only after all n pods failed |
| `Retry.DistinctPicksIff` | Source/Fastore.Client/Database.cs:338-357 | the first n picks differ exactly if the other threads never turn the round robin a whole number of times between two of them |
| `Retry.ExhaustiveIff` | Source/Fastore.Client/Database.cs:418-467 | a read that gives up has tried all n pods exactly if the calls of other threads never turn the round robin a whole number of times between two of its first n picks |
| `Retry.InterferenceGivesUpEarly` | Source/Fastore.Client/Database.cs:338-357 | one other reader makes a read of two pods give up after one |
| `ValueGroups.RestIsEnd` | Source/FastoreCommon/Buffer/TreeBuffer.cpp:290-355 | what follows a cursor is the end of the whole range |
| `BufferStream.RowsFrom` | Source/FastoreCommon/Buffer/TreeBuffer.cpp:290-356 | the ascending range from a cursor: the first rows up to the limit, grouped, and whether the limit was met |
| `BufferStream.BufferSerializer.NextRows` | Source/FastoreCore/Serialization.cpp:53-73 | the chunk continues right after the last row written |
| `BufferStream.BufferSerializer.WriteNextChunk` | Source/FastoreCore/Serialization.cpp:48-96 | the file grows by the next chunk; more exactly if the chunk was full |
| `BufferStream.Save` | Source/FastoreCore/Serialization.cpp:48-96 | writing ends, and the file holds every row once, in order, in structures no larger than a chunk |
| `BufferStream.BufferDeserializer.ReadNextChunk` | Source/FastoreCore/Serialization.cpp:137-170 | whole structures applied in order; a batch stays under twice the chunk size |
| `BufferStream.Load` | Source/FastoreCore/Serialization.cpp:137-170 | loading includes all cells of the file |
| `BufferStream.SaveAndLoad` | Source/FastoreCore/Serialization.cpp:48-170 | saving and loading gives the same buffer, however groups straddle chunks |
| `Csv.EscapePerCharacter` | Source/Fastore.Core.Demo2/OWTXMLToCSV.cs:106 | the three whole-string replacements are one escape per character |
| `Csv.InsertRecord` | Source/Fastore.Core.Demo2/OWTXMLToCSV.cs:98-110 | the printed line and its end |
| `Csv.ReadQuoted` | Source/Fastore.Core.Demo2/Form1.cs:155-179 | the quote loop with its error cases, the lenient end test included |
| `Csv.LineToRecord` | Source/Fastore.Core.Demo2/Form1.cs:147-187 | the array holds the completed cells, other cells keep what was there; all four outcomes |
| `Csv.UnclosedQuote` | Source/Fastore.Core.Demo2/Form1.cs:155-179 | a line that ends inside quotes is an error, except right after the opening quote |
| `Csv.EscapeAtEnd` | Source/Fastore.Core.Demo2/Form1.cs:159-171 | a backslash at the end of the line is a bad escape |
| `Csv.OutsideIgnored` | Source/Fastore.Core.Demo2/Form1.cs:147-187 | outside quotes everything but commas and quotes is passed over |
| `Csv.LineRoundTrip` | Source/Fastore.Core.Demo2/Form1.cs:147-187 | parsing a printed record raises no error and recovers every field but the last, null as empty |
| `CsvFile.FirstLine` | Source/Fastore.Core.Demo2/Form1.cs:92-96 | the first line read is the record's line exactly if no field has a carriage return |
| `CsvFile.FileRoundTripIff` | Source/Fastore.Core.Demo2/Form1.cs:92-96 | a file of records reads back as their lines exactly if no field has a carriage return |
| `CsvFile.ReturnSplitsLine` | Source/Fastore.Core.Demo2/OWTXMLToCSV.cs:98-110 | a field of one carriage return does not read back |

## Left out

- LemparDriver.Parser.Parse: its loop runs for as many iterations as the caller's list of allocation outcomes has entries; LemparRanks.ParseToEnd has the loop as written, where a rank makes it end.
- LemparTermination.LoopEndsIff: for a growing stack it supposes that realloc delivers; a refusal ends the loop by overflow, repeated control or not.
- LemparRanks.DescendingEnds: sufficient only; that tables on which every call returns have such a rank is left open. What is exact, per call, is LemparProgress.StuckIff.
- LemparRanks.ParseToEnd: requires the rank, which the source does not ask for.
- LALR completeness: that consistent tables accept every sentence of the grammar is a property of the generator, not of this driver.
- Wrap-around of yyerrcnt and yyidx: they are unbounded integers here.
- Destructors and trace output of the parser template: no logic rests on them.
- Server life cycle (listening, polling, the connection pool, expiry, connection IDs): foreign calls and easy bookkeeping.
- Write-buffer memory of a connection: only the read buffer is an array.
- Thrift serialization of writes: an arbitrary pair of functions that round-trip.
- Time stamps, salt, MD4 fields and the contents of the log header: parameters or zero bytes, as no decision reads them.
- Checkpoints, file reuse, flush and pending transactions of the log: stubs in the code.
- RecoveryTheorem.Recover: one pod takes all columns and each commit arrives once; routing among several workers and repeated delivery are not modelled.
- IdAllocation.GrantKeeps: the generator's own read-modify-write transaction is not modelled; that a grant starts at or above the stored value is its assumption.
- Worker.Sync: the 200000-row limit, a pod row without a column ID and a column without a schema definition are not modelled.
- Worker.WorkerHandler.Commit: a repository dropped by the sync of its own write is left unwritten; the code applies to a freed object there.
- Buffers other than the tree buffer, and upper bounds and descending order of GetRows: easy variations.
- ClientTransaction.GatherWrites: the order in which cells and rows are listed is left open.
- Schema columns added inside a transaction, read tracking and statistics of a transaction: easy members.
- Limits and start rows of a transaction's getRange: the remote and local ranges are inputs.
- Rounds of the C++ apply loop, GetRowsQuery and ResultsToRangeSet: they assemble requests and results.
- Reads of system columns through GetWorkerForSystemColumn: the same round robin over all workers.
- Retry.UpdateHiveState: changes of the hive state during a read are not modelled.
- The demo's load loop around the CSV parser (blank lines, record count): easy.
