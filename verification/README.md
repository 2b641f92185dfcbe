# Verified models of the game server's concurrent and generated parts

Five independent parts of the server carry loops, shared state and interleavings worth a proof. Each
is modelled in Dafny in the form the source has: an object that is updated in place is a class whose
methods are proved to take the steps of a state machine, and the state machine carries the invariants
over all runs.

| part | files |
|---|---|
| Packet wire layout: parser, compiler of copy operations, table, encoder and decoder | `LayoutDump`, `CopyCompiler`, `CopyGeometry`, `WireCodec` |
| I/O completion port on POSIX threads | `CompletionPort` (every interleaving), `LinkedPort` (the linked list) |
| Asynchronous database pipeline | `DatabaseLog` (what a batch sends), `AsyncDatabase` (every interleaving), `AsyncDrain` (all work gets done), `DatabaseQueues` (the objects) |
| Login queue | `LoginQueue` (tick and handlers), `LoginQueueTick` (what they do to each entry), `LoginQueueRuns` (invariants over runs), `LoginQueueDrain` (how long it takes to empty) |
| Auction house and dojo wars | `AuctionHouse`, `AuctionPages`, `DojoWar` |

`Options` and `Sequences` hold the option type and four facts about concatenation.
`dafny verify dfyconfig.toml` checks the whole project.

Conventions shared by the parts:

* A critical section is one atomic step; a run is any sequence of enabled steps. Nothing is assumed
  about scheduling. Waiting and signalling follow `pthread_cond_wait` and `pthread_cond_signal` of
  IEEE Std 1003.1: a signal unblocks at least one waiter if there is one, and a waiter may wake
  without a signal.
* What a component sends is appended to a log (`log`, `notes`, `requests`). Fields described as
  history only record what has happened and decide nothing; lemmas equate them with functions of the events
  of the run.
* Orders the source leaves open (iteration over hash maps, the sort of the search result, which
  waiters a signal reaches) are arbitrary.
* The tick length of the login queue is any number, since `Server/CharServer/CharServer.cpp:254`
  passes the time since the start of the process.

Where the code does not do what its documentation or its evident intent says, the model follows the
code, and the exact condition under which the intent holds is proved:

* What the parser holds for a struct is what the last `struct` line with its name opened, wherever
  that line stands. A nested member printed as `struct ...` cuts the outer struct off before its size
  (it is stored with size 0), and replaces the nested struct's own layout. The exact condition for a
  struct to be read back is `LayoutDump.ReadBackIffLastMention`, stated on the offsets themselves in
  `LayoutDump.ReadBackIffSameOffsets`; inputs that fail it are in `LayoutDump.NestedMisreadExample`
  and `LayoutDump.OverwrittenExample`.
* A struct that was cut off is compiled all the same if its regions pair up. Its row has payload size
  0 on that side and leaves it (`WireCodec.CutOffRow`, input in `WireCodec.CutOffExample`).
* The two-region rule of the generator writes a native byte twice exactly when the wire's fixed part
  is the wider one (`CopyGeometry.SafeIffNotWideTail`, input in `WireCodec.WideTailExample`), and
  leaves its buffers exactly when the prefix does not fit as well
  (`CopyGeometry.InBoundsIffPrefixFits`, input in `WireCodec.OutOfBoundsExample`). Where such a row
  stays inside its buffers it is never lossless (`WireCodec.CompiledRow`). The comment above the
  collapse says the fixed region starts at 0; the code starts it at the first region's offset.
* A row keeps at most 32 operations. A longer list loses wire bytes without an error
  (`WireCodec.CompiledRow`, input in `WireCodec.TruncatedExample`).
* Game masters may be queued for a full channel, as a comment in the wait-check handler says, and are
  turned away by the check at the head of the queue (`LoginQueueRuns.TurnedAwayIffFull`, run in
  `LoginQueueRuns.GameMasterExample`).
* The page count of a search is one too high when the items fill their last page
  (`AuctionPages.LastPageEmptyIffFull`, input in `AuctionPages.EmptyLastPageExample`).
* A request timer that is left over when a dojo is reopened starts a war. It can start one a second
  time for one challenge (`DojoWar.SecondStartIffStaleTimer`, run in `DojoWar.SecondStartExample`), or
  after the challenge was fought and closed, with no challenger on record
  (`DojoWar.EveryStartOwnedIffNoLeftOver`, run in `DojoWar.StartWithoutChallengeExample`).
  `Server/ChatServer/Dojo.cpp:209` then uses the guild of that missing challenger.

## Model

| member | source | states |
|---|---|---|
| LayoutDump.ParseLayoutDump | tools/gen_packet_wire.py:123-181 | The line loop with its three flush points computes the function `Parse`, including the last struct, which is dropped when its size is 0 |
| LayoutDump.KeysCollideIff | tools/gen_packet_wire.py:161 | Every key begins with s, and two names share a key iff they are equal or one is the other with an s in front |
| LayoutDump.ComputeRegions | tools/gen_packet_wire.py:136-143 | The loop gives each offset the bytes up to the next one and drops spans that are empty or negative |
| LayoutDump.RegionSizesTelescope | tools/gen_packet_wire.py:136-143 | The region sizes add up to at least the struct from its first offset on, and to exactly that iff the offsets ascend to the size |
| LayoutDump.RegionsPartitionIffAscending | tools/gen_packet_wire.py:136-143 | The regions partition the struct from its first offset on iff the offsets ascend to the size |
| LayoutDump.LastBlockIsStored | tools/gen_packet_wire.py:123-181 | In any text, whatever precedes and follows, a key holds the layout that its last struct line and the detail lines behind it describe; only a struct of size 0 at the very end of the text is dropped, which leaves what came before |
| LayoutDump.LastMentionIsStored | tools/gen_packet_wire.py:149-181 | In a text of printed records the last record that mentions a key decides: the size of that record if no struct line follows the mention, and size 0 otherwise |
| LayoutDump.ParsePrintRoundTrip | tools/gen_packet_wire.py:123-181 | Printing any dump (nested structs and class records included) and parsing it: the keys are exactly those of its struct lines, each with what its last mention stores, which for a flat record of its own is the layout it describes |
| LayoutDump.LayoutsWellFormed | tools/gen_packet_wire.py:123-181 | A stored layout has adjacent, non-empty regions up to its size as soon as the offsets of its own last block ascend, whatever else the text holds |
| LayoutDump.ReadBackIffLastMention | tools/gen_packet_wire.py:149-181 | In any dump a struct record is read back correctly iff the last struct line with its key is not cut off by another and prints the same size and regions; for its own line this means being flat, and the stored size is 0 after a cut and the surrounding record's size otherwise |
| LayoutDump.RegionsSameIffStarts | tools/gen_packet_wire.py:136-143 | Ascending offsets give the same regions iff they are the same below the size |
| LayoutDump.ReadBackIffSameOffsets | tools/gen_packet_wire.py:149-181 | With ascending offsets a struct is read back correctly iff no struct line follows its last mention in that record, the record has the struct's own size, and the offsets from there on are the struct's own below it |
| LayoutDump.NestedMisreadExample | tools/gen_packet_wire.py:149-164 | A struct with a nested member is stored with size 0 |
| LayoutDump.OverwrittenExample | tools/gen_packet_wire.py:149-164 | A flat struct of 8 bytes is stored with 240 after it appears inside a larger one |
| CopyCompiler.ComputeGcd | tools/gen_packet_wire.py:184-187 | The loop computes `Gcd` |
| CopyCompiler.GcdDivides | tools/gen_packet_wire.py:184-187 | The result divides both sizes, so elements have whole sizes |
| CopyCompiler.GcdGreatest | tools/gen_packet_wire.py:184-187 | Every common divisor divides the result |
| CopyCompiler.AppendStrided | tools/gen_packet_wire.py:254-259 | The array loop appends one operation for each of the gcd-many elements, of the shorter element's length |
| CopyCompiler.AppendPairwise | tools/gen_packet_wire.py:249-260 | The region loop appends one operation for equal sizes and an array otherwise, region by region |
| CopyCompiler.ComputeCopyOps | tools/gen_packet_wire.py:190-260 | The procedure with its early returns, collapse and two-region rule computes `CopyOps`, whose meaning the CopyGeometry lemmas give |
| CopyGeometry.CollapseWellFormed | tools/gen_packet_wire.py:211-218 | Merging our regions into a fixed part and the last member keeps a well-formed partition |
| CopyGeometry.SplitGeometry | tools/gen_packet_wire.py:242-247 | Array operations advance inside both regions without overlap, and tile the wire region iff it is not the wider one |
| CopyGeometry.PairwiseGeometry | tools/gen_packet_wire.py:249-260 | Region-by-region operations advance inside both payloads without overlap, and tile the wire iff no wire region is wider than its partner |
| CopyGeometry.TailGeometry | tools/gen_packet_wire.py:228-248 | The two-region rule does the same when the wire's fixed part is the narrower one |
| CopyGeometry.WideTailOverlaps | tools/gen_packet_wire.py:228-241 | With a wider wire part its two fixed pieces overlap on our side |
| CopyGeometry.SafeIffNotWideTail | tools/gen_packet_wire.py:190-260 | For all well-formed layouts the operations are in bounds and pairwise disjoint on both sides iff the two-region rule did not meet a wider wire part |
| CopyGeometry.InBoundsIffPrefixFits | tools/gen_packet_wire.py:228-241 | For all well-formed layouts the operations stay inside both payloads iff, where that rule met a wider wire part, the prefix still fits our payload |
| CopyGeometry.WideTailSharesByte | tools/gen_packet_wire.py:228-247 | With a wider wire part no wire byte is written twice, but two wire bytes stand for the same native byte |
| CopyGeometry.CoversIffTiles | tools/gen_packet_wire.py:233-259 | An ordered operation list reaches every wire byte iff its operations follow one another without a gap |
| CopyGeometry.CoversIffReachesEveryByte | tools/gen_packet_wire.py:228-260 | A safe, non-empty list covers the whole wire payload iff the wire regions start at 0 and none is wider than its partner, or a whole-payload shortcut applied |
| CopyGeometry.PairsExactlySameField | tools/gen_packet_wire.py:190-260 | For all layouts, wire byte w and native byte o are exchanged iff they belong to the same field, where against two wire regions our array begins at our last region: same position of the same member, same byte of the same array element, or same distance from the end of the fixed part |
| CopyGeometry.FixedAndArrayStayApart | tools/gen_packet_wire.py:205-248 | Against two wire regions whose fixed part is not the wider one, a wire byte of the array is exchanged with a byte from our last region on, and one of the fixed part with a byte before it |
| CopyGeometry.LayoutRules | tools/gen_packet_wire.py:200-233 | On the offsets and sizes of well-formed layouts: when regions are paired, when the two-region rule misfires, when every wire byte is reached, and when nothing is copied |
| CopyGeometry.LoginAnswerExample | tools/gen_packet_wire.py:211-248 | The login answer, 65 and ten times 73 wire bytes against 69 and ten times 77: 63 bytes, the 2 bytes before the array, and 73 bytes of each server |
| WireCodec.CopyMemory | tools/gen_packet_wire.py:334 | The in-place copy replaces exactly the target range |
| WireCodec.ZeroMemory | tools/gen_packet_wire.py:344 | The first n bytes become 0 and the rest stays |
| WireCodec.FindRow | tools/gen_packet_wire.py:310-316 | The scan returns the first row with the opcode, or none |
| WireCodec.EncodePayload | tools/gen_packet_wire.py:328-337 | For a known opcode and large enough buffers the loop leaves `Encode` in the wire buffer and returns the wire size; otherwise it returns 0 and writes nothing |
| WireCodec.DecodePayload | tools/gen_packet_wire.py:339-349 | For a known opcode and large enough buffers the loop leaves `Decode` in the native buffer and returns its size; otherwise it returns 0 and writes nothing |
| WireCodec.PairedBytesAgree | tools/gen_packet_wire.py:328-349 | Paired bytes carry the same value after an encode, and after a decode |
| WireCodec.DecodeEncode | tools/gen_packet_wire.py:328-349 | Decoding an encoded payload returns every byte an operation covers, 0 elsewhere in the payload, and leaves what lies behind it alone, for any safe row including a truncated one |
| WireCodec.EncodeDecode | tools/gen_packet_wire.py:328-349 | Encoding a decoded payload returns every covered wire byte and leaves the others as they were |
| WireCodec.LosslessIffCovered | tools/gen_packet_wire.py:328-349 | A safe row preserves every wire payload, whatever the buffers held, iff its operations cover the whole wire payload |
| WireCodec.SharedByteLoses | tools/gen_packet_wire.py:328-349 | A row that fills two wire bytes from one native byte is not lossless |
| WireCodec.CompilePackets | tools/gen_packet_wire.py:449-458 | The loop compiles exactly the structs that are in both dumps, have an opcode and have something to copy |
| WireCodec.BuildTable | tools/gen_packet_wire.py:286-302 | The loop emits one row per opcode with a conversion, in opcode order, with the first 32 operations |
| WireCodec.FindGenerated | tools/gen_packet_wire.py:286-316 | Looking an opcode up in the generated table returns the row of its own struct, and nothing if it has no conversion |
| WireCodec.FoundRowHoldsThirtyTwo | tools/gen_packet_wire.py:288-302 | The row found for an opcode carries both payload sizes of its struct and exactly its first 32 operations |
| WireCodec.ParsedLayoutsPositive | tools/gen_packet_wire.py:142-143 | Whatever the text of a dump, no parsed region is empty, which is what keeps the compiler from dividing by zero |
| WireCodec.TruncationUncovers | tools/gen_packet_wire.py:294-295 | Dropping operations from a safe list leaves some wire byte uncovered |
| WireCodec.WideTailRow | tools/gen_packet_wire.py:228-248 | A row compiled across a wide tail overlaps itself, and loses wire bytes wherever it stays in bounds |
| WireCodec.CompiledRow | tools/gen_packet_wire.py:190-349 | For every pair of well-formed layouts with something to copy: the row is in bounds iff the prefix of a wide tail fits, safe iff there is no wide tail, and, in bounds, lossless iff there is no wide tail, at most 32 operations resulted and they reach every byte |
| WireCodec.CutOffRow | tools/gen_packet_wire.py:190-260 | A row compiled with a layout of size 0 is in bounds iff both sizes are 0 and the payloads are copied whole |
| WireCodec.GeneratedRowIff | tools/gen_packet_wire.py:446-460 | For any two texts an opcode has a row iff both parses hold its struct and there is something to copy, and the row is the one compiled from the two parsed layouts |
| WireCodec.GeneratedRowCorrect | tools/gen_packet_wire.py:123-460 | From the text of two dumps to the codec, whatever else they contain: the row of a packet is compiled from exactly the blocks its last struct lines open; with ascending offsets it is in bounds, safe and lossless under exactly the conditions of `CompiledRow`, and with a block cut off before its size under that of `CutOffRow` |
| WireCodec.WideTailExample | tools/gen_packet_wire.py:228-241 | Fixed parts of 8 wire and 6 native bytes: the row runs, overlaps itself and is not lossless |
| WireCodec.OutOfBoundsExample | tools/gen_packet_wire.py:228-241 | Fixed parts of 20 wire and 6 native bytes: the prefix leaves the 10 native bytes |
| WireCodec.TruncatedExample | tools/gen_packet_wire.py:294-295 | 33 array elements: every byte is reached, the row is safe, and it is not lossless |
| WireCodec.CutOffExample | tools/gen_packet_wire.py:149-181 | A struct of 12 bytes with a nested member is read with size 0, compiled against 8 wire bytes, and its row leaves the native payload |
| LinkedPort.Port.constructor | Shared/NtlSharedCommon.h:454-464 | A new port is an empty, open queue with nobody inside |
| LinkedPort.Port.TakeFirst | Shared/NtlSharedCommon.h:474-492 | Unlinking the head keeps the list acyclic with tail at its end (both null together) and takes the first item of the sequence, or waits, or fails, as `GetSection` says |
| LinkedPort.Port.Enter | Shared/NtlSharedCommon.h:472-492 | Entering counts the caller and then does the same |
| LinkedPort.Port.PostItem | Shared/NtlSharedCommon.h:499-511 | Linking behind tail keeps the list and appends to the sequence; a closed port refuses and does not change |
| LinkedPort.Port.MarkClosed | Shared/NtlSharedCommon.h:520-524 | Closing changes nothing but the flag, and the closer waits iff somebody is inside |
| LinkedPort.Port.Drain | Shared/NtlSharedCommon.h:525-528 | Exactly the remaining nodes are freed, each once, and the list is empty |
| CompletionPort.StepKeepsInv | Shared/NtlSharedCommon.h:467-536 | Every step keeps the invariant, spurious wake-ups of callers and closer included |
| CompletionPort.AcceptsWhileOpen | Shared/NtlSharedCommon.h:505-511 | Exactly the posts made before the close are accepted, in the order they were made |
| CompletionPort.GetTakesWhatIsThere | Shared/NtlSharedCommon.h:473-492 | A caller in the mutex, entering or woken, takes the first item whenever there is one, also after the close; it sleeps iff the port is open and empty |
| CompletionPort.EmptyHandedMeansDrained | Shared/NtlSharedCommon.h:476-481 | In any run a caller leaves with FALSE only from a closed and empty port, and once one has, every accepted item has been delivered and none is ever discarded |
| CompletionPort.ItemSurvivesClose | Shared/NtlSharedCommon.h:467-536 | A run in which an item posted for a blocked caller is still delivered after the close, the next caller gets FALSE, and the port is freed |
| CompletionPort.CallersMayAlwaysCall | Shared/NtlSharedCommon.h:467-536 | In every reachable state before the port is freed, whoever is outside may call Get and anybody may post |
| CompletionPort.PortIsSafe | Shared/NtlSharedCommon.h:467-536 | In every reachable state: a caller sleeps only while the port is open and every queued item has a woken caller; refcount is the number of callers inside; the items posted while the port was open are those delivered, in order, then those queued or discarded; freed only when nobody is inside |
| CompletionPort.CloseIsFinite | Shared/NtlSharedCommon.h:472-534 | After close nothing is accepted, nobody waits again, and the turns taken plus the callers left inside stay constant |
| CompletionPort.CloseCompletes | Shared/NtlSharedCommon.h:476-534 | From any closed state one turn for each caller inside and one of the closer free the port |
| CompletionPort.CloseNeverHangs | Shared/NtlSharedCommon.h:467-536 | In every reachable closing state the close can still complete |
| DatabaseLog.LogSendsInOrder | Server/Database/Database.cpp:236-276 | Over any batches exactly the statements that do not begin with select are sent, in the order they were queued |
| DatabaseLog.SelectIff | Server/Database/Database.cpp:264 | A statement is dropped iff its first six characters read select in any mixture of small and capital letters |
| DatabaseLog.QueryLogAt | Server/Database/AsyncQuery.cpp:29-32 | Performing an object sends each of its queries once, in order |
| DatabaseLog.BatchExample | Server/Database/Database.cpp:236-276 | Two plain statements, an async query between them and a select: the async query's statements, then the two in one committed transaction |
| DatabaseLog.SelectOnlyExample | Server/Database/Database.cpp:255-276 | A batch of selects is an empty transaction, one without plain statements has none |
| DatabaseLog.UnbrokenIsIsolated | Server/Database/Database.h:177-207 | A log accepted by the phase automaton has only plain statements between a begin and the end of its transaction |
| AsyncDatabase.StepKeepsCounter | Server/Database/Database.cpp:122-234 | The counter law is kept by every critical section of producers, worker and main thread |
| AsyncDatabase.StepKeepsInv | Server/Database/Database.cpp:91-308 | Every step keeps, for every database, the accounting of items, results and log entries and the transaction brackets |
| AsyncDatabase.HistoryIsEvents | Server/Database/Database.cpp:91-198 | In any run what a database was given is the pushes made to it, in order, and the other threads' statements in its log are the direct queries made, in order |
| AsyncDatabase.ProducersNeverWait | Server/Database/Database.cpp:91-198 | In every reachable state a push and its increment can be made, and a direct query unless the worker is inside a transaction on that database |
| AsyncDatabase.CounterIsExact | Server/Database/Database.cpp:122-308 | In every interleaving the counter is what is queued plus what is swapped out but not subtracted less the pushes not yet counted; a worker that sees 0 beside a queued item has a producer about to notify it |
| AsyncDatabase.CallbacksInOrder | Server/Database/Database.cpp:187-253 | Per database callbacks run in the order the async queries were pushed, each at most once and only after all its queries; queries are performed in the order of the pushes and only the current item is half done |
| AsyncDatabase.BatchesAreLoggedWhole | Server/Database/Database.cpp:219-277 | The batches split what was pushed in order, and each is logged as its async queries, begin, plain statements, commit; batches are complete when the worker is elsewhere, and the rest of the log is the direct queries in order |
| AsyncDatabase.PlainStatementsInOrder | Server/Database/Database.cpp:122-276 | The plain statements sent are at all times a prefix of the pushed ones without the selects |
| AsyncDatabase.TransactionsAreIsolated | Server/Database/Database.h:177-207 | In every interleaving with direct queries, nothing but the batch's own statements reaches the connection inside a transaction |
| AsyncDatabase.EveryTransactionCommits | Server/Database/Database.cpp:258-276 | In every interleaving no transaction of the worker is rolled back |
| AsyncDatabase.IdleMeansDone | Server/Database/Database.cpp:122-277 | When a database is idle everything pushed to it has been performed, called back and sent, in order: nothing is lost |
| AsyncDrain.RoundEnds | Server/Database/Database.cpp:219-308 | From any place the worker ends its round, and every queue still ahead of it is empty then |
| AsyncDrain.EverythingDrains | Server/Database/Database.cpp:122-308 | From every reachable state a run without new work, in which the worker is woken only by a counter that is not 0, has everything ever pushed performed, called back and sent, in order |
| AsyncDatabase.WorkerCanAlwaysStep | Server/Database/Database.cpp:219-277 | The worker never waits for a lock it left behind |
| DatabaseQueues.Database.Perform | Server/Database/AsyncQuery.cpp:23-39 | All queries of the object are sent in order, each under the lock |
| DatabaseQueues.Database.QueryTaskRun | Server/Database/Database.cpp:200-216 | All waiting results are called back, in order, and the result queue is empty |
| DatabaseQueues.Database.SortOut | Server/Database/Database.cpp:236-253 | The loop performs the async queries, queues them for callback in order, and collects the plain statements in order |
| DatabaseQueues.Database.SendAll | Server/Database/Database.cpp:258-276 | The plain statements other than selects are sent between begin and commit, and the lock is free afterwards |
| DatabaseQueues.Database.QueryThreadRun | Server/Database/Database.cpp:219-277 | One pass empties the queue, lowers the counter by its length, logs the batch as `BatchLog` and hands on all its async queries |
| DatabaseQueues.ScopedTransaction.constructor | Server/Database/Database.h:159-207 | Every database listed is locked and has begun a transaction |
| DatabaseQueues.ScopedTransaction.Finish | Server/Database/Database.h:177-191 | Every transaction is committed, or all are rolled back if not marked, and every lock is released |
| LoginQueue.QueueServer.TickProcess | Server/CharServer/QueueManager.cpp:17-121 | The walk that erases while iterating, with its running position, computes `Ticked` |
| LoginQueue.QueueServer.WaitCheckReq | Server/CharServer/PacketCharServer.cpp:612-675 | The handler with its channel, load, game-master and character checks takes the state machine's wait-check step |
| LoginQueue.QueueServer.LeaveQueue | Server/CharServer/PacketCharServer.cpp:797-801 | A flagged player is unflagged and erased, another is left alone |
| LoginQueue.QueueServer.CancelWaitReq | Server/CharServer/PacketCharServer.cpp:777-803 | The handler takes the cancel step |
| LoginQueue.QueueServer.CharCreateReq | Server/CharServer/PacketCharServer.cpp:166-184 | The handler takes the character-create step |
| LoginQueue.QueueServer.OnClose | Server/CharServer/ClientSession.cpp:39-77 | Closing a session takes the player out of the queue and off the player list |
| LoginQueueTick.TickOnEntry | Server/CharServer/QueueManager.cpp:23-118 | After any run, for every entry: what a tick tells about it and does to it, by farm and channel, position, the two timers and the channel map, with every code and timer value spelled out |
| LoginQueueTick.FinishCodes | Server/CharServer/QueueManager.cpp:57-86 | After any run, whoever finishes is told 200 iff the channel is known, up and below its load, 593 iff known, up and full, 506 iff unknown or down |
| LoginQueueTick.ChannelDownExample | Server/CharServer/QueueManager.cpp:59-67 | A run in which the channel goes down while a player waits: refused with 506 |
| LoginQueueTick.WaitCheckExactly | Server/CharServer/PacketCharServer.cpp:616-674 | After any run a wait-check records the channel, then refuses with 201 or 506, does nothing for a queued player, or adds exactly one entry with full timers and answers 0xFFFFFFFF |
| LoginQueueTick.LeavingExactly | Server/CharServer/PacketCharServer.cpp:796-802 | After any run cancelling, creating a character and closing the session take exactly the player's own entry out and the flag down |
| LoginQueueTick.OfflineChangesNothing | Server/CharServer/PacketCharServer.cpp:781-784 | Requests of an account that is not online change nothing |
| LoginQueueRuns.InsertMembers | Server/CharServer/QueueManager.cpp:123-135 | Inserting adds exactly the new entry |
| LoginQueueRuns.InsertOrder | Server/CharServer/QueueManager.cpp:123-135 | Inserting keeps account order, and at most one entry counting down |
| LoginQueueRuns.EraseMembers | Server/CharServer/QueueManager.cpp:137-144 | Erasing removes exactly the account |
| LoginQueueTick.EraseExactly | Server/CharServer/QueueManager.cpp:137-144 | Erasing keeps every other entry as it is |
| LoginQueueRuns.EraseOrder | Server/CharServer/QueueManager.cpp:137-144 | Erasing keeps account order, and at most one entry counting down |
| LoginQueueRuns.WalkKeeps | Server/CharServer/QueueManager.cpp:23-118 | From any point of the walk to its end: order, flags and timers stay exact and every finish is earned |
| LoginQueueRuns.ShortWalk | Server/CharServer/QueueManager.cpp:23-118 | A tick below a second finishes at most one account, and none if nobody has begun to count down |
| LoginQueueRuns.LongWalk | Server/CharServer/QueueManager.cpp:23-118 | A tick of a second or more leaves no entry, as each runs out while it is first |
| LoginQueueRuns.WalkOrder | Server/CharServer/QueueManager.cpp:23-118 | The survivors of the walk were in the queue and keep account order |
| LoginQueueRuns.StepKeepsInv | Server/CharServer/QueueManager.cpp:17-144 | Every handler and every tick keeps the invariant |
| LoginQueueRuns.FlagAndQueueAgree | Server/CharServer/PacketCharServer.cpp:655-674 | After any run a player online is flagged iff its account is in the queue, and the queue holds nobody else |
| LoginQueueRuns.FinishesExactlyAfterASecondAtTheHead | Server/CharServer/QueueManager.cpp:53-117 | After any run whoever finished had been first for at least 1000 ms of consecutive ticks; whoever waits has not, and has been told its position within the last second |
| LoginQueueRuns.TickDichotomy | Server/CharServer/QueueManager.cpp:23-118 | After any run a tick below 1000 finishes at most one account, and one of 1000 or more empties the queue |
| LoginQueueRuns.TickPositions | Server/CharServer/QueueManager.cpp:21-117 | In a tick the survivors keep account order and are walked at 1, 2, ..., and every count sent is the survivor's position or the 0 of a successful finish |
| LoginQueueDrain.TicksEmpty | Server/CharServer/QueueManager.cpp:23-118 | From a head that `j` ticks run out, and `k` ticks to a second, a queue of `n` is empty after `j + (n - 1)(k - 1)` ticks, since the next entry is counted down in the tick in which the one before it leaves |
| LoginQueueDrain.QueueDrains | Server/CharServer/QueueManager.cpp:17-121 | After any run, ticks and nothing else empty a queue of `n` in at most `1 + n(k - 1)` of them, if `k` such ticks make a second |
| LoginQueueDrain.EmptyIffEnoughTicks | Server/CharServer/QueueManager.cpp:17-121 | For present players who have not begun to count down, and equal ticks, that number is exact: the queue is empty iff so many ticks have passed |
| LoginQueueDrain.NewcomerResetsHead | Server/CharServer/QueueManager.cpp:98-99 | After any run a newcomer with a smaller account id becomes the head, and at the next tick everybody behind it has the full second before it again |
| LoginQueueRuns.TurnedAwayIffFull | Server/CharServer/QueueManager.cpp:57-67 | A player let in who finds the channel as it was is refused at the head iff the channel is full, and is a game master then |
| LoginQueueRuns.GameMasterExample | Server/CharServer/PacketCharServer.cpp:636-639 | A run from the empty server in which a game master is queued for a full channel and refused after a second at the head |
| AuctionHouse.CAuctionHouse.AgeAll | Server/ChatServer/AuctionHouse.cpp:108-125 | The walk that erases while iterating ages every survivor by a minute and collects exactly the expired listings, each once |
| AuctionHouse.CAuctionHouse.UpdateTick | Server/ChatServer/AuctionHouse.cpp:104-152 | The tick is the state machine's update, with one request per expired listing |
| AuctionHouse.CAuctionHouse.DeleteAllItems | Server/ChatServer/AuctionHouse.cpp:171-187 | Exactly the owner's listings are removed |
| AuctionHouse.ItemsAreConserved | Server/ChatServer/AuctionHouse.cpp:104-187 | Every run keeps, with multiplicity: accepted = in the house + expired + deleted singly + deleted with their owner |
| AuctionHouse.ReachableConserved | Server/ChatServer/AuctionHouse.cpp:104-187 | After any run of an empty house, with multiplicity and read off the events: put up under a fresh id = in the house + requested + taken off singly + cleared with the owner |
| AuctionHouse.StepOnEveryId | Server/ChatServer/AuctionHouse.cpp:104-187 | What each event does to every id: whether it is in the house afterwards, and as which listing |
| AuctionHouse.RequestsAreExpiredListings | Server/ChatServer/AuctionHouse.cpp:127-149 | A tick requests exactly the listings with at most 60 seconds left, each as it was but without time; nothing else requests anything |
| AuctionHouse.UpdateRequests | Server/ChatServer/AuctionHouse.cpp:110-146 | A tick requests an id once if its listing expires and not at all otherwise |
| AuctionHouse.GoneStaysGone | Server/ChatServer/AuctionHouse.cpp:104-187 | A listing that left and is not added again neither comes back nor is requested again |
| AuctionHouse.ExpiresExactly | Server/ChatServer/AuctionHouse.cpp:104-152 | A listing left alone is in the house iff fewer ticks than its started minutes (at least one) have passed, and then has been requested exactly once |
| AuctionPages.FindItems | Server/ChatServer/AuctionHouse.cpp:199-250 | Exactly the items the search selects are collected, each once |
| AuctionPages.SelectedIff | Server/ChatServer/AuctionHouse.cpp:203-248 | What a search selects: everything, the seller's own, or what meets every criterion given, where 255 and the empty text are none and a name matches if it is the text with something before and behind |
| AuctionPages.SearchIsIntersection | Server/ChatServer/AuctionHouse.cpp:239-247 | A search finds what each of its criteria alone finds |
| AuctionPages.PageIsSlice | Server/ChatServer/AuctionHouse.cpp:259-280 | Page p holds items 10(p-1) up to min(10p, n) |
| AuctionPages.SendPage | Server/ChatServer/AuctionHouse.cpp:259-289 | The loop sends items 10(p-1) up to min(10p, n), never more than 10 although its guard alone allows 11, and announces n/10 + 1 pages |
| AuctionPages.PagesPartition | Server/ChatServer/AuctionHouse.cpp:259-289 | The announced pages one after another are the whole list |
| AuctionPages.PagesShowSelection | Server/ChatServer/AuctionHouse.cpp:189-294 | Whatever order the sort makes, the announced pages show every selected item once and no other |
| AuctionPages.LastPageEmptyIffFull | Server/ChatServer/AuctionHouse.cpp:275-289 | The last announced page is empty iff 10 divides the number of items; all earlier pages are full |
| AuctionPages.EmptyLastPageExample | Server/ChatServer/AuctionHouse.cpp:275-289 | Ten items are announced as two pages, the second empty |
| DojoWar.CDojo.RequestWar | Server/ChatServer/Dojo.cpp:62-92 | A challenge is recorded iff the dojo has an owner, is open and the guild is neither rejected nor already the challenger |
| DojoWar.CDojo.ScrambleReq | Server/ChatServer/GameServerPacket.cpp:1778-1815 | The handler takes the request step: refuse, ask the owner with a timer, or start at once if the owner is offline |
| DojoWar.CDojo.ScrambleResponse | Server/ChatServer/Dojo.cpp:105-168 | The response step behind the handler's guards: stop the timers, and start if the dojo is open |
| DojoWar.CDojo.OnEventWarRequestTimer | Server/ChatServer/Dojo.cpp:95-102 | The timer step: start if the dojo is open |
| DojoWar.CDojo.OnMemberLeaves | Server/ChatServer/GameServerPacket.cpp:109-114 | The leave step: a pending request starts at once |
| DojoWar.CDojo.UpdateState | Server/ChatServer/Dojo.cpp:233-325 | The state-change step with what END and NORMAL clear |
| DojoWar.RequestXorWar | Server/ChatServer/Dojo.cpp:62-373 | In every run a dojo never has both a pending request and a war in progress |
| DojoWar.StartsIff | Server/ChatServer/Dojo.cpp:62-231 | Exactly which event in which state begins a war, and that it is then on, in standby, against the guild just challenging or the one on record, an answer stopping the timers |
| DojoWar.PendsIff | Server/ChatServer/GameServerPacket.cpp:1778-1800 | A request becomes pending iff a challenge is taken while the owner is online; it is recorded and its timer runs |
| DojoWar.OtherwiseNothing | Server/ChatServer/Dojo.cpp:95-325 | Every other event leaves flags, guilds and owner as they are |
| DojoWar.ClosingClears | Server/ChatServer/Dojo.cpp:285-368 | Closing clears both flags and sets the state; NORMAL and Reset also forget the challenger and the rejected guild, END keeps them |
| DojoWar.AnswerStarts | Server/ChatServer/Dojo.cpp:105-168 | In any run the answer to a standing challenge starts the war while the dojo is open and leaves no timer |
| DojoWar.AnswerExample | Server/ChatServer/Dojo.cpp:105-168 | A run from a new dojo: opened, challenged, answered, at war |
| DojoWar.ChallengerIsStable | Server/ChatServer/Dojo.cpp:62-373 | While a request is pending or a war is on, the challenger does not change and one of the two flags stays up until END, NORMAL or Reset |
| DojoWar.ChallengerChangesOnlyOnClose | Server/ChatServer/Dojo.cpp:301-368 | In any run the only step that changes the challenger while a flag is up is Reset or the change to NORMAL, which clears the challenger and both flags |
| DojoWar.OneStartPerChallenge | Server/ChatServer/Dojo.cpp:62-373 | A war that has begun is not begun again before it is closed, if the game server does not reopen the dojo in between |
| DojoWar.NoSecondStart | Server/ChatServer/Dojo.cpp:62-373 | The same over whole runs from a new dojo, for any two starting events |
| DojoWar.SecondStartIffStaleTimer | Server/ChatServer/Dojo.cpp:95-102 | Without that condition, a second start happens iff a left-over timer fires while the dojo is open |
| DojoWar.SecondStartExample | Server/ChatServer/Dojo.cpp:95-102 | A concrete run with two starts for one challenge |
| DojoWar.PendingIffStanding | Server/ChatServer/GameServerPacket.cpp:1784-1815 | At every point of a run a request is pending iff an accepted challenge is neither used up by a start nor closed |
| DojoWar.EveryStartOwnedIffNoLeftOver | Server/ChatServer/Dojo.cpp:62-373 | In every run every war started has an accepted challenge of its own, still open and not used up, iff no timer fires in an open dojo without a pending request |
| DojoWar.StartWithoutChallengeExample | Server/ChatServer/Dojo.cpp:95-102 | A run in which the timer of a war that is over starts another with no challenger on record |

## Left out

- The regular expressions that classify dump lines, running clang, scanning headers for opcodes, the printed C++ text and the pass-through build for Windows: lines and opcodes are given already classified.
- WireCodec.GeneratedRowCorrect: for blocks with a size whose offsets step backwards, which the generator's own comment rules out by asking for regions sorted by offset, only what the row is compiled from is stated.
- Sizes and offsets of the wire tables as 32-bit numbers, and null buffer pointers: buffers are arrays, numbers unbounded.
- Null or foreign handles, failed allocation, two threads closing one port, and a caller that has not reached the mutex when the port is freed.
- LinkedPort.Port.PostItem: the signal it sends is part of the state machine in `CompletionPort`, not of the list.
- MySQL itself, reconnecting, escaping and the text formatting of statements: a statement is a log entry.
- The cast that puts a string and an `AsyncQuery` in one queue: items are a tagged union, so a string whose memory happens to carry the tag 4 is not covered, nor an `AsyncQuery` without a database.
- `TransactionQuery` and `TransactionExecute`: they take no lock, so no isolation can hold for them.
- Stopping the database thread, and the timed wait's duration: the worker may find work or be notified at any step.
- DatabaseQueues.Database.QueryThreadRun: says what the pass does when no other thread comes in between; the interleavings are in `AsyncDatabase`.
- `DisconnectAll`, the packets to the master server, and packets arriving in the middle of a tick of the login queue.
- Loading and saving of auctions, the conversion of names to narrow strings, and the comparator of the sort, which is not a strict order in every branch: any permutation is allowed. The class bit mask is a set, and the page counter does not wrap.
- The disabled decline branch of the dojo challenge and its reject counter, war points, seals, member sets, step times and broadcasts, including their use of guilds that no longer exist.
- The map of dojos and change of dojo ownership.
- DojoWar.CDojo.ScrambleReq: the player, guild and eligibility guards before the dojo's own, and the guild's record of its one challenge, are the parameter `permitted`.
- DojoWar.CDojo.ScrambleResponse: the player and guild-master guards are the parameter `permitted`.
- Guild, party and friend lists, the slot machine, character slots, the login flow and the property tables: field updates with nothing to relate.
