# Havy OS: verified models of its concurrent and on-disk algorithms

Havy OS is a RISC-V kernel in Rust with an image builder for its file system. This project models
the algorithms in it that carry hard invariants and proves those invariants in Dafny 4.11. Check
it with `dafny verify dfyconfig.toml`.

| files | what they model |
|---|---|
| `ChaseLev.dfy`, `ChaseLevCalls.dfy` | the lock-free work-stealing deque: one owner, any number of thieves, growable circular buffers; what whole calls answer |
| `SfsLayout.dfy`, `Mkfs.dfy`, `SfsReader.dfy` | the SFS disk layout, the image builder (bitmap allocator, sector chains, packed directory) and the kernel's reader of the same layout |
| `RwLock.dfy`, `TicketLock.dfy` | the packed-word reader-writer lock and the ticket lock |
| `IoRouter.dfy`, `IoRouting.dfy`, `IoCrossing.dfy`, `IoService.dfy` | the I/O router: completion slots and callbacks shared by ids congruent modulo 64, exactly when results reach the right id, and that every request can be served |
| `RoundRobin.dfy`, `Modular.dfy` | the router's round-robin dispatcher: order, bounded bypass, sweeps |
| `Listing.dfy` | the `name:size` text in which a directory listing travels between harts |
| `Display.dfy` | the double-buffered display and its dirty rectangle |
| `Virtqueue.dfy` | the VirtIO input event queue, driver and device |
| `RunQueues.dfy`, `Scheduler.dfy` | priority run queues, CPU affinity and work stealing |
| `TcpChecksum.dfy` | checksum repair of patched TCP frames |
| `Dns.dfy`, `DnsResponse.dfy`, `DnsTruncation.dfy` | DNS queries and responses, whole and cut short |
| `Vfs.dfy` | mount table and path routing |
| `Wrappers.dfy` | `Option` |

## How the models are built

Protocols between harts (the deque, both locks, the router, the virtqueue) are transition systems.
A state holds the shared words and a program counter per agent; each atomic load, store,
compare-and-swap or locked section is one step, and memory is sequentially consistent. `Apply`
gives the effect of one labelled step (a label that is not enabled changes nothing), `Run` the state
after a sequence of labels, and every result is stated for all sequences, that is, for all
interleavings of any number of agents. Fields that only record history are described where they
are declared; no step reads them to decide anything.

Invariants alone would also hold of an operation that never does anything. So each protocol has, next
to its safety results, results about whole calls: what a call that returns has answered in any
interleaving (`PopCall`, `StealCall`, `PollCall`, `TryReadCall`), what an undisturbed call does after
any run (`PopAlone`, `ReadAdmitted`, `LockAlone`), and how many steps of its own it takes at most
(`OwnerWaitFree`, `StealWaitFree`, `PollEnds`).

Code that one hart runs by itself is imperative: classes with fields, arrays updated in place, loops
with invariants, each method proved against a specification function, and the promises of the
source proved about those functions.

Several properties hold only under a condition; each is proved together with its exact condition:

- Router results stay with their own id exactly when every submission finds the earlier ids of its
  slot retired and their results stored. This is weaker than the submission discipline of
  `IoRouter.Disciplined`, and necessary: from any other submission of a new id, in any run on
  up to 2^64 harts, a continuation without new requests is constructed after which some poll has
  returned a result not computed for its id
  (`IoCrossing.RoutingExact`, `IoCrossing.UnroutableCrosses`). What holds in every run is that a
  result was computed for some id of the same slot (`IoRouting.TakenWasComputed`).
- A fruitless round-robin sweep means that all queues are empty exactly when the 64-bit cursor does
  not wrap during it or the number of harts divides 2^64 (`RoundRobin.SweepExact`).
- A listing survives the trip exactly when no name contains a newline (`Listing.ListingRoundTrip`).
- `write_rect` marks all it draws exactly when its 32-bit coordinates do not overflow, or overflow
  where nothing is drawn (`Display.WriteExact`); the release profile does not check overflow.
- Images of differently named files read back for every name exactly up to 448 files
  (`SfsReader.ReadBackExact`).
- A repaired TCP checksum is right exactly when the 32-bit sum wrapped a multiple of 2^16 - 1 times,
  so for all frames of up to 131056 bytes (`TcpChecksum.Recalculate`).
- A pinning is respected exactly when it names an existing hart (`Scheduler.Scheduler.SpawnOnCpu`).
- A routed path is rebuilt exactly unless it is a mount point with a slash appended (`Vfs.Rebuilds`).
- In runs with at most 2^32 tickets outstanding a waiting ticket can get the lock exactly when no
  ticket before it was abandoned (`TicketLock.ServedExactly`).
- An undisturbed reader is admitted exactly when no writer owns the writer bit and the reader count
  is not full (`RwLock.ReadAdmitted`).
- A DNS response cut short within its answers is an error exactly when a record is cut in two;
  otherwise the records that are left are the answer (`DnsTruncation.CutInAnswers`).

Where documentation and code disagree the code is modelled: `pick_next` says it keeps the steal
queues in sync with the run queues, but pops whatever was pushed last and, on the wrong-affinity
path, enqueues a second copy; both are modelled as they are.

## Model

| member | source | states |
|---|---|---|
| `ChaseLev.MaskIsRemainder` | kernel/src/cpu/chase_lev.rs:61-73 | for a power-of-two capacity the index mask is the remainder, which justifies indexing by remainder |
| `ChaseLev.PutFrame` | kernel/src/cpu/chase_lev.rs:61-73 | writing index i changes exactly the indices congruent to it; others within one capacity are never congruent |
| `ChaseLev.CopyRangeGet` | kernel/src/cpu/chase_lev.rs:76-89 | the copy of a window into a larger buffer reads the same value at every index of the window |
| `ChaseLev.Buffer.constructor` | kernel/src/cpu/chase_lev.rs:46-54 | a new buffer is uninitialised everywhere |
| `ChaseLev.Buffer.Read` | kernel/src/cpu/chase_lev.rs:61-67 | reads the slot that the index maps to |
| `ChaseLev.Buffer.Write` | kernel/src/cpu/chase_lev.rs:70-73 | the in-place write is the specification's Put |
| `ChaseLev.Buffer.Grow` | kernel/src/cpu/chase_lev.rs:76-89 | the copy loop yields a fresh buffer of twice the capacity holding the window, and leaves the old one alone |
| `ChaseLev.GrownHolds` | kernel/src/cpu/chase_lev.rs:76-89 | a grown buffer holds every logged value that the old one held |
| `ChaseLev.InvRun` | kernel/src/cpu/chase_lev.rs:113-230 | in every interleaving the memory refines a sequential deque run in lock-step with it |
| `ChaseLev.ExactlyOnce` | kernel/src/cpu/chase_lev.rs:137-230 | every pushed item is in the deque once, or claimed by a pop in progress, or was returned once with its own value; never two of these, never none |
| `ChaseLev.QuiescentConservation` | kernel/src/cpu/chase_lev.rs:137-230 | between owner operations an item is at an index from top to bottom exactly if it has not been returned |
| `ChaseLev.StealCorrect` | kernel/src/cpu/chase_lev.rs:205-230 | a steal whose compare-and-swap succeeds removes the oldest item and returns the value pushed there, whatever buffer it read; otherwise it changes nothing and says Retry |
| `ChaseLev.StealEmptyCorrect` | kernel/src/cpu/chase_lev.rs:205-212 | Empty is answered only if the deque is empty or its last item is being popped |
| `ChaseLev.PopCorrect` | kernel/src/cpu/chase_lev.rs:163-202 | at each step of a pop: the newest item leaves, its own value is returned, the last-element race is decided by the compare-and-swap, bottom is restored |
| `ChaseLev.PushCorrect` | kernel/src/cpu/chase_lev.rs:137-160 | the final store of push appends exactly the pushed value to the deque |
| `ChaseLev.TopGrowsOldBuffersFrozen` | kernel/src/cpu/chase_lev.rs:137-160 | no step lowers top or writes a buffer that has been replaced |
| `ChaseLevCalls.PopCall` | kernel/src/cpu/chase_lev.rs:163-202 | in any interleaving a pop that returns a value took exactly one item, the newest at that step, and it has that value; one that returns None took nothing and the deque was empty at some point of the call |
| `ChaseLevCalls.PushCall` | kernel/src/cpu/chase_lev.rs:137-160 | in any interleaving a push that returns has appended exactly the value it was called with, by its last step |
| `ChaseLevCalls.StealCall` | kernel/src/cpu/chase_lev.rs:205-230 | in any interleaving a steal that returns a value took the oldest item by its last step; Empty means that the deque looked empty during the call, Retry that top moved since the call began |
| `ChaseLevCalls.OwnerWaitFree` | kernel/src/cpu/chase_lev.rs:137-202 | a pop returns after at most six steps of its own and a push after six plus one per item, whatever thieves do |
| `ChaseLevCalls.StealWaitFree` | kernel/src/cpu/chase_lev.rs:205-230 | a steal answers after at most four steps of its own |
| `ChaseLevCalls.PopAlone` | kernel/src/cpu/chase_lev.rs:163-202 | after any run an undisturbed pop removes and returns the newest item, and returns None if and only if the deque is empty |
| `ChaseLevCalls.PushAlone` | kernel/src/cpu/chase_lev.rs:137-160 | after any run an undisturbed push appends its value |
| `ChaseLevCalls.PushGrows` | kernel/src/cpu/chase_lev.rs:137-160 | and publishes a new buffer if and only if there was none or all but one slot were taken |
| `ChaseLevCalls.CapacitiesDouble` | kernel/src/cpu/chase_lev.rs:76-89 | in every run the capacities are 32, 64, 128 and so on |
| `ChaseLevCalls.StealAlone` | kernel/src/cpu/chase_lev.rs:205-230 | after any run with an idle owner an undisturbed steal removes and returns the oldest item, and says Empty if and only if there is none |
| `SfsLayout.EntryRoundTrip` | mkfs/src/main.rs:387-409 | an entry gives back its name, size and head |
| `SfsLayout.EntryInDirectory` | mkfs/src/main.rs:387-409 | an entry lies within the directory sectors if and only if its index is below 448 |
| `SfsLayout.EntriesDisjoint` | mkfs/src/main.rs:387-409 | different entries occupy disjoint bytes |
| `SfsLayout.EntryWrite` | mkfs/src/main.rs:387-409 | writing one entry sets it and leaves all others and all other sectors unchanged |
| `SfsLayout.LE32RoundTrip` | mkfs/src/main.rs:354-385 | little-endian words decode to what was encoded |
| `Mkfs.FindFreeSector` | mkfs/src/main.rs:340-352 | returns and marks the lowest free sector, or None if and only if the bitmap is full |
| `Mkfs.Image.WriteSector` | mkfs/src/main.rs:364-378 | one data sector is next pointer, payload and zero padding, and nothing else changes |
| `Mkfs.Image.ExtendChain` | mkfs/src/main.rs:354-385 | a chain grows by the lowest free sector |
| `Mkfs.Image.WriteChunk` | mkfs/src/main.rs:354-385 | one turn of the loop writes one linked chunk and keeps the chunks before it |
| `Mkfs.Image.WriteData` | mkfs/src/main.rs:354-385 | a file is stored in ceil(len/508) newly marked sectors, lowest first, chained and ending in 0; sectors outside the chain are untouched; None exactly when sectors run out |
| `Mkfs.Image.WriteDirEntry` | mkfs/src/main.rs:387-409 | the entry is written at its packed place and nothing else changes |
| `Mkfs.ReservedBitmap` | mkfs/src/main.rs:70-79 | exactly sectors 0 to 128 are marked at the start |
| `Mkfs.AllocateChain` | mkfs/src/main.rs:340-385 | marked sectors stay exactly the reserved ones plus those of all chains, chains stay disjoint and duplicate-free |
| `Mkfs.ContentsKept` | mkfs/src/main.rs:354-385 | writing outside the chains keeps every earlier file's contents |
| `Mkfs.DirectoryKept` | mkfs/src/main.rs:354-409 | writing data sectors keeps every directory entry |
| `Mkfs.FileAdded` | mkfs/src/main.rs:354-409 | adding a file keeps all earlier files and their entries |
| `Mkfs.TakenFills` | mkfs/src/main.rs:340-352 | lowest-first allocation fills the bitmap without gaps |
| `Mkfs.BitmapWritten` | mkfs/src/main.rs:166-168 | the bitmap on disk equals the bitmap in memory |
| `Mkfs.Import` | mkfs/src/main.rs:292-338 | one imported file keeps the whole image invariant |
| `Mkfs.Build` | mkfs/src/main.rs:53-172 | an image results if and only if the kept files' sectors fit the bitmap; with at most 448 kept files it is a good image (superblock, bitmap, directory, all contents), beyond that its directory still names the first 448 |
| `Mkfs.KeptIs` | mkfs/src/main.rs:316-319 | exactly the files with names of up to 63 bytes are kept, in order |
| `SfsReader.ScanSector` | kernel/src/lock/state/fs.rs:603-617 | the scan of one directory sector finds its first matching entry |
| `SfsReader.FindEntryPos` | kernel/src/lock/state/fs.rs:587-622 | the scan returns the position of the first matching entry of the directory, or None if there is none |
| `SfsReader.FollowChain` | kernel/src/lock/state/fs.rs:442-473 | the read loop returns what the chain holds, cut to the size |
| `SfsReader.ReadFile` | kernel/src/lock/state/fs.rs:442-473 | the kernel's read_file returns the contents that the layout assigns to the name |
| `SfsReader.ChainReadsFrom` | kernel/src/lock/state/fs.rs:442-473 | following next pointers over a stored chain yields exactly the file's remaining bytes |
| `SfsReader.FindAgrees` | kernel/src/lock/state/fs.rs:587-622 | on a directory that lists the files, the scan finds the first file of that name |
| `SfsReader.KernelReadsBack` | mkfs/src/main.rs:354-409 | for every built image and every name the kernel reads back exactly the bytes of the first host file of that name, and nothing for other names |
| `SfsReader.BeyondDirectory` | kernel/src/lock/state/fs.rs:587-622 | with 448 files or more the kernel finds nothing for any name that is not among the first 448 |
| `SfsReader.ReadBackExact` | mkfs/src/main.rs:387-409 | for distinct names every file reads back if and only if there are at most 448; the 449th is not found |
| `SfsReader.BuildAndRead` | mkfs/src/main.rs:53-172 | builder, mount and kernel composed: up to 448 kept files, what is read from a freshly built image is what looking the name up in them gives; beyond that, nothing for names not among the first 448 |
| `SfsReader.Mount` | kernel/src/lock/state/fs.rs:272-293 | a device is accepted if and only if it has two sectors and begins with the bytes of "SFS1"; the first bitmap sector is cached |
| `SfsReader.BuiltMounts` | mkfs/src/main.rs:65-68 | every finished image is accepted, however many files it holds |
| `SfsReader.DirectoryOverflow` | mkfs/src/main.rs:387-409 | entry number 448 overwrites the first data sector |
| `RwLock.InvRun` | kernel/src/lock/mod.rs:486-616 | the lock word and the agents' positions agree in every run |
| `RwLock.Exclusion` | kernel/src/lock/mod.rs:486-616 | a live write guard excludes every other guard |
| `RwLock.WordExact` | kernel/src/lock/mod.rs:433-435 | the low 31 bits count the read guards, the top bit tells of a writer, no increment carries into it |
| `RwLock.NoAdmission` | kernel/src/lock/mod.rs:486-616 | from when a writer sets the bit until it is cleared no reader is admitted, over any number of steps |
| `RwLock.WriterEntersExactly` | kernel/src/lock/mod.rs:546-616 | a waiting writer enters exactly when the readers are gone; try_write succeeds exactly when the lock is free |
| `RwLock.WriteDropFrees` | kernel/src/lock/mod.rs:677-685 | dropping the write guard leaves the word at 0 and nobody inside |
| `RwLock.ReadAdmitted` | kernel/src/lock/mod.rs:486-540 | after any run an undisturbed read or try_read is admitted if and only if no writer owns the bit and there are fewer than 2^31 - 1 readers; otherwise try_read returns None, read spins or panics |
| `RwLock.WriteTakesBit` | kernel/src/lock/mod.rs:546-574 | after any run an undisturbed write gets the bit if and only if no writer owns it |
| `RwLock.ReadDropLeaves` | kernel/src/lock/mod.rs:648-654 | dropping a read guard removes that reader and changes nothing else |
| `RwLock.DrainCompletes` | kernel/src/lock/mod.rs:578-593 | a writer with the bit enters once the readers have dropped their guards, in whatever order |
| `RwLock.TryReadCall` | kernel/src/lock/mod.rs:526-540 | in any interleaving a try_read is admitted only while readers can be, and fails only if they could not be at some point of the call, the word changed, or the exchange failed spuriously |
| `TicketLock.InvRun` | kernel/src/lock/mod.rs:330-384 | wrapping counters and tickets agree in every run with at most 2^32 outstanding tickets |
| `TicketLock.Exclusion` | kernel/src/lock/mod.rs:330-384 | at most one holder |
| `TicketLock.GrantInOrder` | kernel/src/lock/mod.rs:330-384 | the holder has the smallest ticket of all who have one |
| `TicketLock.HoldersInTicketOrder` | kernel/src/lock/mod.rs:330-384 | later holders have later tickets |
| `TicketLock.ReleaseHandsOver` | kernel/src/lock/mod.rs:415-423 | after a release the owner of the next ticket, unless abandoned, gets the lock at its next step |
| `TicketLock.AbandonedForever` | kernel/src/lock/mod.rs:363-384 | an abandoned ticket stays abandoned, in every run |
| `TicketLock.AbandonedBlocks` | kernel/src/lock/mod.rs:363-384 | after an abandonment no later ticket is served as long as at most 2^32 tickets are outstanding |
| `TicketLock.ShortRunsBounded` | kernel/src/lock/mod.rs:330-384 | any run of up to 2^32 steps meets the bound on outstanding tickets |
| `TicketLock.AbandonmentReachable` | kernel/src/lock/mod.rs:363-384 | two agents suffice to abandon a ticket |
| `TicketLock.LockAlone` | kernel/src/lock/mod.rs:330-358 | after any bounded run an undisturbed lock draws the next ticket and is granted at once if and only if no ticket is outstanding, modulo 2^32 |
| `TicketLock.TryLockAlone` | kernel/src/lock/mod.rs:363-384 | an undisturbed try_lock succeeds under the same condition, and otherwise draws no ticket |
| `TicketLock.ServedExactly` | kernel/src/lock/mod.rs:330-384 | a ticket in somebody's hands can get the lock if and only if no ticket before it was abandoned |
| `IoRouter.BaseRun` | kernel/src/cpu/io_router.rs:339-552 | in every run each request is in one place, queues and dispatcher agree with it, and the counters add up |
| `IoRouter.InvRun` | kernel/src/cpu/io_router.rs:253-518 | slots, callbacks and pollers follow the protocol in every disciplined run |
| `IoRouter.ResultRouting` | kernel/src/cpu/io_router.rs:260-297 | every result taken for an id is the one computed for it, and it is taken at most once, however many harts poll |
| `IoRouter.CallbackOnce` | kernel/src/cpu/io_router.rs:433-518 | a callback has fired exactly once, with its own id and result, when its request is completed, and not before |
| `IoRouter.ResultKept` | kernel/src/cpu/io_router.rs:260-297 | a stored, awaited, untaken result is returned by the next undisturbed poll |
| `IoRouter.Conservation` | kernel/src/cpu/io_router.rs:346-349 | in every run, disciplined or not, submitted requests are those completed, queued or in flight, counting submitters between push and count |
| `IoRouting.TakenWasComputed` | kernel/src/cpu/io_router.rs:260-297 | in every run whatever a poll returns was computed for some id of the same slot |
| `IoRouting.DisciplinedSpaced` | kernel/src/cpu/io_router.rs:339-459 | the discipline implies the weaker spacing: earlier ids of the slot retired and their results stored |
| `IoRouting.SpacedRouting` | kernel/src/cpu/io_router.rs:260-297 | under that spacing every result taken for an id is the one computed for it, once |
| `IoRouting.WindowSpaced` | kernel/src/cpu/io_router.rs:339-459 | with ids handed out in increasing order, the spacing holds if all requests 64 or more ids back are retired and stored |
| `IoCrossing.UnroutableCrosses` | kernel/src/cpu/io_router.rs:339-413 | in any run, a submission that breaks the spacing has a continuation without new requests after which some poll has returned a result not computed for its id |
| `IoCrossing.RoutingExact` | kernel/src/cpu/io_router.rs:339-413 | after a well-spaced run a new request keeps all results with their ids, whatever follows short of further requests, if and only if the earlier ids of its slot are retired and stored |
| `IoCrossing.CongruentIdsCross` | kernel/src/cpu/io_router.rs:339-413 | the smallest case: one hart submits request 65 right after request 1 |
| `IoCrossing.DriveFetched` | kernel/src/cpu/io_router.rs:486-494 | from any ready state, and every reachable state is ready, the dispatcher can be driven until a given queued request is in its hands |
| `IoService.Completes` | kernel/src/cpu/io_router.rs:339-552 | in any run every request can be brought to completion without further requests |
| `IoService.Answered` | kernel/src/cpu/io_router.rs:260-297 | in any run an awaited request that was not handled yet can be answered with whatever its handler computes |
| `IoService.PollAlone` | kernel/src/cpu/io_router.rs:260-297 | after any run an undisturbed poll takes the slot's result and cleans the slot if the flag is up and a result there, and otherwise changes nothing |
| `IoService.RetireFrees` | kernel/src/cpu/io_router.rs:354-413 | giving up a submitted request that nobody polls changes nothing else, and ends it if it was completed |
| `RoundRobin.Fifo` | kernel/src/cpu/io_router.rs:486-494 | in every run what left a hart's queue is a prefix of what entered it, and the rest is the queue |
| `RoundRobin.BoundedBypass` | kernel/src/cpu/io_router.rs:486-494 | a request at position p is passed by fewer than (p+1)*n successful dequeues, with submissions going on, unless the cursor wraps meanwhile and n does not divide 2^64 |
| `RoundRobin.SweepVisits` | kernel/src/cpu/io_router.rs:486-494 | the turns of a sweep visit different harts if and only if the cursor does not wrap in it or n divides 2^64 |
| `RoundRobin.SweepExact` | kernel/src/cpu/io_router.rs:486-494 | a fruitless sweep means that all queues are empty if and only if the cursor is steady; otherwise some hart is missed |
| `RoundRobin.Scan` | kernel/src/cpu/io_router.rs:487-492 | the loop passes empty queues and stops at the first request or after n turns |
| `RoundRobin.Dispatcher.constructor` | kernel/src/cpu/io_router.rs:299-307 | queues empty, cursor 0 |
| `RoundRobin.Dispatcher.Sweep` | kernel/src/cpu/io_router.rs:486-494 | pops the first non-empty queue in cursor order; None with a steady cursor only if all are empty |
| `RoundRobin.Dispatcher.Dispatch` | kernel/src/cpu/io_router.rs:527-552 | processes each hart's requests in order and once, and leaves none if its last sweep was steady |
| `Listing.PrintListing` | kernel/src/cpu/io_router.rs:684-699 | the printing loop emits one line per entry in order |
| `Listing.LineRoundTrip` | kernel/src/cpu/fs_proxy.rs:364-390 | one printed line parses back into its entry, colons in the name and all |
| `Listing.ParseOther` | kernel/src/cpu/fs_proxy.rs:364-390 | a line without a colon is a name of size 0, and a name followed by something other than a number has size 0 |
| `Listing.ReturnIgnored` | kernel/src/cpu/fs_proxy.rs:367-368 | a carriage return before a newline is not part of the line |
| `Listing.ListingRoundTrip` | kernel/src/cpu/fs_proxy.rs:364-390 | parsing the printed listing gives the same names and sizes in the same order if and only if no name contains a newline |
| `Display.GrowCovers` | kernel/src/platform/d1_display.rs:79-87 | marking keeps what was covered and covers the visible part of the rectangle |
| `Display.MarkCovers` | kernel/src/platform/d1_display.rs:79-87 | on a clean screen a mark covers its visible rectangle if and only if neither 32-bit sum overflows |
| `Display.WriteCovers` | kernel/src/platform/d1_display.rs:394-414 | write_rect marks every pixel it may draw if and only if its coordinates do not overflow or overflow where nothing is drawn |
| `Display.WriteExact` | kernel/src/platform/d1_display.rs:394-414 | a full-mask write on a clean one-coloured screen leaves the buffers coherent under exactly that condition |
| `Display.WriteLoses` | kernel/src/platform/d1_display.rs:394-414 | two pixels at the last 32-bit column paint column 0 and the flush copies nothing |
| `Display.CursorColours` | kernel/src/platform/d1_display.rs:466-471 | byte 1 of a cursor is 0xFF000000, byte 2 is 0xFFFFFFFF, anything else transparent |
| `Display.FillSpan` | kernel/src/platform/d1_display.rs:266-283 | the paired and single writes fill exactly the span |
| `Display.NextRow` | kernel/src/platform/d1_display.rs:394-480 | painting one more row of an operation extends its first n rows to n + 1 |
| `Display.Screen.constructor` | kernel/src/platform/d1_display.rs:172-192 | both buffers opaque black, nothing dirty |
| `Display.Screen.MarkDirty` | kernel/src/platform/d1_display.rs:79-87 | exact new bounds; pixels owed by a batch inside them are paid |
| `Display.Screen.MarkAllDirty` | kernel/src/platform/d1_display.rs:91-99 | the bounds become the whole screen |
| `Display.Screen.SetPixel` | kernel/src/platform/d1_display.rs:212-226 | paints the one visible pixel; in batch mode it is owed a mark, otherwise the buffers stay coherent |
| `Display.Screen.PutPixel` | kernel/src/platform/d1_display.rs:314-324 | paints the one visible pixel and keeps the buffers coherent |
| `Display.Screen.ClearBack` | kernel/src/platform/d1_display.rs:230-253 | paints every pixel |
| `Display.Screen.FillHline` | kernel/src/platform/d1_display.rs:257-285 | paints exactly the visible part of the line |
| `Display.Screen.FillRect` | kernel/src/platform/d1_display.rs:289-297 | paints exactly the visible part of the rectangle |
| `Display.Screen.WriteRect` | kernel/src/platform/d1_display.rs:394-414 | paints exactly the visible masked pixels, columns wrapping at 32 bits; what the mark misses stays owed, and nothing does when the coordinates do not overflow |
| `Display.Screen.BlitRect` | kernel/src/platform/d1_display.rs:419-452 | paints exactly the visible pixels from the buffer, or nothing if the buffer is too short; nothing new is owed unless the marked rows wrap |
| `Display.Screen.DrawCursorBitmap` | kernel/src/platform/d1_display.rs:456-480 | paints exactly the visible border and fill pixels with their colour values, at negative coordinates too |
| `Display.Screen.ClearDisplay` | kernel/src/platform/d1_display.rs:671-692 | both buffers equal, first pixel opaque black, the rest zero |
| `Display.Screen.Flush` | kernel/src/platform/d1_display.rs:615-665 | front equals back wherever no mark is owed; the version counts flushes that copied |
| `Display.Screen.Frame` | kernel/src/platform/d1_display.rs:212-297 | after any sequence of drawing operations the partial flush shows exactly the painted picture, as a full copy would, except where an overflowing mark missed the drawing |
| `Display.Screen.Batch` | kernel/src/platform/d1_display.rs:129-137 | a batch of pixels is covered by one mark of a rectangle that contains the visible ones |
| `Virtqueue.SetupDescriptors` | kernel/src/virtio_input.rs:277-304 | descriptor i is offered in slot i, 64 in all |
| `Virtqueue.InvRun` | kernel/src/virtio_input.rs:307-387 | rings, wrapping indices, buffers and places agree in every run |
| `Virtqueue.DescriptorConserved` | kernel/src/virtio_input.rs:277-387 | each of the 64 descriptors is available, held, used or in the driver's hands: exactly one of these, and once |
| `Virtqueue.NoOverwrite` | kernel/src/virtio_input.rs:371-387 | re-adding writes no slot of an unconsumed entry; the device's used slot holds no unread entry |
| `Virtqueue.EventsInOrder` | kernel/src/virtio_input.rs:307-359 | delivered plus queued events are exactly the key and position events the device sent, in its order |
| `Virtqueue.PollComplete` | kernel/src/virtio_input.rs:326-356 | a poll ends exactly when it has examined every event returned before it began, across index wrap-around |
| `Virtqueue.PollCall` | kernel/src/virtio_input.rs:307-368 | whatever the device does meanwhile, a poll that returns has queued exactly the wanted events sent before it began, in order |
| `Virtqueue.PollEnds` | kernel/src/virtio_input.rs:325-356 | a poll is over after exactly five steps per unexamined event sent before it began and one more, however fast the device sends |
| `Virtqueue.PollAlone` | kernel/src/virtio_input.rs:307-368 | after any run an undisturbed poll returns with exactly the wanted events that were sent |
| `Virtqueue.NextEventPops` | kernel/src/virtio_input.rs:390-392 | next_event hands over the head of the queue, and nothing if and only if the queue is empty |
| `Virtqueue.AllDelivered` | kernel/src/virtio_input.rs:307-392 | a poll followed by next_event until the queue is empty has delivered every wanted event ever sent, in order |
| `Virtqueue.FilterIs` | kernel/src/virtio_input.rs:347-350 | the wanted events are those of kinds 1 and 3, in order |
| `Virtqueue.EventSent` | kernel/src/virtio_input.rs:277-304 | a device that writes an event into a buffer it holds and returns the buffer has sent that event |
| `Virtqueue.NeverStarved` | kernel/src/virtio_input.rs:371-387 | once the driver has caught up, every descriptor that the device does not hold can be consumed |
| `RunQueues.InsertSorted` | kernel/src/cpu/sched.rs:62-75 | inserting before the first lower priority keeps priority order and enqueue order among equals |
| `RunQueues.SortedUnique` | kernel/src/cpu/sched.rs:62-75 | the queued processes alone determine the order of the queue |
| `RunQueues.RunQueue.constructor` | kernel/src/cpu/sched.rs:55-59 | a new queue is empty |
| `RunQueues.RunQueue.Enqueue` | kernel/src/cpu/sched.rs:62-75 | the process joins at its place, the others keep theirs |
| `RunQueues.RunQueue.Dequeue` | kernel/src/cpu/sched.rs:78-86 | returns the earliest-enqueued of the highest-priority ready processes, None only if none is ready, and leaves the others in order |
| `RunQueues.RunQueue.Remove` | kernel/src/cpu/sched.rs:94-100 | removes the first entry with the pid, None if and only if there is none |
| `RunQueues.RunQueue.Steal` | kernel/src/cpu/sched.rs:103-111 | takes the last in line if and only if another stays |
| `Scheduler.InsertPinned` | kernel/src/cpu/sched.rs:309-323 | a queue stays free of foreign pinned processes exactly if the inserted one may run there |
| `Scheduler.LeastLoadedUnique` | kernel/src/cpu/sched.rs:411-454 | the choice is unique, and hart 0 only if no other hart is ready and idle |
| `Scheduler.Scheduler.constructor` | kernel/src/cpu/sched.rs:192-195 | at least one hart, all queues empty |
| `Scheduler.Scheduler.Enqueue` | kernel/src/cpu/sched.rs:309-323 | one copy in each queue of the clamped target; affinity is kept exactly if the process may run there |
| `Scheduler.Scheduler.FindLeastLoaded` | kernel/src/cpu/sched.rs:411-454 | first idle ready hart other than 0, else a shortest eligible queue, highest number on ties |
| `Scheduler.Scheduler.SpawnOnCpu` | kernel/src/cpu/sched.rs:220-299 | a floating process goes to the least loaded hart, a pinned one to its hart or, if there is none, the last; the affinity invariant is kept if and only if the affinity is none or below num_cpus |
| `Scheduler.Scheduler.Requeue` | kernel/src/cpu/sched.rs:392-406 | a pinned process returns to its hart's queues, a floating one goes to the least loaded hart |
| `Scheduler.Scheduler.StealFrom` | kernel/src/cpu/sched.rs:352-372 | exact effect of one theft attempt: taken, put back, lost race, or empty |
| `Scheduler.Scheduler.PickLocal` | kernel/src/cpu/sched.rs:328-332 | first ready process of the own queue, and the newest steal entry dropped |
| `Scheduler.Scheduler.Steal` | kernel/src/cpu/sched.rs:340-386 | the scan takes from the first hart in turn that has something to take, with the exact effect on every hart |
| `Scheduler.Scheduler.PickNext` | kernel/src/cpu/sched.rs:326-386 | the own first ready process, else the head of the first hart in turn that has a usable one, the harts passed by changed only by putting back what may not run here; never from hart 0; None if and only if nothing is ready locally and no uncontended victim has a usable head |
| `Scheduler.Scheduler.Kill` | kernel/src/cpu/sched.rs:479-503 | the first copy in every run queue is removed, affinity and order are kept |
| `Scheduler.Scheduler.Exit` | kernel/src/cpu/sched.rs:506-532 | a restarting daemon comes back as a new floating process on the least loaded hart |
| `Scheduler.Scheduler.RunAll` | kernel/src/cpu/sched.rs:220-532 | after any sequence of operations with affinities fixed at spawn and below num_cpus, every queued copy of a pinned process is in its hart's queues, the run queues are in order, and no hart was given a process it may not run |
| `TcpChecksum.FoldIs` | kernel/src/net/patching.rs:187-190 | folding is reduction modulo 2^16 - 1, with 0 only for 0 |
| `TcpChecksum.CoveredIs` | kernel/src/net/patching.rs:163-185 | what is summed are the words of the pseudo-header's bytes (addresses, zero, 6, length) and of the segment |
| `TcpChecksum.SumPatched` | kernel/src/net/patching.rs:192-195 | filling the zeroed field adds exactly the checksum to the sum, for odd lengths too |
| `TcpChecksum.ComplementCloses` | kernel/src/net/patching.rs:187-192 | the total plus the complement of its folded 32-bit sum folds to 0xFFFF if and only if the sum wrapped a multiple of 2^16 - 1 times |
| `TcpChecksum.AddSegment` | kernel/src/net/patching.rs:176-185 | the loop computes the sum of the padded words modulo 2^32 |
| `TcpChecksum.FoldSum` | kernel/src/net/patching.rs:187-190 | the fold loop terminates with the folded sum |
| `TcpChecksum.SumFrame` | kernel/src/net/patching.rs:163-185 | pseudo-header and segment summed modulo 2^32 |
| `TcpChecksum.Recalculate` | kernel/src/net/patching.rs:158-196 | only the two checksum bytes change; afterwards pseudo-header and segment, checksum included, fold to 0xFFFF if and only if the 32-bit sum wrapped a multiple of 2^16 - 1 times, and always for frames of up to 131056 bytes |
| `Dns.JoinPieces` | kernel/src/dns.rs:72-88 | the pieces contain no dot and, joined by dots, are the hostname |
| `Dns.EncodeDomainName` | kernel/src/dns.rs:72-88 | the loop appends the QNAME of the hostname |
| `Dns.QnameRoundTrip` | kernel/src/dns.rs:72-88 | anywhere in a packet the QNAME decodes to exactly the pieces of length 1 to 63 |
| `Dns.SkipName` | kernel/src/dns.rs:210-236 | the loop computes the position after the name, or the error, and moves forward |
| `Dns.SkipAgrees` | kernel/src/dns.rs:210-236 | skipping stops exactly where the decoded name ends |
| `DnsResponse.ParseResponse` | kernel/src/dns.rs:104-206 | in bounds on every packet, and equal to the parser's specification |
| `DnsResponse.ReadAnswers` | kernel/src/dns.rs:156-199 | the answer loop collects what the records hold, or the first error |
| `DnsResponse.SkipWire` | kernel/src/dns.rs:210-236 | every well-formed name is skipped exactly, compressed or not |
| `DnsResponse.ResponseRead` | kernel/src/dns.rs:104-206 | on every well-formed response the result is exactly the A/IN addresses in order, else the error or not-found its header demands; another transaction id is WrongId |
| `DnsResponse.BuildQuery` | kernel/src/dns.rs:38-68 | the packet is the message with one A/IN question for the hostname |
| `DnsResponse.QueryNames` | kernel/src/dns.rs:38-68 | a server reads the hostname's labels at offset 12 and four bytes follow |
| `DnsResponse.QueryWords` | kernel/src/dns.rs:38-68 | it reads flags 256, counts 1, 0, 0, 0, type 1 and class 1 |
| `DnsTruncation.QuestionCut` | kernel/src/dns.rs:145-156 | a question that is cut off is an error, "Truncated question" if its name is whole |
| `DnsTruncation.RecordCut` | kernel/src/dns.rs:163-185 | a record that is cut off is an error that tells whether its name, head or data was cut |
| `DnsTruncation.CutInQuestions` | kernel/src/dns.rs:104-156 | a response cut within its header or questions is an error |
| `DnsTruncation.CutInAnswers` | kernel/src/dns.rs:156-206 | a response cut within its answers is an error if a record is cut in two, else exactly the addresses of the records left |
| `Vfs.NormalizeKeeps` | kernel/src/fs/vfs.rs:75-89 | normalising only touches slashes at the ends and leaves normal paths alone |
| `Vfs.NormalizePath` | kernel/src/fs/vfs.rs:75-89 | the loop computes the normal form |
| `Vfs.ResolveFinds` | kernel/src/fs/vfs.rs:100-122 | the first match is the longest mount point that is a component-boundary prefix; None only if none is |
| `Vfs.OrderIrrelevant` | kernel/src/fs/vfs.rs:75-122 | routing depends on what is mounted, not on the order of mounting |
| `Vfs.Rebuilds` | kernel/src/fs/vfs.rs:100-122 | mount point and relative path rebuild the path if and only if it is not the mount point with a slash appended; the mount point itself is "/" |
| `Vfs.CoversIs` | kernel/src/fs/vfs.rs:100-122 | a mount covers itself and what continues it with a slash; the root covers everything |
| `Vfs.ShownIsChild` | kernel/src/fs/vfs.rs:156-212 | a mount shows up in a directory exactly as its child on the way there: "/c/" in the root, "c/" elsewhere, stated on the paths themselves |
| `Vfs.Table.constructor` | kernel/src/fs/vfs.rs:66-68 | nothing mounted |
| `Vfs.Table.MountAt` | kernel/src/fs/vfs.rs:75-97 | the normalised mount joins the table, longest first |
| `Vfs.Table.MountAll` | kernel/src/fs/vfs.rs:75-97 | a sequence of mounts yields exactly their normal forms in order of length |
| `Vfs.Table.ResolveMut` | kernel/src/fs/vfs.rs:100-122 | the loop returns the longest covering mount and the path relative to it, None if and only if nothing covers the path |
| `Vfs.Table.ListDir` | kernel/src/fs/vfs.rs:151-234 | what the longest mount covering the directory lists for it, followed once by each child directory on the way to a mount that is not listed yet |

## Left out

- Weak memory orderings and fences: steps are sequentially consistent.
- Integer widths of the deque's `isize` indices and of request ids: unbounded, so 2^63 pushes and 2^64 requests are out of scope.
- Torn slot accesses in the deque: a slot read or write is one step, and a thief whose compare-and-swap will fail may read an uninitialised slot.
- Timeouts, IPIs, `wfi` and task wake-up: giving up is a step that may happen at any time.
- `handle_request` and the device drivers behind it: its result is an input of the step.
- The interleaved steps of the deques inside the scheduler: an operation on a steal queue is one step there, and which steals lose their race is an input; the deque itself is in `ChaseLev.dfy`.
- Any claim that steal queues mirror run queues or that a process runs on one hart at a time: the code does not keep either.
- The process table and process states: which processes are ready is an input of the operations.
- UTF-8 validity of names: names are byte or character sequences.
- Bounding allocated sectors by the image size, and a check of the 448-entry limit: the builder makes neither.
- SfsReader.BuildAndRead: requires names without zero bytes and not empty, as on the host, and an image of at least one megabyte.
- The kernel's buffer cache, file writing and deletion: only reading is modelled.
- `is_dir` in delegated listings: it is derived again from a trailing slash and may differ from the local answer.
- Colour packing, reading pixels back, and the frame version's copy in memory: plumbing around the buffers.
- Screen sizes other than 1024 by 768: the odd-pixel branch of `clear` cannot be reached.
- Display.Screen.WriteRect: requires widths of at most 2^32; wider ones would draw a column twice.
- Display.Screen.BlitRect: requires that a row that is drawn does not overflow 32 bits, which takes a source buffer of at least 2^32 - 1024 pixels; the code then copies past the end of the row.
- Display.Screen.DrawCursorBitmap: requires a byte for every visible pixel, without which the code panics, and a far corner within 32 bits.
- TcpChecksum.Recalculate: requires both headers in range, without which the code panics, and states nothing about the sum when the checksum field overlaps the addresses of the IP header.
- Name length limits of 255 bytes and decompression of DNS names: the client neither checks nor follows them.
- `exists`, `is_dir`, `remove`, `sync` and `mkdir` of the VFS: they forward to the resolved file system.
- TLS, WASM host functions, smoltcp state, device tree, MMIO drivers, boot and UI code: hardware and library plumbing.
