# Verification of the telemetry pipeline

The program takes 32-byte telemetry frames over TCP in one process (the Server), moves them through a
lock-free single-producer single-consumer ring in shared memory, and appends them to a rotating, synced
file in another process (the Reader). Two eventfd counters carry the wakeups. This project models that
data path and proves that no frame is lost, duplicated, reordered or invented on it.

Run `dafny verify dfyconfig.toml` to check everything.

## What is modelled

There are two layers, tied together.

**The system as a whole** is a transition system (`Spsc`, `Pipeline`). Each atomic load, each frame
copy, each atomic store, each notice and each wait is a step, and the steps of the two processes, of the
end of `main` and of arriving signals interleave in any order. Capacity, watermarks and batch sizes are
symbolic (`Good` says what must hold between them) and are instantiated in `BuiltSizes` and `Program`.
`PipelineSafety` holds the inductive invariant, `PipelineTheorems` what follows from it in every run,
`PipelineProgress` that no reachable state is stuck with work left, and `PipelineDrain` that draining
ends.

**The code of each process** is imperative: `SharedRingBuffer` (real array, 64-bit wrapping counters,
one or two range copies), `Codec`, `Buffer`, `Server`, `Reader`, `FileStore` and the end of `main`. They
are proved against the first layer:

- A ring method takes each of its steps as a step of `Spsc` on a ghost copy of the ring. Before each
  access to shared memory it calls `ConsumerRuns` or `ProducerRuns`, whose contracts allow everything
  the other process may do at that point (`Spsc.StepsAct`: any number of its steps is covered). So what
  is proved of a method is proved of it under any interleaving.
- The ring's methods and the eventfds write what a process does on that process's own tape: every ring
  call with its result, every notice given and consumed, the close. `Server` and `Reader` carry a ghost
  automaton, `Pipeline.Server` and `Pipeline.Reader`. The ghost method `Move` demands that each change
  of it is a legal move, and `Follows` that the moves show exactly what is on the tape, in the same
  order. A notice given before the push it announces, or a size that the ring did not return, breaks it.
  The signals and events on the server's path are those that reads of the signalfd and `epoll_wait`
  returned (`Kernel.System.delivered` and `reports`, `Handled`).
- `Composition.Join` puts the layers together: a path of the server's automaton and one of the reader's,
  taken in any order that the ring, the eventfds, the signalfd and `main` allow, are a run of the system.
  `Program.ExitZero` draws the conclusion for a `Server` object and a `Reader` object.
- `FileStore.AppendFrames` is proved equal to appending frame by frame (`StoreModel.AppendEach`), and
  `Directory.Disk` records the directory after every system call and after every byte written, so that
  "stopped at any moment" is a statement on all recorded states.

A call that fails is counted by the environment that fails it (`Disk.failures`, `EventFd.refused`,
`System.refusals` and `System.faults`, `SharedRingBuffer.refusals`). The contracts of the methods say in
these terms when they may fail, so that a method that gives up for no reason does not meet them.

Main results, by part:

- *Ring*: indices stay ordered and no unsigned subtraction underflows in any interleaving; slots being
  written are never slots that may be read; the ring is a queue in which a batch appears or disappears
  at exactly one store; a batch transfer equals frame-by-frame transfer; 64-bit wrap-around changes
  nothing because the capacity divides 2^64.
- *System*: every pushed frame is, at every moment, in exactly one of storage, staging batch, reader's
  hand and ring; if both processes sleep, the ring is empty, ingress is open and all is stored; pushes
  are never cut short; exit code zero means that exactly what was pushed is stored and durable.
- *Server*: each client contributes exactly the longest valid whole-frame prefix of the bytes received
  from it, however they were cut and whatever other clients did in between; epoll holds exactly the
  clients while ingress is open, and none while it is paused; the buffer limit, the "ring full" error
  and the double ADD or DEL are unreachable.
- *Storage*: chunked appending is frame-by-frame appending with the same syncs and rotations; stopping
  anywhere and reopening yields the whole frames of a prefix of what was written; archived segments are
  durable to the last byte.
- *Codec*: encoding and decoding are mutually inverse; accepted frames are exactly the encoded ones.

One property does not hold without a condition. An archive's name is made of the clock reading and a
sequence number that starts at 0 in every run, and `renameat` replaces an existing file. If the clock is
set back, a rotation can destroy a segment of an earlier run (`FileStorage.CollidingRename`,
`FileStorage.RotationReplaces`). The condition is one on the directory at the start of a run:
`ArchiveName.FreeFor`, no archive name that the run could choose is taken. It is exact: it holds if and
only if no sequence of rotations, at any clock readings, replaces a file (`ArchiveName.FreeIsExact`). A
clock that is not set back satisfies it (`ArchiveName.ClockNotSetBack`). `FileStore` and `Reader` keep
it through every method (`FileStore.Undisturbed`), so a store that starts with it never overwrites an
archive, its own included.

## Model

| member | source | states |
|---|---|---|
| RingCounters.SlotIsRemainder | Ipc/src/SharedRingBuffer.cpp:143 | the recursive slot function, on which the ring proofs rest, is `index % capacityFrames` |
| RingCounters.SlotDistinct | Ipc/src/SharedRingBuffer.cpp:143-150 | counters less than a capacity apart use different slots |
| RingCounters.SlotRanges | Ipc/src/SharedRingBuffer.cpp:143-150 | consecutive counters use consecutive slots up to the end of the array and then those from zero: the two ranges of a batch copy |
| RingCounters.WrappedSlot | Ipc/include/SharedRingBuffer.hpp:17-21 | a 64-bit wrapped counter selects the slot of the unbounded one, because the capacity divides 2^64 |
| RingCounters.WrappedDistance | Ipc/src/SharedRingBuffer.cpp:134-137 | the wrapped difference of two counters is their true distance, across overflow |
| RingCounters.WrappedAdd | Ipc/src/SharedRingBuffer.cpp:154 | storing the wrapped sum keeps the stored counter equal to the unbounded one modulo 2^64 |
| Spsc.ProducerNext | Ipc/src/SharedRingBuffer.cpp:125-156 | the producer's atomic steps: closed flag, head, tail, each frame copy, the one publishing store |
| Spsc.ConsumerNext | Ipc/src/SharedRingBuffer.cpp:158-208 | the consumer's atomic steps: tail, head, each frame copy, the one releasing store; closed flag; size |
| Spsc.InFlightSlotsDisjoint | Ipc/src/SharedRingBuffer.cpp:143-150 | with indices of any age, a slot that a push may still write holds no frame that the consumer may read |
| Spsc.ProducerStepRefines | Ipc/src/SharedRingBuffer.cpp:125-156 | every producer step keeps the invariant, and the queue changes only at the store of head, by exactly the whole batch at its end |
| Spsc.ConsumerStepRefines | Ipc/src/SharedRingBuffer.cpp:158-187 | every consumer step keeps the invariant, and the queue changes only at the store of tail, by exactly the frames returned, from its front |
| Spsc.RunIsSafe | Ipc/src/SharedRingBuffer.cpp:125-208 | in every state of every interleaving tail <= head <= tail + capacity, readable slots hold the unreleased history, and no subtraction or copy is out of range |
| Spsc.RunOnlyExtends | Ipc/src/SharedRingBuffer.cpp:152-155 | over any part of any run, published frames are neither withdrawn nor reordered and released slots stay released |
| Spsc.StepsAct | Ipc/src/SharedRingBuffer.cpp:125-241 | any number of steps of one process is covered by what the other one's methods assume of it |
| RingBatches.PushBatchIsPushEach | Ipc/src/SharedRingBuffer.cpp:70-156 | one batch push leaves the same slots, head and history as offering its frames to the scalar push one by one |
| RingBatches.PopBatchIsPopEach | Ipc/src/SharedRingBuffer.cpp:99-187 | one batch pop returns the same frames and leaves the same tail as scalar pops, and takes them from the front of the queue |
| SharedRing.SharedRingBuffer.Create | Ipc/src/SharedRingBuffer.cpp:49-68 | maps an empty ring once, refuses a second time, and fails otherwise only if `mmap` does |
| SharedRing.SharedRingBuffer.TryPushBatch | Ipc/src/SharedRingBuffer.cpp:125-156 | under any interference, the array and wrapped counters end as an uninterrupted batch push does with a tail value that was current during the call; refused without a mapping, without frames, or when closed |
| SharedRing.SharedRingBuffer.TryPush | Ipc/src/SharedRingBuffer.cpp:70-97 | the scalar push, with its own test for room, does what a batch push of one does |
| SharedRing.SharedRingBuffer.TryPopBatch | Ipc/src/SharedRingBuffer.cpp:158-187 | under any interference, returns exactly the oldest frames, as many as were published when head was loaded and fit; none only if the ring was empty then |
| SharedRing.SharedRingBuffer.TryPop | Ipc/src/SharedRingBuffer.cpp:99-122 | the scalar pop, with its own test that the indices differ, returns the oldest frame, or fails and leaves the output alone if the ring was empty when head was loaded |
| Kernel.EventFd.Notify | Ipc/src/EventFd.cpp:11-23 | a notice that succeeds follows, on its process's tape, what that process did on the ring before |
| SharedRing.SharedRingBuffer.PendingForProducer | Ipc/src/SharedRingBuffer.cpp:189-208 | the size a producer sees may be too large, never too small |
| SharedRing.SharedRingBuffer.PendingForConsumer | Ipc/src/SharedRingBuffer.cpp:189-218 | the size a consumer sees is exact at the load of head and never too large |
| SharedRing.SharedRingBuffer.CloseProducer | Ipc/src/SharedRingBuffer.cpp:225-232 | sets the flag and changes nothing else |
| SharedRing.SharedRingBuffer.ProducerClosed | Ipc/src/SharedRingBuffer.cpp:234-241 | a flag set before the call is seen; a flag seen is set for good |
| Codec.WriteU16 | Protocol/src/TelemetryCodec.cpp:25-30 | writes the two big-endian bytes and nothing else |
| Codec.WriteU32 | Protocol/src/TelemetryCodec.cpp:32-41 | writes the four big-endian bytes and nothing else |
| Codec.WriteU64 | Protocol/src/TelemetryCodec.cpp:43-50 | the shifting loop writes the eight big-endian bytes and nothing else |
| Codec.ReadU64 | Protocol/src/TelemetryCodec.cpp:74-85 | the loop yields the 64-bit number of the eight bytes |
| Codec.Roundtrip64 | Protocol/src/TelemetryCodec.cpp:43-85 | reading what was written gives every 64-bit pattern back |
| Codec.Unique64 | Protocol/src/TelemetryCodec.cpp:43-85 | writing what was read gives every eight bytes back |
| Codec.Encode | Protocol/src/TelemetryCodec.cpp:89-110 | fills a frame with exactly the encoding of the record |
| Codec.DecodeFrame | Protocol/src/TelemetryCodec.cpp:112-144 | decides size, magic, version and declared size in this order (`WhyRejected`), and reads the fields (`FieldOffsets`) |
| Codec.WhyRejected | Protocol/src/TelemetryCodec.cpp:112-129 | which error a span of bytes is answered with, in terms of its length and its first eight bytes: the first check that fails decides |
| Codec.FieldOffsets | Protocol/src/TelemetryCodec.cpp:89-144 | each field of an accepted frame stands at its offset, most significant byte first |
| Codec.DecodeEncoded | Protocol/src/TelemetryCodec.cpp:89-144 | decode(encode(r)) = r for every bit pattern of every field |
| Codec.EncodeDecoded | Protocol/src/TelemetryCodec.cpp:89-144 | encode(decode(f)) = f for every accepted f |
| Codec.WellFormedIsImage | Protocol/src/TelemetryCodec.cpp:89-144 | accepted frames are exactly the encodings of records |
| Codec.WellFormedIsHeader | Protocol/src/TelemetryCodec.cpp:112-129 | acceptance is exactly 32 bytes beginning with the eight header bytes |
| ClientBuffer.Buffer.Compact | Server/include/Buffer.hpp:23-42 | unread bytes are kept; the consumed ones are dropped exactly when nothing is unread or the threshold is reached, so fewer than the threshold are left |
| ClientBuffer.Buffer.PendingBytes | Server/include/Buffer.hpp:11-21 | is the number of unread bytes, zero exactly when empty, for any offset |
| Reassembly.FramesIsMaximalPrefix | Server/src/Server.cpp:381-407 | the frames taken from a byte stream are its maximal valid whole-frame prefix, and no other sequence is |
| Reassembly.FramesAppend | Server/src/Server.cpp:369-431 | bytes that come later add the frames of leftover ++ new bytes, and none after a malformed frame |
| Reassembly.FragmentationIndependent | Server/src/Server.cpp:353-457 | for every way to cut a stream into receives, the client contributes the maximal valid prefix of the whole and is closed exactly if a malformed frame came |
| Interleaving.SelectBatch | Server/src/Server.cpp:409-415 | pushing a batch of one connection extends the frames of that connection and of no other |
| Interleaving.HistoryOfReceive | Server/src/Server.cpp:353-457 | publishing the valid prefix of leftover ++ received keeps, for all connections, "published = maximal valid prefix of what was received" |
| Interleaving.HistoryIsReadable | Server/src/Server.cpp:409-415 | every frame published is well-formed, so the bytes of the ring's history can be cut into frames in one way only |
| Ingress.ScanFrames | Server/src/Server.cpp:381-407 | the scanning loop finds exactly the valid prefix, where it ends, and whether a malformed frame ended it |
| Ingress.PushedAll | Server/src/Server.cpp:409-426 | below the pause mark, a push of one receive's frames is never cut: the "ring full" branch is dead |
| Ingress.Server.PushFrames | Server/src/Server.cpp:409-415 | the push appears on the tape, and the automaton moves, with the frames and the result of the call |
| Ingress.Server.NotifyPublished | Server/src/Server.cpp:361-367 | the notice comes after the push it announces, on the tape as in the automaton, and fails only if the eventfd refuses it |
| Ingress.SignalsDecide | Server/src/Server.cpp:114-150 | on every path of the server: draining needs a shutdown among the signals read, and once the end of the reader is read only failure is left |
| Ingress.Server.PublishPrefix | Server/src/Server.cpp:369-431 | after one receive the ring's history has grown by the valid frames, the buffer holds the rest, storage stayed within 4095 + 31 + 4096 bytes, and the 64 KiB rejection was not needed |
| Ingress.Server.PauseWanted | Server/src/Server.cpp:428-430 | a pause is requested exactly if the size that the ring returned after the push is at least 3 MiB |
| Ingress.Server.FinishReceive | Server/src/Server.cpp:433-454 | one notice for one publishing receive, also before a protocol error closes the client; fatal exactly if the notice was refused; then the buffer is compacted below 4096 + 31 bytes |
| Ingress.Server.ReceiveChunk | Server/src/Server.cpp:356-457 | a receive affects one client only, closes it exactly if its bytes are malformed, and ends with a steady server; without a pause request there is room for another receive |
| Ingress.Server.ReadClient | Server/src/Server.cpp:338-485 | fails exactly if a notice was refused; the client is closed exactly if it sent a malformed frame or its connection ended or failed, and otherwise read until `recv` has nothing more, unless ingress must pause |
| Ingress.Server.UpdateIngressInterest | Server/src/Server.cpp:638-670 | moves all clients into or out of epoll; never meets one already there or missing: it fails exactly if the kernel refuses a call |
| Ingress.Server.PauseIngress | Server/src/Server.cpp:266-278 | pausing leaves epoll without clients and the listener without input events; it fails exactly if the kernel refuses |
| Ingress.Server.ResumeIngress | Server/src/Server.cpp:235-247 | resumes exactly if the size that the ring returned is at most 1 MiB, puts exactly all clients back, and leaves room; fails exactly if the kernel refuses |
| Ingress.Server.Admit | Server/src/Server.cpp:308-323 | a new descriptor is never in epoll already; it becomes a client with nothing received exactly if epoll does not refuse it, and is closed otherwise |
| Ingress.Server.AcceptClients | Server/src/Server.cpp:299-336 | ends when no connection waits, or fails exactly if `accept4` does; no client is dropped, and every connection accepted is a client but those that epoll refused |
| Ingress.Server.RemoveClient | Server/src/Server.cpp:487-494 | the client leaves the map, epoll and the sockets, also when epoll had lost it before |
| Ingress.Server.RemoveAllClients | Server/src/Server.cpp:496-503 | no client is left, in or out of epoll |
| Ingress.Server.HandleListenEvent | Server/src/Server.cpp:214-227 | with open ingress accepts until no connection waits; fails exactly on a failed `accept4` or an error event |
| Ingress.Server.HandleSpaceEvent | Server/src/Server.cpp:229-256 | consumes the notice and resumes only when running, paused and drained enough; fails exactly if a call was refused or an error is reported |
| Ingress.Server.HandleClientEvent | Server/src/Server.cpp:258-297 | while paused, no event of a client, stale or not, reads or closes it; otherwise it is closed exactly if it sent a malformed frame, its connection ended, or a hangup is reported; no other client is touched |
| Ingress.Server.HandleSignalFd | Server/src/Server.cpp:537-622 | reads all signals, those that arrive while it reads included; a shutdown is requested exactly if SIGINT or SIGTERM is among them, the reader has ended exactly if SIGCHLD says that it exited, was killed or dumped core; fails exactly if a read does |
| Ingress.Server.ActOnSignals | Server/src/Server.cpp:515-526 | the end of the reader outranks a shutdown request; otherwise the request starts draining |
| Ingress.Server.BeginDraining | Server/src/Server.cpp:624-636 | neither listener nor client is left, so nothing is accepted or read any more |
| Ingress.Server.HandleSignalEvent | Server/src/Server.cpp:505-535 | fails exactly on a failed read, an end of the reader, or an error event; SIGINT or SIGTERM starts draining, and nothing else does |
| Ingress.Server.BeforeWait | Server/src/Server.cpp:115-121 | a draining server ends with success exactly when its size check finds the ring empty |
| Ingress.Server.Round | Server/src/Server.cpp:114-151 | one round of the loop keeps the server valid, for any events in any order; it gives up only if a call failed, an error was reported on a descriptor of its own, or the end of the reader was delivered |
| Ingress.Server.Await | Server/src/Server.cpp:121-131 | every event that `epoll_wait` returned is taken up, in order, and no other |
| Ingress.Server.HandleEvents | Server/src/Server.cpp:133-150 | handles all events of a wait, in order; clients without an event in it are kept |
| Ingress.Server.RecvFrom | Server/src/Server.cpp:353-371 | what `recv` returned is exactly what is still to be handled, as bytes of the right connection; an end, an error or nothing to read is noted for that connection |
| Ingress.Server.Run | Server/src/Server.cpp:47-161 | success needs SIGINT or SIGTERM among the signals that reads of the signalfd returned, no SIGCHLD that says the reader ended, and an emptied ring; failure needs a failed call, a reported error or an end of the reader; in all cases neither listener nor client is left, and each connection's frames in the ring are the maximal valid prefix of all that `recv` returned for it |
| Pipeline.ServerMove | Server/src/Server.cpp:114-457 | the server as an automaton: what each step may do next, with the ring calls and notices as visible actions |
| Pipeline.ReaderMove | Reader/src/Reader.cpp:41-132 | the reader as an automaton, storage errors included |
| Pipeline.AfterSignals | Server/src/Server.cpp:505-526 | what one batch of signals makes of the server |
| Pipeline.MainDoes | src/main.cpp:161-210 | close, notify or kill, wait, combine the results |
| PipelineTheorems.StepKeeps | Server/src/Server.cpp:114-457 | the invariant (shapes, room, conservation, owed wakeups, ready events, endings) is kept by every step of every process and of the environment |
| PipelineTheorems.RunKeeps | src/main.cpp:161-210 | hence it holds in every state of every run |
| PipelineTheorems.EveryFrameInOnePlace | Reader/src/Reader.cpp:41-126 | pushed = stored ++ staged ++ in hand ++ ring contents, in order, at every step without a reader failure |
| PipelineTheorems.StoredIsAlwaysPrefix | Reader/src/Reader.cpp:41-50 | even with storage errors, stored is a prefix of pushed, and every pushed frame is valid |
| PipelineTheorems.NoInvalidFrame | Reader/src/Reader.cpp:54-64 | the reader never meets a frame the codec rejects |
| PipelineTheorems.PushesAreNeverCut | Server/src/Server.cpp:409-431 | the ring never overflows and every push publishes all its frames |
| PipelineTheorems.BothAsleepMeansIdle | Reader/src/Reader.cpp:88-132 | if both processes sleep with counters zero, ingress is open, the ring is empty and everything is stored: no wakeup is lost |
| PipelineTheorems.ReaderHearsTheClose | src/main.cpp:161-168 | while main waits for the reader after its notice, the reader is not asleep with counter zero |
| PipelineTheorems.ReaderSuccessMeansAllStored | Reader/src/Reader.cpp:107-126 | when the reader succeeds, all that was ever pushed is stored and synced, and nothing is pushed afterwards, for every interleaving with the last push and the close |
| PipelineTheorems.ClosedForGood | Ipc/src/SharedRingBuffer.cpp:225-241 | once closed, no run publishes another frame |
| PipelineTheorems.SuccessMeansEverythingStored | src/main.cpp:161-210 | exit code zero: shutdown delivered, reader's end not, ring empty, stored and synced exactly what was pushed |
| PipelineTheorems.ServerSuccess | Server/src/Server.cpp:114-150 | the server's success: shutdown delivered, no reader termination in any batch processed, ring empty |
| PipelineProgress.NeverStuck | Server/src/Server.cpp:229-247 | in every reachable state without failure, some process can take a step that does not fail, unless the program ended or is idle with everything stored |
| PipelineDrain.DrainingPushesNothing | Server/src/Server.cpp:624-636 | once draining, always draining, and head never moves again |
| PipelineDrain.DrainingWorkDecreases | Server/src/Server.cpp:114-150 | while draining, every step of work of either process lowers one lexicographic measure over ring frames, frames in hand, owed notices and counters |
| PipelineDrain.DrainingEnds | Server/src/Server.cpp:114-150 | every infinite run of work without failure, with any finite number of further signals, brings the server to success, whichever process moves when; waits report no socket that was taken out of epoll |
| PipelineDrain.ShutdownEnds | src/main.cpp:161-210 | every such run reaches the exit of main, with both processes successful and everything pushed stored and durable |
| StoreModel.AppendEachSplits | Storage/src/FileStore.cpp:58-130 | appending a concatenation is appending its parts in turn |
| StoreModel.BatchingDoesNotMatter | Storage/src/FileStore.cpp:58-130 | every split of a stream into batches gives the same archives, active file, counters, syncs and rotations |
| StoreModel.ChunkIsAppendEach | Storage/src/FileStore.cpp:81-126 | a chunk within the segment and the rounded-up sync distance, written at once with one sync check, is its frames appended one by one |
| StoreModel.AppendEachExtendsStream | Storage/src/FileStore.cpp:58-130 | archives ++ active file grow by exactly the bytes appended |
| StoreModel.AppendEachKeepsDurable | Storage/src/FileStore.cpp:85-151 | the unsynced count is the bytes appended since the last sync, a multiple of 32, below the sync distance after every append; every rotation directly follows a sync |
| StoreModel.AppendEachIsDue | Storage/src/FileStore.cpp:85-126 | a sync that belongs to no rotation comes when at least the sync distance has been written since the last, and never if the distance is zero: no more syncs than asked for |
| StoreModel.ArchiveSizes | Storage/src/FileStore.cpp:72-119 | every archive has exactly the maximal size, but for the file found at open when it was larger |
| ArchiveName.DecimalInjective | Storage/src/FileStore.cpp:365-366 | different numbers have different decimal texts |
| ArchiveName.DecimalIsNumeral | Storage/src/FileStore.cpp:365-366 | the text of a number is its decimal numeral: digits only, without leading zeros, of that value |
| ArchiveName.NameIsText | Storage/src/FileStore.cpp:365-366 | the archive name is file, seconds, nanoseconds and sequence number, separated by dots, and `.segment` |
| ArchiveName.NameInjective | Storage/src/FileStore.cpp:356-367 | archive names are equal exactly if seconds, nanoseconds and sequence number are |
| ArchiveName.NameIsNotActive | Storage/src/FileStore.cpp:356-367 | an archive never takes the active file's name |
| ArchiveName.RotationKeepsFree | Storage/src/FileStore.cpp:314-318 | a rotation leaves all names free that later rotations can choose: a store never meets its own archives |
| ArchiveName.FreeIsExact | Storage/src/FileStore.cpp:314-367 | no archive name that a run could choose is taken at its start, if and only if no sequence of rotations at any readings of its clock replaces a file |
| ArchiveName.ClockNotSetBack | Storage/src/FileStore.cpp:356-367 | if every archive there carries an earlier reading than any this run can get, all names of this run are free |
| Directory.RecoveredIsWhole | Storage/src/FileStore.cpp:246-292 | recovery keeps exactly the whole frames of everything stored |
| Directory.StoppedAnywhere | Storage/src/FileStore.cpp:212-334 | stopped in any safe state and reopened, the store holds the old stream and the longest whole-frame prefix of what had been written |
| Directory.RenameKeepsArchives | Storage/src/FileStore.cpp:314-318 | a rename keeps all archived bytes exactly if the target is free or holds the same bytes |
| FileStorage.CollidingRename | Storage/src/FileStore.cpp:314-318 | with the clock set back, the rename of a later run destroys a segment of an earlier one: no file holds its bytes any more |
| FileStorage.RotationReplaces | Storage/src/FileStore.cpp:314-318 | a rotation whose archive name is taken replaces that file, and keeps all archives only if the bytes were the same |
| FileStorage.FileStore.Sync | Storage/src/FileStore.cpp:132-151 | resets the unsynced count exactly when the data is durable; on an open file it fails exactly if `fdatasync` does |
| FileStorage.FileStore.RecoverPartialFrame | Storage/src/FileStore.cpp:246-292 | the active file keeps its whole frames and loses a partial tail; fails exactly if a call does |
| FileStorage.FileStore.OpenActiveFile | Storage/src/FileStore.cpp:212-244 | creates the file, and syncs the directory then, or recovers it; every state on the way is the old or the recovered one; fails exactly if a call does |
| FileStorage.FileStore.MakeArchiveName | Storage/src/FileStore.cpp:356-367 | the name carries the reading that the clock has just answered and the sequence number, which moves on only then; none exactly if the clock fails |
| FileStorage.FileStore.MoveAside | Storage/src/FileStore.cpp:296-318 | closes the synced segment and renames it to a name of this clock reading and sequence number; a file is replaced exactly if that name was taken, and never if the names were free; fails exactly if a call does |
| FileStorage.FileStore.Rotate | Storage/src/FileStore.cpp:294-334 | refines the model's rotation and keeps later names free; fails exactly if a call does; the directory is synced after the rename and after the new file, and no descriptor is lost; unless a file was replaced, which free names exclude, archived segments are durable to their last byte, and stopped between any two calls, rename and re-creation included, all bytes are there |
| FileStorage.RenamedIsSafe | Storage/src/FileStore.cpp:314-329 | between rename and re-creation, archives ++ active file are the same stream |
| FileStorage.RoundUp | Storage/src/FileStore.cpp:93-97 | the sync distance rounded up to frames stays within the chunk, is positive and a multiple of 32 |
| FileStorage.FileStore.PrepareChunk | Storage/src/FileStore.cpp:72-98 | a full segment is rotated and an overdue sync reaches the disk, or a call failed; the chunk is positive, whole frames, within batch, segment and rounded-up sync distance; no subtraction underflows; names stay free |
| FileStorage.ChooseChunk | Storage/src/FileStore.cpp:81-98 | the chunk is whole frames within batch, segment and rounded-up sync distance, and reaches one of the three: it is not shorter than it must be |
| FileStorage.FileStore.WriteChunk | Storage/src/FileStore.cpp:100-115 | for any partial writes the file grows by exactly the chunk, unless a write fails; every state on the way holds a prefix of it |
| FileStorage.FileStore.AppendFrames | Storage/src/FileStore.cpp:58-130 | succeeds exactly if the store is open, the batch is neither empty nor ragged, and no call fails; then it equals appending the frames one by one; from the first sync on, the durable length on disk is the active file less the bytes counted as unsynced, and archives written in this run are durable to the end; with free names at the call they stay free, and stopped at any moment all that was there and a prefix of the batch are there |
| FileStorage.FileStore.AppendFrame | Storage/src/FileStore.cpp:53-56 | a batch of one, with all that a batch promises |
| FileStorage.FileStore.OpenFile | Storage/src/FileStore.cpp:27-51 | succeeds exactly if nothing is open, the configuration is valid (spelled out), a name is given and no call fails; then archives and whole frames found are the store's content; free names stay free |
| StoredFrames.AppendHolds | Storage/src/FileStore.cpp:85-130 | storing a batch extends the stored frames by it; frames once durable stay durable; what is not yet synced is below the sync distance |
| StorageReader.Reader.FlushBatch | Reader/src/Reader.cpp:41-50 | all staged frames are stored, exactly if no call of the store fails; every state on the way is safe |
| StorageReader.Reader.RejectFrame | Reader/src/Reader.cpp:57-64 | a malformed frame ends the run, after the staged ones are stored unless a call of the store fails |
| StorageReader.Reader.StageFrame | Reader/src/Reader.cpp:66-70 | the frame moves from hand to batch, and the batch to storage, in order, exactly when it holds 2048 frames; fails exactly if a call of the store does |
| StorageReader.Reader.PopBatch | Reader/src/Reader.cpp:92-96 | frames popped are exactly those released from the ring |
| StorageReader.Reader.TakeAvailable | Reader/src/Reader.cpp:91-102 | the inner loops keep every frame, until the ring looks empty; they fail exactly if a call of the store does or a frame is malformed |
| StorageReader.Reader.FlushAll | Reader/src/Reader.cpp:104-109 | nothing is staged when space is announced or the reader waits; fails exactly if a call of the store does |
| StorageReader.Reader.NotifySpace | Reader/src/Reader.cpp:111-116 | one notice per round, exactly if frames were taken; fails exactly if it is refused |
| StorageReader.Reader.CheckEmpty | Reader/src/Reader.cpp:118-119 | after the close was seen, an empty ring means that everything ever pushed is stored |
| StorageReader.Reader.Open | Reader/src/Reader.cpp:22-27 | from here on the base is what the directory opened to at first; every state recorded on the way, also of a failed open, opens to it; fails exactly for an invalid configuration, no name or a failed call |
| StorageReader.Reader.FinalSync | Reader/src/Reader.cpp:118-125 | success, exactly if the sync succeeds, leaves everything stored and durable on disk, the active file to its last byte |
| StorageReader.Reader.Run | Reader/src/Reader.cpp:17-133 | success: the producer closed, and storage holds what opening the directory gave, which is the whole frames it held, and exactly the frames pushed; the active file and every archive of the run are durable on disk; archive names free at the start are free to the end; failure needs a failed call, an invalid configuration, no name, or a malformed frame in the ring, and a failed call leads to it |
| StorageReader.Reader.StoppedAndReopened | Reader/src/Reader.cpp:41-126 | if archive names were free at open, or no file was replaced: stopped at any moment of the open or of the run and reopened, storage holds what was there and the whole frames of a prefix of all frames pushed |
| Supervisor.Shutdown | src/main.cpp:161-210 | the tape shows the close before the notice; the reader is killed, if it was not before, exactly if the eventfd refused the notice; the reader has been waited for; zero exactly for success of server, notice and reader |
| BuiltSizes.SizesAreGood | Server/src/Server.cpp:31-34 | the built sizes leave 1 MiB of headroom for a receive of at most 128 frames, and the capacity divides 2^64 |
| Program.RingFramesDecode | Reader/src/Reader.cpp:54-64 | every frame ever in the ring decodes and re-encodes to itself |
| Program.RingNeverFull | Server/src/Server.cpp:417-426 | with 131072 slots the ring never overflows and no push is cut |
| Program.ProgramNeverStuck | Server/src/Server.cpp:229-247 | with the built sizes no reachable state is stuck with work left |
| Program.ProgramEnds | src/main.cpp:161-210 | with the built sizes every shutdown without failure ends, with everything stored and durable |
| Composition.Join | src/main.cpp:111-210 | a path of the server and a path of the reader, taken in turns that the ring, the eventfds, the signalfd and main allow, are a run of the whole system that ends where the paths end, or with the reader killed |
| Program.ScheduleInStep | Server/src/Server.cpp:409-415 | in every such schedule the ring's history is exactly what the server's part of it pushed, mid-push included |
| Program.ObjectsJoin | src/main.cpp:111-210 | so a `Server` and a `Reader` object that did their parts of a schedule are a run of the system |
| Program.Parent | src/main.cpp:161-210 | serving and then shutting down leaves the ring closed, holding for each connection the maximal valid prefix of what it sent, and all of it pushed on the path of the automaton; zero only after SIGINT or SIGTERM was delivered, no end of the reader was, and the reader's exit code is 0; and anything but zero only if a call failed, an error was reported, the end of the reader was delivered or it did not exit with 0 |
| Program.EndToEnd | src/main.cpp:161-210 | from the sockets to the disk: what is stored after what was there can be cut into frames in one way, and those of each connection are the maximal valid prefix of what it sent; the active file and the archives of the run are durable on disk, and unless a file was replaced the directory holds exactly that stream |
| Program.ExitZero | src/main.cpp:161-210 | for a server and a reader that took their turns in any order the shared state allows, exit code zero means: shutdown read, reader's end not, and stored, durably, after what was there, the maximal valid prefix of what each connection sent, and nothing else |

## Left out

- Real sockets, epoll, signalfd, eventfd, `mmap`, `fork`, `waitpid`: an environment chooses events, bytes, connections, signals, failures and scheduling. EINTR retries are stuttering and do not appear.
- Ingress.Server.Run: the bytes, connections and waits of one run are finite, of any number, so that its loops end.
- StorageReader.Reader.Run: `fuel` bounds the calls of `tryPopBatch`; a longer run is covered by a larger value, an endless one by all its beginnings.
- The memory model: each acquire load and release store is one step on shared memory; no reordering beyond that.
- The ring's methods work on frames. A span whose size is not a multiple of 32 bytes, which the code refuses, has no counterpart.
- SharedRing.SharedRingBuffer.ConsumerRuns: its body does nothing; its contract stands for any number of steps of the other process, and so does that of ProducerRuns.
- Power loss: crash claims are on process stops. For power loss the durable length of files and the points at which the directory is synced are claimed, not what a directory that was not synced would hold.
- FileStorage.FileStore.AppendFrames: after a failed write the size kept in memory is stale, as in the code; claims are on successful returns and on reopening. Bytes found at open do not count as unsynced.
- The rotation sequence number is unbounded here and 64 bits in the code. Clock readings are any that a predicate allows, which is part of the store.
- Program.ObjectsJoin: which order the turns of the two processes had is given, as a schedule that what they share allows; that every pair of runs of the two objects has such a schedule is not claimed. It has none where the environment of the objects is freer than the system: an epoll report for a signalfd or eventfd that is not ready.
- Kernel.EventFd.Notify: the counter, which both processes change, is not a field of the class. It is in `Pipeline.ServerEffect` and `Pipeline.ReaderEffect`, and `Composition.Join` connects it with the notices on the tapes.
- PipelineTheorems.EveryFrameInOnePlace: not claimed once the reader failed on storage, when a batch may be stored in part.
- Merged SIGCHLD notices and the death of the parent, which the repository's own README.md, lines 81-89, describes as not handled.
- The path in `main` on which `signalfd` cannot be created, and its failures before `fork`.
- Configuration parsing, logging, `--quiet`, usage text, `toString`, benchmarks, packaging.
- The size of one `epoll_wait` result (64) and the backlog of `listen`: any number is allowed.
- `socket`, `setsockopt`, `bind`, `listen` and `epoll_create1` are one call with the ADD of the listener (`Kernel.System.AddListener`).
- Ingress.Server.Round: an ADD of a new client that epoll refuses counts as a failed call, although the server goes on after it, as `Ingress.Server.Admit` says.
