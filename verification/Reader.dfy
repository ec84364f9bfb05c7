/** `Reader::run`: takes frames from the ring, stages them, and appends them to storage.

    As in `Ingress`, the ghost automaton `auto` is `Pipeline.Reader`, and every effect that another
    process can see is accompanied by a `Move`. */
module StorageReader {
  import opened Codec
  import opened RingCounters
  import opened Spsc
  import opened SharedRing
  import opened Kernel
  import opened Directory
  import opened FileStorage
  import opened StoredFrames
  import opened Sequences
  import opened BuiltSizes
  import opened Paths
  import M = StoreModel
  import P = Pipeline

  type Auto = P.Reader<Frame>
  type Act = P.ReaderAct<Frame>

  ghost function Start(): Auto { P.ReaderStart() }

  ghost function Moves(): (Auto, Act, Auto) -> bool { P.ReaderMoves(Sizes()) }

  ghost predicate Reaches(acts: seq<Act>, v: Auto) { IsPath(Moves(), Start(), acts, v) }

  /** What a move shows on the reader's tape. */
  ghost function Shown(a: Act): seq<RingEvent<Frame>> {
    match a
    case ReturnPop(frames) => [Pop(frames)]
    case ReturnClosed(closed) => [SawClosed(closed)]
    case ReturnLastSize(n) => [Size(n)]
    case AnnounceSpace => [Notice]
    case TakeData => [Woken]
    case _ => []
  }

  ghost function Visible(acts: seq<Act>): seq<RingEvent<Frame>> {
    if acts == [] then [] else Visible(Earlier(acts)) + Shown(acts[|acts| - 1])
  }

  lemma Extended(acts: seq<Act>, u: Auto, a: Act, v: Auto)
    requires Reaches(acts, u) && P.ReaderMove(Sizes(), u, a, v)
    ensures Reaches(acts + [a], v)
    ensures Visible(acts + [a]) == Visible(acts) + Shown(a)
    ensures Shown(a) == [] ==> Visible(acts + [a]) == Visible(acts)
  {
    PathNext(Moves(), Start(), acts, u, a, v);
    hide P.ReaderMove, Sizes;
    assert Earlier(acts + [a]) == acts;
    assert Visible(acts) + [] == Visible(acts);
  }

  datatype Exit = Success | Failure | StillRunning

  /** Every frame released from the ring is stored, staged or in hand, in order. */
  ghost predicate Kept(v: Auto, tail: nat, log: seq<Frame>) {
    tail <= |log| && v.stored + v.batch + v.ipc == log[..tail]
  }

  class Reader {
    const ring: SharedRingBuffer<Frame>
    const store: FileStore
    const dataReady: EventFd
    const spaceReady: EventFd
    const batch: array<Byte>
    const ipcBatch: array<Frame>
    var batchBytes: nat
    var consumedAny: bool
    ghost var auto: Auto
    ghost var acts: seq<Act>
    ghost var file: string                 // the active file
    ghost var base: seq<Byte>              // what opening the directory as it was at first gives
    ghost var began: nat                   // the states of the directory recorded before the open
    ghost var from: nat                    // and before the first frame was written
    ghost var archived: nat                // the archives that were there
    ghost var calm: bool                   // at first, no archive name that the run can choose was taken

    constructor (ring: SharedRingBuffer<Frame>, store: FileStore, dataReady: EventFd, spaceReady: EventFd)
      ensures this.ring == ring && this.store == store && this.dataReady == dataReady && this.spaceReady == spaceReady
      ensures fresh(batch) && batch.Length == WRITE_BATCH_BYTES
      ensures fresh(ipcBatch) && ipcBatch.Length * FRAME_SIZE == IPC_BATCH_BYTES
      ensures batchBytes == 0 && !consumedAny && auto == Start() && acts == []
    {
      this.ring, this.store, this.dataReady, this.spaceReady := ring, store, dataReady, spaceReady;
      batch := new Byte[WRITE_BATCH_BYTES](_ => 0);
      ipcBatch := new Frame[IPC_BATCH_BYTES / FRAME_SIZE](_ => seq(FRAME_SIZE, _ => 0));
      batchBytes, consumedAny := 0, false;
      auto, acts := Start(), [];
      file, base, began, from, archived, calm := "", [], 0, 0, 0, false;
    }

    ghost predicate RingOk()
      reads ring, ring.layout
    {
      && ring.Valid() && ring.layout != null && ring.capacityFrames == Sizes().cap && !ConsumerBusy(ring.world)
      && ipcBatch.Length == Sizes().ipc
    }

    /** The buffers are not the ring. */
    ghost predicate Apart()
      reads ring`layout
    {
      ipcBatch != ring.layout && batch as object != ring.layout as object? && batch as object != ipcBatch as object
    }

    /** The automaton's path leads to where it stands, and shows exactly what this process did on the
        ring and with the eventfds, in the order in which it did it. */
    ghost predicate Follows()
      reads `auto, `acts, `consumedAny, ring`consumerTape
    {
      Reaches(acts, auto) && ring.consumerTape == Visible(acts) && consumedAny == auto.consumedAny
    }

    /** The calls that have failed so far. */
    ghost function Faults(): nat
      reads store.disk`failures, dataReady`refused, spaceReady`refused
    {
      store.disk.failures + dataReady.refused + spaceReady.refused
    }

    /** The frame at hand is not one the codec accepts. */
    ghost predicate Rejecting()
      reads `auto
    {
      auto.ipc != [] && !WellFormed(auto.ipc[0])
    }

    ghost predicate Wired() {
      dataReady.ring == ring && dataReady.ofProducer && spaceReady.ring == ring && !spaceReady.ofProducer
    }

    /** Stopped at any moment so far, storage held a prefix of the staged and stored frames after what
        it held at first.  No archive was overwritten, if at first none could be. */
    ghost predicate Traced(frames: seq<Frame>)
      reads `file, `base, `began, `from, `calm, store, store.disk
    {
      && Opening(store.disk.trace, began, from, file, base) && (calm ==> store.NoneTaken(file))
      && (!store.disk.clobbered ==>
           |base| % FRAME_SIZE == 0 && AllSafe(store.disk.trace, from, file, base, Flatten(frames)))
    }

    /** The open store holds `stored`, of which `synced` frames are durable. */
    ghost predicate Storing(stored: seq<Frame>, synced: nat)
      reads `file, `base, `archived, store, store.disk
    {
      && store.Valid() && store.fileName == file && store.earlier == archived
      && Holds(store.config, store.view, base, stored, synced)
    }

    /** The staging buffer holds `frames`. */
    ghost predicate Staging(frames: seq<Frame>)
      reads `batchBytes, batch
    {
      && batch.Length == WRITE_BATCH_BYTES && batchBytes == |frames| * FRAME_SIZE <= batch.Length
      && batch[..batchBytes] == Flatten(frames)
    }

    /** One move of the automaton. */
    ghost method Move(a: Act, next: Auto)
      requires Reaches(acts, auto) && P.ReaderMove(Sizes(), auto, a, next)
      modifies `auto, `acts
      ensures Reaches(acts, auto) && auto == next
      ensures Visible(acts) == Visible(old(acts)) + Shown(a)
      ensures Shown(a) == [] ==> Visible(acts) == Visible(old(acts))
    {
      hide *;
      Extended(acts, auto, a, next);
      auto, acts := next, acts + [a];
    }

    /** `flushBatch`: all staged frames are stored, or the store failed on the way. */
    method FlushBatch(ghost stored: seq<Frame>, ghost synced: nat, ghost frames: seq<Frame>)
      returns (ok: bool, ghost synced': nat)
      requires Storing(stored, synced) && Staging(frames) && Traced(stored + frames)
      modifies `batchBytes, store, store.disk
      ensures Traced(stored + frames)
      ensures ok ==> Storing(stored + frames, synced') && Staging([]) && synced <= synced'
      ensures frames == [] ==> ok && synced' == synced
      ensures store.disk.failures >= old(store.disk.failures)
      ensures ok <==> store.disk.failures == old(store.disk.failures)
    {
      hide Holds, M.AppendEach, AllSafe, M.Stream, FileStore.Valid, Flatten, FileStore.NoneTaken, Opening;
      synced' := synced;
      if batchBytes == 0 {
        assert stored + frames == stored;
        return true, synced;
      }
      ghost var trace := store.disk.trace;
      HeldStream(store.config, store.view, base, stored, synced);
      StorageIsOpen(store);
      synced' := AppendHolds(store.config, store.view, base, stored, synced, frames);
      ok := store.AppendFrames(batch[..batchBytes]);
      OpeningStays(trace, store.disk.trace, began, from, file, base);
      if !store.disk.clobbered {
        SafeFlush(trace, store.disk.trace, from, file, base, stored, frames);
      }
      if ok {
        batchBytes := 0;
        NothingStaged(batch);
      }
    }

    /** What holds to the end, whatever happens to storage. */
    ghost predicate Base()
      reads `auto, `acts, `consumedAny, `file, `base, `began, `from, `archived, `calm
      reads ring, ring.layout, store, store.disk
    {
      RingOk() && Apart() && Wired() && Follows() && Kept(auto, ring.world.tail, ring.world.log)
          && Traced(auto.stored + auto.batch)
    }

    ghost predicate Valid()
      reads this, batch, ring, ring.layout, store, store.disk
    {
      && Base() && Storing(auto.stored, auto.synced) && Staging(auto.batch)
      && |auto.batch| < Sizes().stage
    }

    ghost predicate Dead()
      reads `auto, `acts, `consumedAny, `file, `base, `began, `from, `archived, `calm
      reads ring, ring.layout, store, store.disk
    {
      Base() && auto.pc == P.Exited(false)
    }

    /** One more frame in the staging buffer. */
    method CopyFrame(frame: Frame, ghost frames: seq<Frame>)
      requires Staging(frames) && batchBytes + FRAME_SIZE <= batch.Length
      modifies batch, `batchBytes
      ensures Staging(frames + [frame])
    {
      hide Flatten;
      FlattenJoins(frames, [frame]);
      FlattenOne(frame);
      CopyBytes(batch, batchBytes, frame);
      batchBytes := batchBytes + FRAME_SIZE;
    }

    /** The frame at hand is malformed: what is staged is stored, and the run ends. */
    method RejectFrame()
      requires Valid() && auto.pc.Processing? && auto.ipc != [] && !WellFormed(auto.ipc[0])
      modifies `auto, `acts, `batchBytes, store, store.disk
      ensures Dead()
      ensures store.disk.failures >= old(store.disk.failures) && auto.ipc == old(auto.ipc)
      ensures store.disk.failures == old(store.disk.failures) ==>
        auto.stored == old(auto.stored + auto.batch) && Storing(auto.stored, auto.synced)
    {
      hide Reaches, Visible, RingOk, Storing, Staging, WellFormed, Flatten, AllSafe;
      ghost var synced;
      ghost var v := auto;
      SyncedSome(v.stored, v.synced, true);
      var ok;
      ok, synced := FlushBatch(v.stored, v.synced, v.batch);
      SyncedSome(v.stored + v.batch, synced, ok);
      if ok {
        Move(P.Inside, v.(pc := P.Exited(false), batch := [], stored := v.stored + v.batch, synced := synced));
        assert v.stored + v.batch + [] == v.stored + v.batch;
      } else {
        Move(P.Inside, v.(pc := P.Exited(false)));
      }
    }

    lemma SyncedSome(stored: seq<Frame>, synced: nat, ok: bool)
      requires ok ==> Storing(stored, synced)
      ensures ok ==> synced <= |stored|
    {}

    lemma TracedMore(few: seq<Frame>, more: seq<Frame>)
      requires Traced(few)
      ensures Traced(few + more)
    {
      if !store.disk.clobbered {
        SafeForMore(store.disk.trace, from, file, base, few, more);
      }
    }

    /** A valid frame is staged; a full batch is stored. */
    method StageFrame(frame: Frame) returns (ok: bool)
      requires Valid() && auto.pc.Processing? && auto.ipc != [] && auto.ipc[0] == frame && WellFormed(frame)
      modifies `auto, `acts, `batchBytes, batch, store, store.disk
      ensures if ok then Valid() && auto.pc.Processing? && auto.ipc == old(auto.ipc)[1..] else Dead()
      ensures store.disk.failures >= old(store.disk.failures)
      ensures ok <==> store.disk.failures == old(store.disk.failures)
      ensures old(|auto.batch|) + 1 < 2048 ==>
        && ok && auto.stored == old(auto.stored) && auto.batch == old(auto.batch) + [frame]
        && store.view == old(store.view)
      ensures ok && old(|auto.batch|) + 1 >= 2048 ==>
        auto.batch == [] && auto.stored == old(auto.stored + auto.batch) + [frame]
    {
      hide Reaches, Visible, RingOk, Storing, WellFormed, Flatten, Traced, Wired;
      ghost var v := auto;
      ghost var staged := v.(ipc := v.ipc[1..], batch := v.batch + [frame]);
      SyncedSome(v.stored, v.synced, true);
      KeptWhenStaged(v.stored, v.batch, v.ipc);
      TracedMore(v.stored + v.batch, [frame]);
      assert v.stored + v.batch + [frame] == v.stored + staged.batch;
      CopyFrame(frame, v.batch);
      ok := true;
      if batchBytes == batch.Length {
        ghost var synced;
        ok, synced := FlushBatch(v.stored, v.synced, staged.batch);
        SyncedSome(v.stored + staged.batch, synced, ok);
        if ok {
          Move(P.Inside, staged.(batch := [], stored := v.stored + staged.batch, synced := synced));
          assert v.stored + staged.batch + [] == v.stored + staged.batch;
        } else {
          Move(P.Inside, staged.(pc := P.Exited(false)));
        }
      } else {
        Move(P.Inside, staged);
      }
    }

    /** `processFrame`. */
    method ProcessFrame(frame: Frame) returns (ok: bool)
      requires Valid() && auto.pc.Processing? && auto.ipc != [] && auto.ipc[0] == frame
      modifies `auto, `acts, `batchBytes, batch, store, store.disk
      ensures if ok then Valid() && auto.pc.Processing? && auto.ipc == old(auto.ipc)[1..] else Dead()
      ensures store.disk.failures >= old(store.disk.failures)
      ensures ok <==> WellFormed(frame) && store.disk.failures == old(store.disk.failures)
      ensures !ok && store.disk.failures == old(store.disk.failures) ==> Rejecting()
    {
      hide Valid, Dead, Decode;
      var decoded := DecodeFrame(frame);
      if decoded.Rejected? {
        RejectFrame();
        return false;
      }
      ok := StageFrame(frame);
    }

    /** `tryPopBatch`: the oldest frames leave the ring for the IPC buffer. */
    method PopFromRing() returns (popped: nat)
      requires RingOk() && Apart()
      modifies ipcBatch, ring`head, ring`tail, ring`closedFlag, ring`world, ring`producerTape, ring`consumerTape,
          ring.layout
      ensures RingOk() && popped <= ipcBatch.Length
      ensures old(ring.world.tail) <= old(|ring.world.log|) && old(ring.world.log) <= ring.world.log
      ensures ring.world.tail == old(ring.world.tail) + popped <= |ring.world.log|
      ensures ipcBatch[..popped] == ring.world.log[old(ring.world.tail)..ring.world.tail]
      ensures ring.consumerTape == old(ring.consumerTape) + [Pop(ipcBatch[..popped])]
    {
      hide Published, Wrap, Readable, Slot, Spsc.ProducerInv, Spsc.ConsumerInv;
      SizesAreGood();
      ghost var seen;
      popped, seen := ring.TryPopBatch(ipcBatch);
    }

    method PopBatch() returns (popped: nat)
      requires Valid() && auto.pc.Popping? && auto.ipc == []
      modifies `auto, `acts, `consumedAny, ipcBatch, ring`head, ring`tail, ring`closedFlag, ring`world,
          ring`producerTape, ring`consumerTape, ring.layout
      ensures Valid() && popped <= ipcBatch.Length && auto.ipc == ipcBatch[..popped]
      ensures if popped == 0 then auto.pc.Flushing? else auto.pc.Processing?
    {
      hide Reaches, Visible, RingOk, Storing, Staging, Flatten, Traced, Wired, Sizes;
      Move(P.CallPop, auto);
      ghost var log := ring.world.log;
      popped := PopFromRing();
      KeptAfterPop(auto, log, old(ring.world.tail), ring.world.log, ipcBatch[..popped]);
      if popped != 0 {
        consumedAny := true;
      }
      Move(P.ReturnPop(ipcBatch[..popped]),
           if popped == 0 then auto.(pc := P.Flushing)
           else auto.(pc := P.Processing, ipc := ipcBatch[..popped], consumedAny := true));
    }

    /** The inner loops of `run`: until the ring looks empty. */
    method TakeAvailable(fuel: nat) returns (exit: Exit, left: nat)
      requires Valid() && auto.pc.Popping? && auto.ipc == []
      modifies `auto, `acts, `consumedAny, `batchBytes, batch, ipcBatch, store, store.disk
      modifies ring`head, ring`tail, ring`closedFlag, ring`world, ring`producerTape, ring`consumerTape, ring.layout
      ensures exit.Failure? ==> Dead()
      ensures exit.StillRunning? ==> Valid() && left == 0 && auto.pc.Popping? && auto.ipc == []
      ensures exit.Success? ==> Valid() && auto.pc.Flushing? && auto.ipc == [] && left < fuel
      ensures store.disk.failures >= old(store.disk.failures)
      ensures exit.Failure? <==> store.disk.failures > old(store.disk.failures) || Rejecting()
    {
      hide Valid, Dead;
      left := fuel;
      while left > 0
        invariant Valid() && auto.pc.Popping? && auto.ipc == [] && left <= fuel
        invariant store.disk.failures == old(store.disk.failures)
      {
        left := left - 1;
        var popped := PopBatch();
        if popped == 0 {
          return Success, left;
        }
        var index := 0;
        while index < popped
          invariant store.disk.failures == old(store.disk.failures)
          invariant index <= popped <= ipcBatch.Length && Valid() && auto.pc.Processing?
                   && auto.ipc == ipcBatch[index..popped]
        {
          BuffersApart();
          assert ipcBatch[index..popped][1..] == ipcBatch[index + 1..popped];
          var ok := ProcessFrame(ipcBatch[index]);
          if !ok {
            return Failure, left;
          }
          index := index + 1;
        }
        BatchDone();
      }
      exit := StillRunning;
    }

    lemma BuffersApart()
      requires Valid()
      ensures Apart()
    {}

    ghost method BatchDone()
      requires Valid() && auto.pc.Processing? && auto.ipc == []
      modifies `auto, `acts
      ensures Valid() && auto == old(auto).(pc := P.Popping)
    {
      hide Reaches, Visible, RingOk, Storing, Staging, Flatten, Traced;
      Move(P.Inside, auto.(pc := P.Popping));
    }

    /** Between two rounds everything taken from the ring is stored. */
    ghost predicate Resting()
      reads this, batch, ring, ring.layout, store, store.disk
    {
      Valid() && auto.batch == [] && auto.ipc == []
    }

    /** The flush before a space notice or a wait. */
    method FlushAll() returns (ok: bool)
      requires Valid() && auto.pc.Flushing? && auto.ipc == []
      modifies `auto, `acts, `batchBytes, store, store.disk
      ensures if ok then Resting() && auto.pc.SpaceNotice? else Dead()
      ensures store.disk.failures >= old(store.disk.failures)
      ensures ok <==> store.disk.failures == old(store.disk.failures)
    {
      hide Reaches, Visible, RingOk, Storing, Staging, Flatten, Traced;
      ghost var v := auto;
      ghost var synced;
      SyncedSome(v.stored, v.synced, true);
      ok, synced := FlushBatch(v.stored, v.synced, v.batch);
      SyncedSome(v.stored + v.batch, synced, ok);
      assert v.stored + v.batch + [] == v.stored + v.batch;
      if ok {
        assert v.batch == [] ==> v.stored + v.batch == v.stored;
        Move(P.Inside, v.(pc := P.SpaceNotice, batch := [], stored := v.stored + v.batch, synced := synced));
      } else {
        Move(P.Inside, v.(pc := P.Exited(false)));
      }
    }

    /** `notifyEvent(spaceReadyFd)`. */
    method AnnounceSpace() returns (ok: bool)
      requires RingOk() && Wired()
      modifies ring`producerTape, ring`consumerTape
      modifies spaceReady`refused
      ensures RingOk() && ring.consumerTape == old(ring.consumerTape) + if ok then [Notice] else []
      ensures spaceReady.refused == old(spaceReady.refused) + if ok then 0 else 1
    {
      hide Spsc.Inv, Wrap, Published, Sizes;
      ok := spaceReady.Notify();
    }

    /** The server is told once per round, and only if frames were taken. */
    method NotifySpace() returns (ok: bool)
      requires Resting() && auto.pc.SpaceNotice?
      modifies `auto, `acts, ring`producerTape, ring`consumerTape
      modifies spaceReady`refused
      ensures if ok then Resting() && auto.pc.ClosedCheck? else Dead()
      ensures ok ==> ring.consumerTape == old(ring.consumerTape) + if consumedAny then [Notice] else []
      ensures spaceReady.refused == old(spaceReady.refused) + if ok then 0 else 1
    {
      hide Reaches, Visible, RingOk, Storing, Staging, Flatten, Traced;
      if !consumedAny {
        Move(P.Inside, auto.(pc := P.ClosedCheck));
        return true;
      }
      ok := AnnounceSpace();
      if ok {
        Move(P.AnnounceSpace, auto.(pc := P.ClosedCheck));
      } else {
        Move(P.Inside, auto.(pc := P.Exited(false)));
      }
    }

    /** `producerClosed()`. */
    method AskClosed() returns (closed: bool)
      requires RingOk() && Apart()
      modifies ring`head, ring`closedFlag, ring`world, ring`producerTape, ring`consumerTape, ring.layout
      ensures RingOk() && Apart() && ring.world.tail == old(ring.world.tail) && old(ring.world.log) <= ring.world.log
      ensures closed ==> ring.world.closed
      ensures ring.consumerTape == old(ring.consumerTape) + [SawClosed(closed)]
    {
      hide Published, Wrap, Readable, Slot, Spsc.ProducerInv;
      SizesAreGood();
      closed := ring.ProducerClosed();
    }

    /** `empty()`, after the producer has closed: no frame can appear any more. */
    method AskEmpty() returns (size: nat)
      requires RingOk() && Apart() && ring.world.closed
      modifies ring`head, ring`closedFlag, ring`world, ring`producerTape, ring`consumerTape, ring.layout
      ensures RingOk() && Apart() && ring.world.tail == old(ring.world.tail) && old(ring.world.log) <= ring.world.log
      ensures ring.world.closed && (size == 0 ==> |ring.world.log| == ring.world.tail)
      ensures ring.consumerTape == old(ring.consumerTape) + [Size(size)]
    {
      hide Published, Wrap, Readable, Slot, Spsc.ProducerInv;
      SizesAreGood();
      size := ring.PendingForConsumer();
    }

    method CheckClosed() returns (closed: bool)
      requires Resting() && auto.pc.ClosedCheck?
      modifies `auto, `acts, ring`head, ring`closedFlag, ring`world, ring`producerTape, ring`consumerTape, ring.layout
      ensures Resting() && if closed then auto.pc.LastCheck? && ring.world.closed else auto.pc.Sleeping?
    {
      hide Reaches, Visible, RingOk, Storing, Staging, Flatten, Traced;
      Move(P.CallClosed, auto);
      closed := AskClosed();
      Move(P.ReturnClosed(closed), auto.(pc := if closed then P.LastCheck else P.Sleeping));
      KeptLater(auto, ring.world.tail, old(ring.world.log), ring.world.log);
    }

    method CheckEmpty() returns (empty: bool)
      requires Resting() && auto.pc.LastCheck? && ring.world.closed
      modifies `auto, `acts, ring`head, ring`closedFlag, ring`world, ring`producerTape, ring`consumerTape, ring.layout
      ensures Resting() && ring.world.closed
      ensures if empty then auto.pc.FinalSync? && auto.stored == ring.world.log else auto.pc.Sleeping?
    {
      hide Reaches, Visible, RingOk, Storing, Staging, Flatten, Traced;
      Move(P.CallLastSize, auto);
      var size := AskEmpty();
      empty := size == 0;
      Move(P.ReturnLastSize(size), auto.(pc := if size == 0 then P.FinalSync else P.Sleeping));
      KeptLater(auto, ring.world.tail, old(ring.world.log), ring.world.log);
      assert auto.stored + [] + [] == auto.stored;
      assert ring.world.log[..|ring.world.log|] == ring.world.log;
    }

    /** Everything storage holds of this run is durable on disk: the active file and, unless a file was
        replaced, every archive that was not there at first. */
    ghost predicate OnDisk()
      reads `file, `archived, store, store.disk
    {
      && FileDurable(store.disk.Now(), store.disk.durable, file)
      && (!store.disk.clobbered ==> ArchivesDurable(store.disk.Now(), store.disk.durable, archived))
    }

    /** The producer has closed, and everything it ever pushed is stored and durable. */
    ghost predicate Complete()
      reads `auto, `acts, `consumedAny, `file, `base, `began, `from, `archived, `calm
      reads ring, ring.layout, store, store.disk
    {
      && Base() && auto.pc == P.Exited(true) && ring.world.closed && auto.stored == ring.world.log
      && Storing(ring.world.log, |ring.world.log|) && OnDisk()
    }

    method FinalSync() returns (ok: bool)
      requires Resting() && auto.pc.FinalSync? && ring.world.closed && auto.stored == ring.world.log
      modifies `auto, `acts, store`unsyncedBytes, store`view, store.disk`durable, store.disk`failures
      ensures if ok then Complete() else Dead()
      ensures store.disk.failures >= old(store.disk.failures)
      ensures ok <==> store.disk.failures == old(store.disk.failures)
    {
      hide Reaches, Visible, RingOk, Staging, Flatten, AllSafe, FileStore.Valid, Holds, Opening;
      SyncHolds(store.config, store.view, base, auto.stored, auto.synced);
      StorageIsOpen(store);
      ok := store.Sync();
      if ok {
        ArchivesOnDisk(store);
        Move(P.Inside, auto.(pc := P.Exited(true), synced := |auto.stored|));
      } else {
        Move(P.Inside, auto.(pc := P.Exited(false)));
      }
    }

    /** `consumeEvent(dataReadyFd)`. */
    method TakeData() returns (ok: bool)
      requires RingOk() && Wired()
      modifies ring`producerTape, ring`consumerTape
      modifies dataReady`refused
      ensures RingOk() && ring.consumerTape == old(ring.consumerTape) + if ok then [Woken] else []
      ensures dataReady.refused == old(dataReady.refused) + if ok then 0 else 1
    {
      hide Spsc.Inv, Wrap, Published, Sizes;
      ok := dataReady.Consume();
    }

    /** The wait, with the move of the automaton. */
    method Sleep() returns (ok: bool)
      requires Resting() && auto.pc.Sleeping?
      modifies `auto, `acts, `consumedAny, ring`producerTape, ring`consumerTape
      modifies dataReady`refused
      ensures if ok then Resting() && auto.pc.Popping? else Dead()
      ensures dataReady.refused == old(dataReady.refused) + if ok then 0 else 1
    {
      hide Reaches, Visible, RingOk, Storing, Staging, Flatten, Traced;
      ok := TakeData();
      if ok {
        consumedAny := false;
        Move(P.TakeData, auto.(pc := P.Popping, consumedAny := false));
      } else {
        Move(P.Inside, auto.(pc := P.Exited(false)));
      }
    }

    /** One round: take what is there, store it, tell the server, and end or wait. */
    method Round(fuel: nat) returns (exit: Exit, left: nat)
      requires Resting() && auto.pc.Popping? && fuel > 0
      modifies `auto, `acts, `consumedAny, `batchBytes, batch, ipcBatch, store, store.disk
      modifies ring`head, ring`tail, ring`closedFlag, ring`world, ring`producerTape, ring`consumerTape, ring.layout
      modifies dataReady`refused, spaceReady`refused
      ensures exit.Failure? ==> Dead()
      ensures exit.Success? ==> Complete()
      ensures exit.StillRunning? ==> left < fuel && Valid() && (left > 0 ==> Resting() && auto.pc.Popping?)
      ensures if exit.Failure? then Faults() > old(Faults()) || (Faults() == old(Faults()) && Rejecting())
              else Faults() == old(Faults())
    {
      hide Base, RingOk, Storing, Staging, Traced, Complete, Rejecting;
      exit, left := TakeAvailable(fuel);
      if exit.Success? {
        exit := EndRound();
      }
    }

    /** What follows when the ring looks empty. */
    method EndRound() returns (exit: Exit)
      requires Valid() && auto.pc.Flushing? && auto.ipc == []
      modifies `auto, `acts, `consumedAny, `batchBytes, store, store.disk
      modifies ring`head, ring`closedFlag, ring`world, ring`producerTape, ring`consumerTape, ring.layout
      modifies dataReady`refused, spaceReady`refused
      ensures exit.Failure? ==> Dead()
      ensures exit.Success? ==> Complete()
      ensures exit.StillRunning? ==> Resting() && auto.pc.Popping?
      ensures Faults() >= old(Faults()) && (exit.Failure? <==> Faults() > old(Faults()))
    {
      hide Base, RingOk, Storing, Staging, Traced, Complete, Valid;
      exit := Failure;
      var ok := FlushAll();
      if !ok {
        return;
      }
      ok := NotifySpace();
      if !ok {
        return;
      }
      var done := CheckClosed();
      if done {
        done := CheckEmpty();
      }
      if done {
        ok := FinalSync();
        exit := if ok then Success else Failure;
        return;
      }
      ok := Sleep();
      exit := if ok then StillRunning else Failure;
    }

    /** What `run` borrows. */
    ghost predicate Ready()
      reads this, batch, ring, ring.layout, store, store.disk
    {
      && RingOk() && Apart() && ring.world.tail == 0 <= |ring.world.log|
      && !store.active && !store.directoryOpen && store.unsyncedBytes == 0
      && ring.consumerTape == [] && Wired() && batch.Length == WRITE_BATCH_BYTES && batchBytes == 0
      && !consumedAny && auto == Start() && acts == []
    }

    /** `openFile`, as far as the store goes. */
    method OpenStore(name: string) returns (ok: bool)
      requires !store.active && !store.directoryOpen && store.unsyncedBytes == 0
      requires store.disk.clobbered || Orderly(store.disk.Now(), name)
      modifies store, store.disk
      ensures store.disk.clobbered == old(store.disk.clobbered)
      ensures var base := Raw(Recovered(old(store.disk.Now()), name), name);
              && (store.disk.clobbered || |base| % FRAME_SIZE == 0)
              && Opening(store.disk.trace, |old(store.disk.trace)|, |store.disk.trace|, name, base)
              && (ok ==> Holds(store.config, store.view, base, [], 0))
      ensures ok ==> store.Valid() && store.fileName == name && store.earlier == |old(store.disk.order)|
      ensures old(store.NoneTaken(name)) ==> store.NoneTaken(name)
      ensures store.disk.failures >= old(store.disk.failures)
      ensures ok <==> M.ValidConfig(store.config) && name != "" && store.disk.failures == old(store.disk.failures)
    {
      hide FileStore.Valid, Holds, Orderly, Whole, Archived, ActiveBytes, Recovered, Raw, Only, Opening,
          FileStore.NoneTaken;
      ghost var before, trace := store.disk.Now(), store.disk.trace;
      ok := store.OpenFile(name);
      OpenedStates(trace, store.disk.trace, before, name);
      OpenedStream(before, name);
      if ok {
        OpenHolds(store.config, store.view.archives, store.view.active);
      }
    }

    /** `openFile`, before the first frame.  Whether or not it succeeds, every state of the directory on
        the way opens to what the directory opened to at first. */
    method Open(name: string) returns (ok: bool)
      requires Ready() && (store.disk.clobbered || Orderly(store.disk.Now(), name))
      modifies `file, `base, `began, `from, `archived, `calm, store, store.disk
      ensures if ok then Resting() && auto.pc.Popping? else Base() && auto == Start()
      ensures From(name, old(store.disk.Now()), old(store.disk.trace), old(store.NoneTaken(name)))
      ensures store.disk.clobbered == old(store.disk.clobbered)
      ensures store.disk.failures >= old(store.disk.failures)
      ensures ok <==> M.ValidConfig(store.config) && name != "" && store.disk.failures == old(store.disk.failures)
    {
      Started();
      hide *;
      file, base := name, Raw(Recovered(store.disk.Now(), name), name);
      began, archived, calm := |store.disk.trace|, |store.disk.order|, store.NoneTaken(name);
      ghost var first, trace, free := store.disk.Now(), store.disk.trace, calm;
      ok := OpenStore(name);
      from := |store.disk.trace|;
      OpenedHere(name, first, trace, free, ok);
    }

    lemma OpenedHere(name: string, first: Snapshot, trace: seq<Snapshot>, free: bool, ok: bool)
      requires RingOk() && Apart() && Wired() && Follows() && Kept(auto, ring.world.tail, ring.world.log)
      requires auto == Start() && batchBytes == 0 && batch.Length == WRITE_BATCH_BYTES
      requires file == name && base == Raw(Recovered(first, name), name)
      requires began == |trace| && archived == |first.order| && calm == free && (calm ==> store.NoneTaken(name))
      requires store.disk.clobbered || |base| % FRAME_SIZE == 0
      requires Opening(store.disk.trace, began, |store.disk.trace|, name, base) && from == |store.disk.trace|
      requires ok ==> Holds(store.config, store.view, base, [], 0)
      requires ok ==> store.Valid() && store.fileName == name && store.earlier == |first.order|
      ensures Base() && From(name, first, trace, free)
      ensures ok ==> Resting() && auto.pc.Popping?
    {
      hide RingOk, Reaches, Visible, FileStore.Valid, Holds, Raw, Recovered, Flatten, Opening, FileStore.NoneTaken;
      NothingStaged(batch);
      NoneUnsafe(store.disk.trace, file, base, Flatten([]));
      assert [] + [] == auto.stored + auto.batch;
    }

    /** The run is on file `name` of the directory that was `first`, and its ghosts say so. */
    ghost predicate From(name: string, first: Snapshot, trace: seq<Snapshot>, free: bool)
      reads `file, `base, `began, `archived, `calm
    {
      file == name && base == Raw(Recovered(first, name), name) && began == |trace| && archived == |first.order|
      && calm == free
    }

    lemma Started()
      requires Ready()
      ensures RingOk() && Apart() && Wired() && Follows() && Kept(auto, ring.world.tail, ring.world.log)
      ensures auto == Start() && batchBytes == 0 && batch.Length == WRITE_BATCH_BYTES
      ensures !store.active && !store.directoryOpen && store.unsyncedBytes == 0
    {}

    /** How `run` ends, and what holds of a run cut short. */
    ghost predicate Ended(exit: Exit)
      reads this, batch, ring, ring.layout, store, store.disk
    {
      match exit
      case Success => Complete()
      case Failure => Base() && (auto == Start() || auto.pc == P.Exited(false))
      case StillRunning => Valid()
    }

    /** `run`: on success the producer has closed and storage holds, durably, what opening the directory
        gave and then exactly the frames pushed, in order; and whenever the process is stopped, even on
        a failed open, storage holds the former and a prefix of the latter (`StoppedAndReopened`).
        `fuel` bounds the calls of `tryPopBatch`: what holds for every value holds however long the run
        goes on. */
    method Run(name: string, fuel: nat) returns (exit: Exit)
      requires Ready() && (store.disk.clobbered || Orderly(store.disk.Now(), name))
      modifies this, batch, ipcBatch, store, store.disk
      modifies ring`head, ring`tail, ring`closedFlag, ring`world, ring`producerTape, ring`consumerTape, ring.layout
      modifies dataReady`refused, spaceReady`refused
      ensures Ended(exit)
      ensures exit.Success? ==> M.Stream(store.view) == base + Flatten(ring.world.log) && OnDisk()
      ensures From(name, old(store.disk.Now()), old(store.disk.trace), old(store.NoneTaken(name)))
      ensures !old(store.disk.clobbered) ==> base == Whole(old(Raw(store.disk.Now(), name)))
      ensures Faults() >= old(Faults()) && (Faults() > old(Faults()) ==> exit.Failure?)
      ensures exit.Failure? ==>
        || Faults() > old(Faults()) || !M.ValidConfig(store.config) || name == ""
        || exists f :: f in ring.world.log && !WellFormed(f)
    {
      hide Base, RingOk, Storing, Staging, Traced, Complete, OnDisk, Ready, Start, From, Orderly, Whole, Raw, Recovered;
      Started();
      ghost var first, trace, free := store.disk.Now(), store.disk.trace, store.NoneTaken(name);
      FromWhole(store.disk.clobbered, first, name);
      exit := Failure;
      var ok := Open(name);
      if ok {
        exit := StillRunning;
      }
      var left := fuel;
      while exit.StillRunning? && left > 0
        invariant exit.StillRunning? ==> Valid() && (left > 0 ==> Resting() && auto.pc.Popping?)
        invariant Faults() >= old(Faults()) && (Faults() > old(Faults()) ==> exit.Failure?)
        invariant exit.Failure? ==>
          || Faults() > old(Faults()) || !M.ValidConfig(store.config) || name == "" || Rejecting()
        invariant Ended(exit) && From(name, first, trace, free)
        decreases exit.StillRunning?, left
      {
        exit, left := Round(left);
      }
      if Rejecting() && exit.Failure? {
        RejectedIsPushed();
      }
      if exit.Success? {
        CompleteStream();
      }
      FromBase(name, first, trace, free);
    }

    lemma RejectedIsPushed()
      requires Base() && Rejecting()
      ensures exists f :: f in ring.world.log && !WellFormed(f)
    {
      hide RingOk, Follows, Traced, WellFormed;
      var kept := auto.stored + auto.batch;
      assert (kept + auto.ipc)[|kept|] == ring.world.log[..ring.world.tail][|kept|];
      assert auto.ipc[0] in ring.world.log;
    }

    lemma FromBase(name: string, first: Snapshot, trace: seq<Snapshot>, free: bool)
      requires From(name, first, trace, free)
      ensures base == Raw(Recovered(first, name), name)
    {}

    lemma CompleteStream()
      requires Complete()
      ensures M.Stream(store.view) == base + Flatten(ring.world.log) && OnDisk() && store.view.unsynced == 0
      ensures !store.disk.clobbered ==> Raw(store.disk.Now(), file) == M.Stream(store.view)
    {
      hide RingOk, Reaches, Flatten, M.Stream, Archival, Raw;
      if !store.disk.clobbered {
        RawIsStream(store.disk.Now(), file, store.view, store.disk.durable, archived, []);
      }
    }

    /** Wherever the process is stopped, during the open or after it, what is found on the next open is
        what was there before and the longest whole-frame prefix of what had been written of the frames
        pushed. */
    lemma StoppedAndReopened(k: nat)
      requires Base() && (calm || !store.disk.clobbered) && began <= k < |store.disk.trace|
      ensures var data := Flatten(ring.world.log);
              exists n :: 0 <= n <= |data| && (from <= k ==> Raw(store.disk.trace[k], file) == base + data[..n])
                          && Raw(Recovered(store.disk.trace[k], file), file) == base + Whole(data[..n])
    {
      hide RingOk, Reaches, Flatten, Orderly, Raw, Recovered, AllSafe;
      var taken, log := auto.stored + auto.batch, ring.world.log;
      if k < from {
        assert base + Whole(Flatten(log)[..0]) == base;
        return;
      }
      hide Whole;
      SafeForMore(store.disk.trace, from, file, base, taken, log[|taken|..]);
      assert taken + auto.ipc == log[..ring.world.tail];
      assert taken == log[..|taken|];
      assert taken + log[|taken|..] == log;
      SafeState(store.disk.trace, from, file, base, Flatten(log), k);
      StoppedAnywhere(store.disk.trace[k], file, base, Flatten(log));
    }
  }

  /** The states recorded while the directory was opened: each opens to `base`. */
  ghost predicate Opening(trace: seq<Snapshot>, began: nat, from: nat, name: string, base: seq<Byte>) {
    && began <= from <= |trace|
    && forall k {:trigger trace[k]} :: began <= k < from ==> Raw(Recovered(trace[k], name), name) == base
  }

  lemma OpeningStays(trace: seq<Snapshot>, longer: seq<Snapshot>, began: nat, from: nat, name: string, base: seq<Byte>)
    requires Opening(trace, began, from, name, base) && trace <= longer
    ensures Opening(longer, began, from, name, base) && from <= |trace|
  {
    hide Raw, Recovered;
    assert forall k :: began <= k < from ==> longer[k] == trace[k];
  }

  lemma OpenedStates(trace: seq<Snapshot>, longer: seq<Snapshot>, s: Snapshot, name: string)
    requires trace <= longer && Only(longer, |trace|, s, Recovered(s, name))
    ensures Opening(longer, |trace|, |longer|, name, Raw(Recovered(s, name), name))
  {
    RecoveredTwice(s, name);
    hide Raw, Recovered;
  }

  lemma SafeState(trace: seq<Snapshot>, from: nat, name: string, base: seq<Byte>, data: seq<Byte>, k: nat)
    requires AllSafe(trace, from, name, base, data) && from <= k < |trace|
    ensures Safe(trace[k], name, base, data)
  {}

  lemma OpenedStream(s: Snapshot, name: string)
    ensures |Whole(ActiveBytes(s, name))| % FRAME_SIZE == 0 && Recovered(s, name).order == s.order
    ensures Flatten(Archived(Recovered(s, name))) + Whole(ActiveBytes(s, name)) == Raw(Recovered(s, name), name)
    ensures Orderly(s, name) ==> |Raw(Recovered(s, name), name)| % FRAME_SIZE == 0
  {
    if Orderly(s, name) {
      RecoveredIsWhole(s, name);
    }
  }

  lemma FromWhole(clobbered: bool, s: Snapshot, name: string)
    requires clobbered || Orderly(s, name)
    ensures !clobbered ==> Raw(Recovered(s, name), name) == Whole(Raw(s, name))
  {
    if !clobbered {
      RecoveredIsWhole(s, name);
    }
  }

  lemma KeptLater(v: Auto, tail: nat, log: seq<Frame>, later: seq<Frame>)
    requires Kept(v, tail, log) && log <= later
    ensures Kept(v, tail, later)
  {
    assert later[..tail] == log[..tail];
  }

  lemma KeptAfterPop(v: Auto, log: seq<Frame>, tail: nat, later: seq<Frame>, popped: seq<Frame>)
    requires Kept(v, tail, log) && v.ipc == [] && log <= later && tail + |popped| <= |later|
    requires popped == later[tail..tail + |popped|]
    ensures Kept(v.(ipc := popped), tail + |popped|, later)
  {
    assert v.stored + v.batch + [] == v.stored + v.batch;
    assert later[..tail] == log[..tail];
    assert later[..tail + |popped|] == later[..tail] + popped;
  }

  lemma KeptWhenStaged(stored: seq<Frame>, batch: seq<Frame>, ipc: seq<Frame>)
    requires ipc != []
    ensures stored + (batch + [ipc[0]]) + ipc[1..] == stored + batch + ipc
  {
    assert ipc == [ipc[0]] + ipc[1..];
  }

  /** `std::copy` of one frame. */
  method CopyBytes(batch: array<Byte>, at: nat, frame: Frame)
    requires at + FRAME_SIZE <= batch.Length
    modifies batch
    ensures batch[..at + FRAME_SIZE] == old(batch[..at]) + frame
  {
    var i := 0;
    while i < FRAME_SIZE
      invariant i <= FRAME_SIZE
      invariant batch[..at] == old(batch[..at]) && batch[at..at + i] == frame[..i]
    {
      batch[at + i] := frame[i];
      i := i + 1;
    }
    assert batch[..at + FRAME_SIZE] == batch[..at] + batch[at..at + FRAME_SIZE];
  }

  lemma HeldStream(c: M.Config, view: M.Store, base: seq<Byte>, stored: seq<Frame>, synced: nat)
    requires Holds(c, view, base, stored, synced)
    ensures M.Stream(view) == base + Flatten(stored)
  {}

  lemma StorageIsOpen(store: FileStore)
    requires store.Valid()
    ensures store.active && store.fileName in store.disk.files
  {}

  lemma ArchivesOnDisk(store: FileStore)
    requires store.Valid() && store.view.marks != [] && store.view.unsynced == 0
    ensures FileDurable(store.disk.Now(), store.disk.durable, store.fileName)
    ensures !store.disk.clobbered ==> ArchivesDurable(store.disk.Now(), store.disk.durable, store.earlier)
  {}

  lemma NothingStaged(batch: array<Byte>)
    ensures batch[..0] == Flatten([])
  {}
}
