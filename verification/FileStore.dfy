/** `FileStore`: appends whole frames to an active file, rotates it when it is full, syncs it at a
    byte distance, and recovers a partial tail on open. */
module FileStorage {
  import opened Codec
  import opened StoreModel
  import opened Directory
  import ArchiveName

  class FileStore {
    const config: Config
    const disk: Disk
    const clock: ArchiveName.Clock    // the readings the clock can give during this run
    var fileName: string
    var active: bool                  // m_fd != -1
    var directoryOpen: bool
    var currentSize: nat
    var unsyncedBytes: nat
    var rotationSequence: nat
    ghost var view: Store             // the store this object stands for
    ghost var earlier: nat            // archives that were there at open

    /** The open store is its view.  From the first sync on, all of the active file is durable but the
        bytes counted as unsynced.  Unless a rename replaced a file, the archives are the view's, and
        those of this run are durable to their last byte. */
    ghost predicate Valid()
      reads this, disk
    {
      && active && directoryOpen && ValidConfig(config)
      && fileName in disk.files && disk.files[fileName] == view.active
      && currentSize == |view.active| && currentSize % FRAME_SIZE == 0
      && unsyncedBytes == view.unsynced
      && (view.marks != [] ==> fileName in disk.durable && disk.durable[fileName] + view.unsynced == |view.active|)
      && (!disk.clobbered ==> Archival(disk.Now(), fileName, view.archives, disk.durable, earlier))
    }

    /** No rename has replaced a file, and none can: no archive name still to be chosen is taken. */
    ghost predicate NoneTaken(name: string)
      reads `rotationSequence, disk`files, disk`clobbered
    {
      !disk.clobbered && ArchiveName.FreeFor(disk.files.Keys, name, rotationSequence, clock)
    }

    ghost predicate Undisturbed()
      reads `fileName, `rotationSequence, disk`files, disk`clobbered
    {
      NoneTaken(fileName)
    }

    constructor (config: Config, disk: Disk, clock: ArchiveName.Clock)
      ensures this.config == config && this.disk == disk && this.clock == clock
      ensures !active && !directoryOpen && unsyncedBytes == 0 && rotationSequence == 0
    {
      this.config, this.disk, this.clock, fileName := config, disk, clock, "";
      active, directoryOpen, currentSize, unsyncedBytes, rotationSequence := false, false, 0, 0, 0;
      view, earlier := Store([], [], 0, 0, []), 0;
    }

    /** `sync()`. */
    method Sync() returns (ok: bool)
      requires active ==> fileName in disk.files
      modifies `unsyncedBytes, `view, disk`durable, disk`failures
      ensures disk.failures == old(disk.failures) + if active && !ok then 1 else 0
      ensures ok ==> active && unsyncedBytes == 0 && view == StoreModel.Sync(old(view))
      ensures !ok ==> unsyncedBytes == old(unsyncedBytes) && view == old(view)
      ensures disk.durable == (if ok then old(disk.durable)[fileName := |disk.files[fileName]|] else old(disk.durable))
      ensures old(Valid()) ==> Valid()
    {
      if !active {
        return false;
      }
      ok := disk.Fdatasync(fileName);
      if ok {
        unsyncedBytes := 0;
        view := StoreModel.Sync(view);
      }
    }

    /** `recoverPartialFrame()`: whole frames stay, a partial tail goes. */
    method RecoverPartialFrame() returns (ok: bool)
      requires active && fileName in disk.files
      modifies `currentSize, `unsyncedBytes, `view, disk`files, disk`durable, disk`trace, disk`failures
      ensures disk.failures >= old(disk.failures) && (ok <==> disk.failures == old(disk.failures))
      ensures ok ==> disk.Now() == Recovered(old(disk.Now()), fileName) && currentSize == |disk.files[fileName]|
      ensures ok ==> unsyncedBytes == old(unsyncedBytes) || unsyncedBytes == 0
      ensures disk.clobbered == old(disk.clobbered) && old(disk.trace) <= disk.trace
              && disk.files.Keys == old(disk.files.Keys)
      ensures disk.durable - {fileName} == old(disk.durable) - {fileName}
      ensures old(fileName in disk.durable && disk.durable[fileName] == 0 == |disk.files[fileName]|) ==>
        disk.durable == old(disk.durable)
      ensures Only(disk.trace, |old(disk.trace)|, old(disk.Now()), Recovered(old(disk.Now()), fileName))
    {
      ok := disk.Attempt();
      if !ok {
        return;
      }
      var size := |disk.files[fileName]|;
      var remainder := size % FRAME_SIZE;
      var validSize := size;
      if remainder != 0 {
        validSize := validSize - remainder;
        ok := disk.Truncate(fileName, validSize);
        if !ok {
          return;
        }
        ok := Sync();
        if !ok {
          return;
        }
      } else {
        assert disk.files[fileName][..size] == disk.files[fileName];
        assert Recovered(disk.Now(), fileName).files == disk.files;
      }
      currentSize := validSize;
    }

    /** `openActiveFile()` up to the recovery: the file is created if it is not there. */
    method OpenOrCreate() returns (ok: bool)
      requires !active
      modifies `active, disk`files, disk`durable, disk`trace, disk`failures, disk`listed, disk`descriptors
      ensures disk.failures >= old(disk.failures) && (ok <==> disk.failures == old(disk.failures))
      ensures ok ==> active && fileName in disk.files
      ensures if disk.files == old(disk.files)
              then disk.durable == old(disk.durable) && (ok ==> fileName in old(disk.files))
              else fileName !in old(disk.files) && disk.durable == old(disk.durable)[fileName := 0]
                   && disk.Now() == Recovered(old(disk.Now()), fileName)
      ensures disk.order == old(disk.order) && disk.clobbered == old(disk.clobbered)
      ensures disk.trace == old(disk.trace) + [disk.Now()]
      ensures old(Undisturbed()) ==> Undisturbed()
      ensures ok ==> disk.descriptors == old(disk.descriptors) + 1
      ensures ok && fileName !in old(disk.files) ==> disk.listed == disk.files.Keys
    {
      hide ArchiveName.FreeFor;
      ghost var names := disk.files.Keys;
      var created := disk.CreateExclusive(fileName);
      if old(Undisturbed()) {
        ArchiveName.StillFree(names, disk.files.Keys, fileName, rotationSequence, rotationSequence, clock);
      }
      match created {
        case Failed =>
          return false;
        case Exists =>
          ok := disk.Open();
          active := ok;
        case Created =>
          active := true;
          ok := disk.SyncDirectory();
      }
    }

    /** `openActiveFile()`: the file is created if it is not there, or recovered if it is. */
    method OpenActiveFile() returns (ok: bool)
      requires !active
      modifies `active, `currentSize, `unsyncedBytes, `view, disk`files, disk`durable, disk`trace, disk`failures,
          disk`listed, disk`descriptors
      ensures disk.failures >= old(disk.failures) && (ok <==> disk.failures == old(disk.failures))
      ensures ok ==>
        active && disk.Now() == Recovered(old(disk.Now()), fileName) && currentSize == |disk.files[fileName]|
      ensures ok ==> unsyncedBytes == old(unsyncedBytes) || unsyncedBytes == 0
      ensures ok && fileName !in old(disk.files) ==> fileName in disk.durable && disk.durable[fileName] == 0
      ensures disk.clobbered == old(disk.clobbered) && old(disk.trace) <= disk.trace
      ensures old(Undisturbed()) ==> Undisturbed()
      ensures disk.durable - {fileName} == old(disk.durable) - {fileName}
      ensures Only(disk.trace, |old(disk.trace)|, old(disk.Now()), Recovered(old(disk.Now()), fileName))
      ensures ok ==> disk.descriptors == old(disk.descriptors) + 1
      ensures ok && fileName !in old(disk.files) ==> disk.listed == disk.files.Keys
    {
      hide Recovered, Only, ArchiveName.FreeFor;
      ok := OpenOrCreate();
      RecoveredTwice(old(disk.Now()), fileName);
      ghost var found, trace := disk.Now(), disk.trace;
      OnlyOne(old(disk.trace), found, old(disk.Now()), Recovered(old(disk.Now()), fileName));
      if !ok {
        return;
      }
      ok := RecoverPartialFrame();
      OnlyMore(trace, disk.trace, |old(disk.trace)|, found, old(disk.Now()), Recovered(old(disk.Now()), fileName));
    }

    /** `makeArchiveName()`: the clock is read, and may fail; the sequence number moves on. */
    method MakeArchiveName() returns (name: string, ghost seconds: nat, ghost nanoseconds: nat)
      modifies `rotationSequence, disk`failures, disk`readings
      ensures disk.failures == old(disk.failures) + if name == "" then 1 else 0
      ensures name == "" ==> rotationSequence == old(rotationSequence)
      ensures disk.readings == old(disk.readings) + if name == "" then [] else [(seconds, nanoseconds)]
      ensures name != "" ==>
        && name == ArchiveName.Name(fileName, seconds, nanoseconds, old(rotationSequence)) && name != fileName
        && rotationSequence == old(rotationSequence) + 1 && clock(seconds, nanoseconds)
    {
      var ok, tvSec, tvNsec := disk.ReadClock(clock);
      seconds, nanoseconds := tvSec, tvNsec;
      if !ok {
        return "", seconds, nanoseconds;
      }
      name := ArchiveName.Name(fileName, tvSec, tvNsec, rotationSequence);
      ArchiveName.NameIsNotActive(fileName, tvSec, tvNsec, rotationSequence);
      rotationSequence := rotationSequence + 1;
    }

    /** `rotate()` up to the rename. */
    method MoveAside() returns (ok: bool, ghost archive: string)
      requires Valid()
      modifies this, disk
      ensures disk.failures >= old(disk.failures) && (ok <==> disk.failures == old(disk.failures))
      ensures fileName == old(fileName) && earlier == old(earlier)
      ensures old(Undisturbed()) ==> Undisturbed()
      ensures directoryOpen
      ensures ok ==> !active && archive != fileName
      ensures ok ==> disk.clobbered == (old(disk.clobbered) || archive in old(disk.files))
      ensures ok ==>
        && |disk.readings| == |old(disk.readings)| + 1
        && var (s, n) := disk.readings[|old(disk.readings)|];
           clock(s, n) && archive == ArchiveName.Name(fileName, s, n, old(rotationSequence))
      ensures ok ==> disk.Now() == Renamed(old(disk.Now()), fileName, archive)
      ensures ok ==> disk.durable == (old(disk.durable) - {fileName})[archive := |old(view.active)|]
      ensures old(disk.trace) <= disk.trace
      ensures forall r :: Only(disk.trace, |old(disk.trace)|, disk.Now(), r)
      ensures !ok ==> disk.Now() == old(disk.Now())
      ensures old(disk.clobbered) ==> disk.clobbered
      ensures ok ==> disk.descriptors == old(disk.descriptors) - 1
    {
      hide Valid, Undisturbed, ArchiveName.Name, Renamed;
      archive := "";
      ok := CloseSegment();
      if !ok {
        return;
      }
      ok, archive := RenameSegment();
    }

    /** `sync()` and `closeActiveFile()`. */
    method CloseSegment() returns (ok: bool)
      requires Valid()
      modifies `active, `unsyncedBytes, `view, disk`durable, disk`failures, disk`descriptors
      ensures disk.failures >= old(disk.failures) && (ok <==> disk.failures == old(disk.failures))
      ensures directoryOpen && fileName in disk.files
      ensures ok ==> !active && disk.durable == old(disk.durable)[fileName := |old(view.active)|]
      ensures ok ==> disk.descriptors == old(disk.descriptors) - 1
    {
      hide Archival;
      ok := Sync();
      if ok {
        active := false;
        ok := disk.Close();
      }
    }

    /** The new name, and the rename. */
    method RenameSegment() returns (ok: bool, ghost archive: string)
      requires fileName in disk.files
      modifies `rotationSequence, disk`files, disk`order, disk`durable, disk`clobbered, disk`trace, disk`failures,
          disk`readings
      ensures disk.failures >= old(disk.failures) && (ok <==> disk.failures == old(disk.failures))
      ensures old(Undisturbed()) ==> Undisturbed()
      ensures ok ==> archive != fileName && disk.clobbered == (old(disk.clobbered) || archive in old(disk.files))
      ensures ok ==>
        && |disk.readings| == |old(disk.readings)| + 1
        && var (s, n) := disk.readings[|old(disk.readings)|];
           clock(s, n) && archive == ArchiveName.Name(fileName, s, n, old(rotationSequence))
      ensures ok ==> disk.Now() == Renamed(old(disk.Now()), fileName, archive)
      ensures ok && fileName in old(disk.durable) ==>
        disk.durable == (old(disk.durable) - {fileName})[archive := old(disk.durable)[fileName]]
      ensures old(disk.trace) <= disk.trace
      ensures forall r :: Only(disk.trace, |old(disk.trace)|, disk.Now(), r)
      ensures !ok ==> disk.Now() == old(disk.Now()) && disk.clobbered == old(disk.clobbered)
    {
      hide ArchiveName.Name;
      var archiveName, seconds, nanoseconds := MakeArchiveName();
      archive := archiveName;
      if archiveName == "" {
        return false, archive;
      }
      if old(Undisturbed()) {
        ArchiveName.RotationKeepsFree(disk.files.Keys, fileName, seconds, nanoseconds, old(rotationSequence), clock);
      }
      ghost var names := disk.files.Keys;
      ok := disk.Rename(fileName, archiveName);
      if old(Undisturbed()) {
        ArchiveName.StillFree(ArchiveName.Rotated(names, fileName, seconds, nanoseconds, old(rotationSequence)),
                              disk.files.Keys, fileName, rotationSequence, rotationSequence, clock);
      }
    }

    /** `rotate()` after the rename, which left the archive of `before`. */
    method StartSegment(ghost start: Snapshot, ghost archive: string, ghost before: Store,
                        ghost durable: map<string, nat>)
      returns (ok: bool)
      requires !active && directoryOpen && ValidConfig(config) && fileName in start.files && archive != fileName
      requires start.files[fileName] == before.active && |before.active| % FRAME_SIZE == 0
      requires disk.Now() == Renamed(start, fileName, archive)
      requires disk.durable == (durable - {fileName})[archive := |before.active|]
      requires !disk.clobbered ==>
        Archival(start, fileName, before.archives, durable, earlier) && archive !in start.files
      modifies `active, `currentSize, `unsyncedBytes, `view, disk
      ensures disk.failures >= old(disk.failures) && (ok <==> disk.failures == old(disk.failures))
      ensures ok ==> Valid() && view == StoreModel.Rotate(before)
      ensures disk.clobbered == old(disk.clobbered) && old(disk.trace) <= disk.trace
      ensures old(Undisturbed()) ==> Undisturbed()
      ensures Only(disk.trace, |old(disk.trace)|, old(disk.Now()), Recovered(old(disk.Now()), fileName))
      ensures ok ==> disk.descriptors == old(disk.descriptors) + 1 && disk.listed == disk.files.Keys
    {
      hide Archival, Recovered, Renamed, Undisturbed, Only;
      ok := disk.SyncDirectory();
      if !ok {
        NothingRecorded(disk.trace, disk.Now(), Recovered(disk.Now(), fileName));
        return;
      }
      currentSize := 0;
      unsyncedBytes := 0;
      CreatedIsEmpty(start, fileName, archive);
      ok := OpenActiveFile();
      if ok {
        view := StoreModel.Rotate(before);
        if !disk.clobbered {
          RotatedIsArchival(start, fileName, archive, before, durable, earlier, disk.durable);
        }
      }
    }

    /** `rotate()`: sync, close, rename, sync the directory, open a new file. */
    method Rotate() returns (ok: bool)
      requires Valid()
      modifies this, disk
      ensures disk.failures >= old(disk.failures) && (ok <==> disk.failures == old(disk.failures))
      ensures fileName == old(fileName) && earlier == old(earlier)
      ensures ok ==> Valid() && view == StoreModel.Rotate(old(view))
      ensures old(disk.trace) <= disk.trace && (old(disk.clobbered) ==> disk.clobbered)
      ensures !disk.clobbered ==> AllSafe(disk.trace, |old(disk.trace)|, fileName, Stream(old(view)), [])
      ensures old(Undisturbed()) ==> Undisturbed()
      ensures ok ==> disk.descriptors == old(disk.descriptors) && disk.listed == disk.files.Keys
    {
      hide Archival, Safe, AllSafe, Only, Stream, Recovered, Renamed, Undisturbed;
      ghost var start, durable := disk.Now(), disk.durable;
      ghost var archive;
      ok, archive := MoveAside();
      ghost var from, trace, moved := |old(disk.trace)|, disk.trace, disk.Now();
      if !disk.clobbered {
        RenamedIsSafe(start, fileName, archive, old(view), durable, earlier, moved, ok);
        OnlySafe(trace, from, moved, moved, fileName, Stream(old(view)));
      }
      if !ok {
        return;
      }
      ok := StartSegment(start, archive, old(view), durable);
      OnlyMore(trace, disk.trace, from, moved, moved, Recovered(moved, fileName));
      if !disk.clobbered {
        OnlySafe(disk.trace, from, moved, Recovered(moved, fileName), fileName, Stream(old(view)));
      }
    }

    /** `openFile`: a new store for a directory, in which a name of the file is given; "" stands for a
        path that names none. */
    method OpenFile(name: string) returns (ok: bool)
      requires !active && !directoryOpen ==> unsyncedBytes == 0
      modifies this, disk
      ensures disk.failures >= old(disk.failures)
      ensures ok <==>
        && !old(active || directoryOpen) && name != "" && disk.failures == old(disk.failures)
        && 32 <= config.maxSegmentBytes && config.maxSegmentBytes % 32 == 0
        && config.syncEveryBytes <= config.maxSegmentBytes
      ensures old(active || directoryOpen) || !ValidConfig(config) || name == "" ==>
        !ok && disk.Now() == old(disk.Now())
      ensures disk.clobbered == old(disk.clobbered) && old(disk.trace) <= disk.trace
      ensures ok ==> fileName == name && disk.Now() == Recovered(old(disk.Now()), name)
      ensures ok ==> view == Store(Archived(disk.Now()), Whole(ActiveBytes(old(disk.Now()), name)), 0, 0, [])
      ensures ok && (disk.clobbered || Orderly(old(disk.Now()), name)) ==> Valid() && earlier == |disk.order|
      ensures old(NoneTaken(name)) ==> NoneTaken(name)
      ensures Only(disk.trace, |old(disk.trace)|, old(disk.Now()), Recovered(old(disk.Now()), name))
      ensures ok ==> disk.descriptors == old(disk.descriptors) + 2
    {
      hide Recovered, Whole, Archived, Orderly, Archival, ActiveBytes, ArchiveName.FreeFor;
      OpenedIsArchival(disk.Now(), name);
      if active || directoryOpen {
        return false;
      }
      if !ValidConfig(config) || name == "" {
        return false;
      }
      fileName := name;
      ok := disk.Open();
      if !ok {
        return;
      }
      directoryOpen := true;
      ok := OpenActiveFile();
      if ok {
        view := Store(Archived(disk.Now()), disk.files[fileName], 0, 0, []);
        earlier := |disk.order|;
      }
    }

    /** The inner loop of `appendFrames`: the kernel may take any part of the chunk at a time. */
    method WriteChunk(chunk: seq<Byte>) returns (ok: bool)
      requires fileName in disk.files
      modifies disk`files, disk`trace, disk`failures
      ensures disk.failures >= old(disk.failures) && (ok <==> disk.failures == old(disk.failures))
      ensures disk.order == old(disk.order) && disk.durable == old(disk.durable)
              && disk.clobbered == old(disk.clobbered)
      ensures disk.files.Keys == old(disk.files.Keys)
      ensures ok ==> disk.files == old(disk.files)[fileName := old(disk.files[fileName]) + chunk]
      ensures old(disk.trace) <= disk.trace
      ensures Orderly(old(disk.Now()), fileName) ==>
        AllSafe(disk.trace, |old(disk.trace)|, fileName, Raw(old(disk.Now()), fileName), chunk)
    {
      hide Writing, Orderly, Raw, Safe;
      ghost var start := disk.Now();
      var writtenBytes := 0;
      StartsWith(disk.files, fileName, chunk);
      while writtenBytes < |chunk|
        invariant writtenBytes <= |chunk|
        invariant disk.order == old(disk.order) && disk.durable == old(disk.durable)
                 && disk.clobbered == old(disk.clobbered)
        invariant disk.files == old(disk.files)[fileName := old(disk.files[fileName]) + chunk[..writtenBytes]]
        invariant disk.failures == old(disk.failures)
        invariant old(disk.trace) <= disk.trace
        invariant Orderly(start, fileName) ==>
          AllSafe(disk.trace, |old(disk.trace)|, fileName, Raw(start, fileName), chunk)
      {
        ghost var trace := disk.trace;
        var written := disk.Write(fileName, chunk[writtenBytes..]);
        if written <= 0 {
          return false;
        }
        if Orderly(start, fileName) {
          WritingIsSafe(trace, |old(disk.trace)|, start, fileName, chunk, writtenBytes, written);
        }
        Regroup(old(disk.files[fileName]), chunk, writtenBytes, written);
        writtenBytes := writtenBytes + written;
      }
      assert chunk[..writtenBytes] == chunk;
      ok := true;
    }

    /** The part of an iteration of `appendFrames` before the write: rotation, overdue sync, and how many
        bytes to write, limited by the batch, the segment and the sync distance. */
    method PrepareChunk(bytesLeft: nat) returns (ok: bool, chunkBytes: nat)
      requires Valid() && bytesLeft > 0 && bytesLeft % FRAME_SIZE == 0
      modifies this, disk
      ensures disk.failures >= old(disk.failures) && (ok <==> disk.failures == old(disk.failures))
      ensures fileName == old(fileName) && earlier == old(earlier)
      ensures old(disk.trace) <= disk.trace && (old(disk.clobbered) ==> disk.clobbered)
      ensures !disk.clobbered ==> AllSafe(disk.trace, |old(disk.trace)|, fileName, Stream(old(view)), [])
      ensures old(Undisturbed()) ==> Undisturbed()
      ensures ok ==> Valid() && view == MakeRoom(config, old(view))
      ensures ok ==> FitsChunk(config, view, chunkBytes) && chunkBytes <= bytesLeft
      ensures ok ==> disk.descriptors == old(disk.descriptors)
    {
      hide Archival, AllSafe, Stream, Undisturbed, StoreModel.Sync, StoreModel.Rotate;
      ok, chunkBytes := true, 0;
      if currentSize >= config.maxSegmentBytes {
        ok := Rotate();
        if !ok {
          return;
        }
      } else {
        NoneUnsafe(disk.trace, fileName, Stream(view), []);
      }
      ok := SyncWhenDue();
      if !ok {
        return;
      }
      RoomIsReady(config, old(view));
      chunkBytes := ChooseChunk(config, bytesLeft, config.maxSegmentBytes - currentSize, unsyncedBytes);
    }

    /** The sync distance has been reached: sync. */
    method SyncWhenDue() returns (ok: bool)
      requires Valid()
      modifies `unsyncedBytes, `view, disk`durable, disk`failures
      ensures disk.failures >= old(disk.failures) && (ok <==> disk.failures == old(disk.failures))
      ensures ok ==> Valid() && view == SyncIfDue(config, old(view))
    {
      hide Archival;
      ok := true;
      if config.syncEveryBytes != 0 && unsyncedBytes >= config.syncEveryBytes {
        ok := Sync();
      }
    }

    /** The rest of the iteration: the write, the new counters, the sync. */
    method AppendChunk(chunk: seq<Byte>) returns (ok: bool)
      requires Valid() && FitsChunk(config, view, |chunk|)
      modifies `currentSize, `unsyncedBytes, `view, disk`files, disk`trace, disk`failures, disk`durable
      ensures disk.failures >= old(disk.failures) && (ok <==> disk.failures == old(disk.failures))
      ensures fileName == old(fileName) && earlier == old(earlier)
      ensures old(disk.trace) <= disk.trace && disk.clobbered == old(disk.clobbered)
      ensures !disk.clobbered ==> AllSafe(disk.trace, |old(disk.trace)|, fileName, Stream(old(view)), chunk)
      ensures old(Undisturbed()) ==> Undisturbed()
      ensures ok ==> Valid() && view == SyncIfDue(config, Write(old(view), chunk))
      ensures ok ==> disk.descriptors == old(disk.descriptors)
    {
      hide *;
      ok := WriteAndCount(chunk);
      if !ok {
        return;
      }
      ok := SyncWhenDue();
    }

    method WriteAndCount(chunk: seq<Byte>) returns (ok: bool)
      requires Valid() && FitsChunk(config, view, |chunk|)
      modifies `currentSize, `unsyncedBytes, `view, disk`files, disk`trace, disk`failures
      ensures disk.failures >= old(disk.failures) && (ok <==> disk.failures == old(disk.failures))
      ensures old(disk.trace) <= disk.trace && disk.clobbered == old(disk.clobbered)
      ensures !disk.clobbered ==> AllSafe(disk.trace, |old(disk.trace)|, fileName, Stream(old(view)), chunk)
      ensures old(Undisturbed()) ==> Undisturbed()
      ensures ok ==> Valid() && view == Write(old(view), chunk)
    {
      hide Archival, Safe, Stream, Raw, Orderly, ArchiveName.FreeFor;
      if !disk.clobbered {
        RawIsStream(disk.Now(), fileName, view, disk.durable, earlier, chunk);
      }
      ok := WriteChunk(chunk);
      if !ok {
        return;
      }
      currentSize := currentSize + |chunk|;
      unsyncedBytes := unsyncedBytes + |chunk|;
      view := Write(view, chunk);
    }

    /** `appendFrames`: the whole batch is appended exactly as its frames one by one would be, and
        stopping at any moment, in any call, loses and repeats nothing. */
    method AppendFrames(frames: seq<Byte>) returns (ok: bool)
      requires active ==> Valid()
      modifies this, disk
      ensures disk.failures >= old(disk.failures)
      ensures ok <==> old(active) && |frames| > 0 && |frames| % FRAME_SIZE == 0 && disk.failures == old(disk.failures)
      ensures fileName == old(fileName) && earlier == old(earlier)
      ensures !old(active) || |frames| == 0 || |frames| % FRAME_SIZE != 0 ==>
        !ok && view == old(view) && disk.Now() == old(disk.Now()) && disk.trace == old(disk.trace)
      ensures old(disk.trace) <= disk.trace && (old(disk.clobbered) ==> disk.clobbered)
      ensures ok ==> Valid() && view == AppendEach(config, old(view), frames)
      ensures old(active) && !disk.clobbered ==>
        AllSafe(disk.trace, |old(disk.trace)|, fileName, Stream(old(view)), frames)
      ensures old(Undisturbed()) ==> Undisturbed()
      ensures ok ==> disk.descriptors == old(disk.descriptors)
    {
      if !active {
        return false;
      }
      if |frames| == 0 || |frames| % FRAME_SIZE != 0 {
        return false;
      }
      hide AppendEach, Stream, AllSafe, Archival, FitsChunk, Undisturbed;
      ghost var base, name, from := Stream(view), fileName, |disk.trace|;
      NoneUnsafe(disk.trace, name, base, frames);
      assert frames[0..] == frames && base + frames[..0] == base;
      var offset := 0;
      while offset < |frames|
        invariant offset <= |frames| && offset % FRAME_SIZE == 0
        invariant Valid() && fileName == name && earlier == old(earlier)
        invariant disk.failures == old(disk.failures) && disk.descriptors == old(disk.descriptors)
        invariant old(disk.trace) <= disk.trace && (old(disk.clobbered) ==> disk.clobbered)
        invariant AppendEach(config, view, frames[offset..]) == AppendEach(config, old(view), frames)
        invariant Stream(view) == base + frames[..offset]
        invariant !disk.clobbered ==> AllSafe(disk.trace, from, name, base, frames)
        invariant old(Undisturbed()) ==> Undisturbed()
      {
        ok, offset := AppendNext(frames, offset, base, from);
        if !ok {
          return;
        }
      }
      assert frames[offset..] == [];
      NothingToAppend(config, view);
      ok := true;
    }

    /** One iteration of `appendFrames`. */
    method AppendNext(frames: seq<Byte>, offset: nat, ghost base: seq<Byte>, ghost from: nat)
      returns (ok: bool, next: nat)
      requires Valid() && offset < |frames| && offset % FRAME_SIZE == 0 && |frames| % FRAME_SIZE == 0
      requires Stream(view) == base + frames[..offset] && from <= |disk.trace|
      requires !disk.clobbered ==> AllSafe(disk.trace, from, fileName, base, frames)
      modifies this, disk
      ensures disk.failures >= old(disk.failures) && (ok <==> disk.failures == old(disk.failures))
      ensures fileName == old(fileName) && earlier == old(earlier)
      ensures old(disk.trace) <= disk.trace && (old(disk.clobbered) ==> disk.clobbered)
      ensures !disk.clobbered ==> AllSafe(disk.trace, from, fileName, base, frames)
      ensures old(Undisturbed()) ==> Undisturbed()
      ensures ok ==>
        && Valid() && offset < next <= |frames| && next % FRAME_SIZE == 0
        && AppendEach(config, view, frames[next..]) == AppendEach(config, old(view), frames[offset..])
        && Stream(view) == base + frames[..next]
      ensures ok ==> disk.descriptors == old(disk.descriptors)
    {
      assert ValidConfig(config);
      hide *;
      next := offset;
      ghost var before, trace := view, disk.trace;
      var chunkBytes;
      ok, chunkBytes := PrepareChunk(|frames| - offset);
      assert frames[offset..offset] == [];
      if !disk.clobbered {
        StillSafe(trace, disk.trace, from, fileName, base, frames, offset, offset);
      }
      if !ok {
        return;
      }
      trace := disk.trace;
      ChunkIsFrames(config, view, chunkBytes);
      AlignedSum(offset, chunkBytes);
      ChunkIsNext(config, before, frames, base, offset, chunkBytes);
      next := offset + chunkBytes;
      ok := AppendChunk(frames[offset..next]);
      if !disk.clobbered {
        StillSafe(trace, disk.trace, from, fileName, base, frames, offset, next);
      }
    }

    method AppendFrame(frame: seq<Byte>) returns (ok: bool)
      requires active ==> Valid()
      modifies this, disk
      ensures disk.failures >= old(disk.failures)
      ensures ok <==> old(active) && |frame| > 0 && |frame| % FRAME_SIZE == 0 && disk.failures == old(disk.failures)
      ensures fileName == old(fileName) && earlier == old(earlier)
      ensures ok ==> Valid() && view == AppendEach(config, old(view), frame)
      ensures ok && |frame| == FRAME_SIZE ==> view == StoreModel.AppendFrame(config, old(view), frame)
      ensures old(active) && !disk.clobbered ==>
        AllSafe(disk.trace, |old(disk.trace)|, fileName, Stream(old(view)), frame)
      ensures old(Undisturbed()) ==> Undisturbed()
      ensures ok ==> disk.descriptors == old(disk.descriptors)
    {
      hide AllSafe, StoreModel.AppendFrame, Undisturbed;
      ok := AppendFrames(frame);
      if |frame| == FRAME_SIZE {
        assert frame[..FRAME_SIZE] == frame && frame[FRAME_SIZE..] == [];
      }
    }
  }

  /** The archives on disk are the view's; those after the first `earlier` are durable. */
  ghost predicate Archival(s: Snapshot, name: string, archives: seq<seq<Byte>>, durable: map<string, nat>,
      earlier: nat) {
    && Orderly(s, name)
    && Archived(s) == archives
    && earlier <= |s.order|
    && ArchivesDurable(s, durable, earlier)
  }

  /** The archives after the first `earlier` are durable to their last byte. */
  ghost predicate ArchivesDurable(s: Snapshot, durable: map<string, nat>, earlier: nat) {
    forall i {:trigger s.order[i]} :: earlier <= i < |s.order| ==> FileDurable(s, durable, s.order[i])
  }

  /** The last fdatasync of the file covered all that it holds. */
  ghost predicate FileDurable(s: Snapshot, durable: map<string, nat>, name: string) {
    name in s.files && name in durable && durable[name] == |s.files[name]|
  }

  /** From `from` on, only these two states were recorded. */
  ghost predicate Only(trace: seq<Snapshot>, from: nat, s: Snapshot, r: Snapshot) {
    forall k {:trigger trace[k]} :: from <= k < |trace| ==> trace[k] == s || trace[k] == r
  }

  lemma OnlyOne(trace: seq<Snapshot>, last: Snapshot, s: Snapshot, r: Snapshot)
    requires last == s || last == r
    ensures Only(trace + [last], |trace|, s, r)
  {}

  lemma NothingRecorded(trace: seq<Snapshot>, s: Snapshot, r: Snapshot)
    ensures Only(trace, |trace|, s, r)
  {}

  lemma OnlyMore(trace: seq<Snapshot>, longer: seq<Snapshot>, from: nat, last: Snapshot, s: Snapshot, r: Snapshot)
    requires from <= |trace| && trace <= longer && Only(trace, from, s, r) && Only(longer, |trace|, last, r)
    requires last == s || last == r
    ensures Only(longer, from, s, r)
  {
    forall k {:trigger longer[k]} | from <= k < |longer|
      ensures longer[k] == s || longer[k] == r
    {
      assert k < |trace| ==> longer[k] == trace[k];
    }
  }

  lemma RecoveredTwice(s: Snapshot, name: string)
    ensures Recovered(Recovered(s, name), name) == Recovered(s, name)
    ensures name !in s.files ==> name in Recovered(s, name).files && Recovered(s, name).files[name] == []
  {
    var whole := Whole(ActiveBytes(s, name));
    assert Whole(whole) == whole;
  }

  lemma OnlySafe(trace: seq<Snapshot>, from: nat, s: Snapshot, r: Snapshot, name: string, base: seq<Byte>)
    requires Only(trace, from, s, r) && Safe(s, name, base, []) && Safe(r, name, base, [])
    ensures AllSafe(trace, from, name, base, [])
  {
    hide Safe;
  }

  /** What `Disk.Rename` leaves. */
  ghost function Renamed(s: Snapshot, name: string, archive: string): Snapshot
    requires name in s.files
  {
    Snapshot((s.files - {name})[archive := s.files[name]], s.order + [archive])
  }

  /** A rename to a new name, or one that fails, moves no byte: stopped right after it, everything is
      still there, and re-creating the active file changes nothing. */
  lemma RenamedIsSafe(s: Snapshot, name: string, archive: string, view: Store, durable: map<string, nat>, earlier: nat,
                      s': Snapshot, ok: bool)
    requires Archival(s, name, view.archives, durable, earlier) && name in s.files && s.files[name] == view.active
    requires |view.active| % FRAME_SIZE == 0 && (ok ==> archive != name && archive !in s.files)
    requires s' == if ok then Renamed(s, name, archive) else s
    ensures Safe(s', name, Stream(view), [])
    ensures ok ==> Safe(Recovered(s', name), name, Stream(view), [])
  {
    if ok {
      assert Archived(s') == view.archives + [view.active];
      assert Archived(s')[..|view.archives|] == view.archives;
      var r := Recovered(s', name);
      ActiveIsNotArchived(s', name, []);
      assert Raw(s', name) == Stream(view) + [];
      assert Raw(r, name) == Stream(view) + [];
    }
  }

  lemma CreatedIsEmpty(s: Snapshot, name: string, archive: string)
    requires name in s.files && archive != name
    ensures var r := Renamed(s, name, archive);
            name !in r.files && name in Recovered(r, name).files && Recovered(r, name).files[name] == []
  {}

  /** The archives of the reopened store, all durable. */
  lemma RotatedIsArchival(s: Snapshot, name: string, archive: string, view: Store, durable: map<string, nat>,
      earlier: nat,
                          durable': map<string, nat>)
    requires Archival(s, name, view.archives, durable, earlier) && name in s.files && s.files[name] == view.active
    requires |view.active| % FRAME_SIZE == 0 && archive != name && archive !in s.files
    requires durable' - {name} == (durable - {name})[archive := |view.active|] - {name}
    ensures Archival(Recovered(Renamed(s, name, archive), name), name, view.archives + [view.active], durable', earlier)
  {
    var renamed := Renamed(s, name, archive);
    ActiveIsNotArchived(renamed, name, []);
    assert Archived(renamed) == view.archives + [view.active];
    var order := renamed.order;
    forall i | earlier <= i < |order|
      ensures order[i] in durable' && durable'[order[i]] == |renamed.files[order[i]]|
    {
      assert order[i] != name;
      if i < |s.order| {
        assert order[i] == s.order[i];
      }
      assert order[i] in durable' - {name};
    }
  }

  lemma StartsWith(files: map<string, seq<Byte>>, name: string, chunk: seq<Byte>)
    requires name in files
    ensures files == files[name := files[name] + chunk[..0]]
  {
    assert files[name] + chunk[..0] == files[name];
  }

  lemma Regroup(a: seq<Byte>, chunk: seq<Byte>, i: nat, n: nat)
    requires i + n <= |chunk|
    ensures a + chunk[..i] + chunk[i..][..n] == a + chunk[..i + n]
  {
    assert chunk[..i] + chunk[i..][..n] == chunk[..i + n];
  }

  /** A file opened, and recovered, without an order of its own to disturb. */
  lemma OpenedIsArchival(s: Snapshot, name: string)
    ensures var r := Recovered(s, name);
            && name in r.files && r.files[name] == Whole(ActiveBytes(s, name)) && |r.files[name]| % FRAME_SIZE == 0
            && r.order == s.order
            && (Orderly(s, name) ==> forall durable {:trigger Archival(r, name, Archived(r), durable, |s.order|)} ::
                 Archival(r, name, Archived(r), durable, |s.order|))
  {
    if Orderly(s, name) {
      ActiveIsNotArchived(s, name, Whole(ActiveBytes(s, name)));
    }
  }

  /** Growing the active file grows the whole store at its end. */
  lemma RawGrows(s: Snapshot, name: string, bytes: seq<Byte>)
    requires Orderly(s, name) && name in s.files
    ensures var r := s.(files := s.files[name := s.files[name] + bytes]);
            Orderly(r, name) && Raw(r, name) == Raw(s, name) + bytes
  {
    ActiveIsNotArchived(s, name, s.files[name] + bytes);
  }

  lemma WritingIsSafe(trace: seq<Snapshot>, from: nat, s: Snapshot, name: string, chunk: seq<Byte>, i: nat, n: nat)
    requires Orderly(s, name) && name in s.files && i + n <= |chunk|
    requires AllSafe(trace, from, name, Raw(s, name), chunk)
    ensures var w := s.(files := s.files[name := s.files[name] + chunk[..i]]);
            AllSafe(trace + Writing(w, name, chunk[i..], n), from, name, Raw(s, name), chunk)
  {
    var w := s.(files := s.files[name := s.files[name] + chunk[..i]]);
    var after := trace + Writing(w, name, chunk[i..], n);
    forall k {:trigger after[k]} | from <= k < |after|
      ensures Safe(after[k], name, Raw(s, name), chunk)
    {
      if k < |trace| {
        assert after[k] == trace[k];
      } else {
        var m := i + k - |trace| + 1;
        Regroup(s.files[name], chunk, i, m - i);
        RawGrows(s, name, chunk[..m]);
        assert after[k] == s.(files := s.files[name := s.files[name] + chunk[..m]]);
        hide Raw, Orderly;
        assert Raw(s, name) + chunk[..m] <= Raw(s, name) + chunk;
      }
    }
  }

  /** A chunk of whole frames that fits the segment and passes the sync distance, rounded up to a frame,
      at its very end or not at all. */
  predicate FitsChunk(c: Config, st: Store, n: nat) {
    && n > 0 && n % FRAME_SIZE == 0 && |st.active| + n <= c.maxSegmentBytes
    && (c.syncEveryBytes != 0 ==> st.unsynced + n < c.syncEveryBytes + FRAME_SIZE)
  }

  lemma RoomIsReady(c: Config, st: Store)
    requires ValidConfig(c) && |st.active| % FRAME_SIZE == 0
    ensures var room := MakeRoom(c, st);
            && |room.active| < c.maxSegmentBytes && |room.active| % FRAME_SIZE == 0
            && (c.syncEveryBytes != 0 ==> room.unsynced < c.syncEveryBytes)
  {}

  /** How many bytes to write next: all that is left, what fits the segment, or up to the frame that
      completes the sync distance, whichever is least. */
  method ChooseChunk(c: Config, bytesLeft: nat, remainingSegmentBytes: nat, unsyncedBytes: nat)
    returns (chunkBytes: nat)
    requires 0 < bytesLeft && bytesLeft % FRAME_SIZE == 0
    requires 0 < remainingSegmentBytes && remainingSegmentBytes % FRAME_SIZE == 0
    requires c.syncEveryBytes != 0 ==> unsyncedBytes < c.syncEveryBytes
    ensures 0 < chunkBytes <= bytesLeft && chunkBytes <= remainingSegmentBytes && chunkBytes % FRAME_SIZE == 0
    ensures c.syncEveryBytes != 0 ==> unsyncedBytes + chunkBytes < c.syncEveryBytes + FRAME_SIZE
    ensures chunkBytes == bytesLeft || chunkBytes == remainingSegmentBytes
            || (c.syncEveryBytes != 0 && unsyncedBytes + chunkBytes >= c.syncEveryBytes)
  {
    chunkBytes := if bytesLeft < remainingSegmentBytes then bytesLeft else remainingSegmentBytes;
    if c.syncEveryBytes != 0 {
      var untilSync := c.syncEveryBytes - unsyncedBytes;
      if untilSync < chunkBytes {
        RoundUp(untilSync, chunkBytes);
        var framesUntilSync := 1 + (untilSync - 1) / FRAME_SIZE;
        chunkBytes := framesUntilSync * FRAME_SIZE;
      }
    }
  }

  /** The distance to the next sync, rounded up to whole frames, stays within a chunk of whole frames. */
  lemma RoundUp(untilSync: nat, chunkBytes: nat)
    requires 0 < untilSync < chunkBytes && chunkBytes % FRAME_SIZE == 0
    ensures var n := (1 + (untilSync - 1) / FRAME_SIZE) * FRAME_SIZE;
            untilSync <= n < untilSync + FRAME_SIZE && n <= chunkBytes && n % FRAME_SIZE == 0
  {}

  lemma RawIsStream(s: Snapshot, name: string, view: Store, durable: map<string, nat>, earlier: nat, chunk: seq<Byte>)
    requires Archival(s, name, view.archives, durable, earlier) && name in s.files && s.files[name] == view.active
    ensures Orderly(s, name) && Raw(s, name) == Stream(view)
    ensures var r := s.(files := s.files[name := s.files[name] + chunk]);
            Archival(r, name, view.archives, durable, earlier)
  {
    ActiveIsNotArchived(s, name, s.files[name] + chunk);
  }

  lemma NoneUnsafe(trace: seq<Snapshot>, name: string, base: seq<Byte>, data: seq<Byte>)
    ensures AllSafe(trace, |trace|, name, base, data)
  {}

  lemma NothingToAppend(c: Config, st: Store)
    ensures AppendEach(c, st, []) == st
  {}

  /** The states of one step, safe for its own part of the batch, are safe for the whole batch. */
  lemma StillSafe(trace: seq<Snapshot>, longer: seq<Snapshot>, from: nat, name: string,
                  base: seq<Byte>, frames: seq<Byte>, i: nat, j: nat)
    requires i <= j <= |frames| && trace <= longer && from <= |trace|
    requires AllSafe(trace, from, name, base, frames)
    requires AllSafe(longer, |trace|, name, base + frames[..i], frames[i..j])
    ensures AllSafe(longer, from, name, base, frames)
  {
    assert frames[..i] + frames[i..j] + frames[j..] == frames;
    forall k {:trigger longer[k]} | from <= k < |longer|
      ensures Safe(longer[k], name, base, frames)
    {
      if k < |trace| {
        assert longer[k] == trace[k];
      } else {
        SafeInLarger(longer[k], name, base, frames[..i], frames[i..j], frames[j..]);
      }
    }
  }

  /** Making room and writing one fitting chunk is appending its frames one by one. */
  lemma ChunkIsNext(c: Config, st: Store, frames: seq<Byte>, base: seq<Byte>, i: nat, n: nat)
    requires ValidConfig(c) && i + n <= |frames| && FitsChunk(c, MakeRoom(c, st), n)
    requires Stream(st) == base + frames[..i]
    ensures var next := SyncIfDue(c, Write(MakeRoom(c, st), frames[i..i + n]));
            && AppendEach(c, next, frames[i + n..]) == AppendEach(c, st, frames[i..])
            && Stream(MakeRoom(c, st)) == base + frames[..i] && Stream(next) == base + frames[..i + n]
  {
    hide *;
    var rest, room := frames[i..], MakeRoom(c, st);
    var chunk := frames[i..i + n];
    assert rest == chunk + frames[i + n..];
    assert frames[..i] + chunk == frames[..i + n];
    ChunkIsFrames(c, room, n);
    MakeRoomKeepsStream(c, st);
    AppendAfterMakeRoom(c, st, rest);
    AppendEachSplits(c, room, chunk, frames[i + n..]);
    FittingChunk(c, st, chunk);
    AppendEachExtendsStream(c, room, chunk);
    assert base + frames[..i] + chunk == base + (frames[..i] + chunk);
  }

  lemma ChunkIsFrames(c: Config, st: Store, n: nat)
    requires FitsChunk(c, st, n)
    ensures n >= FRAME_SIZE && n % FRAME_SIZE == 0
  {}

  lemma FittingChunk(c: Config, st: Store, chunk: seq<Byte>)
    requires ValidConfig(c) && FitsChunk(c, MakeRoom(c, st), |chunk|)
    ensures AppendEach(c, MakeRoom(c, st), chunk) == SyncIfDue(c, Write(MakeRoom(c, st), chunk))
  {
    MakeRoomReady(c, st);
    hide AppendEach, MakeRoom, Write, SyncIfDue;
    ChunkIsAppendEach(c, MakeRoom(c, st), chunk);
  }

  lemma MakeRoomKeepsStream(c: Config, st: Store)
    ensures Stream(MakeRoom(c, st)) == Stream(st)
  {
    RotateKeepsStream(st);
  }

  // ------------------------------------------------------------- archive names across runs

  /** A rotation at clock reading (s, n) when that archive name is taken, by other bytes: they are gone. */
  lemma RotationReplaces(d: Snapshot, file: string, s: nat, n: nat, q: nat)
    requires file in d.files && ArchiveName.Name(file, s, n, q) in d.files
    ensures var archive := ArchiveName.Name(file, s, n, q);
            var r := Renamed(d, file, archive);
            && archive in r.files && r.files[archive] == d.files[file]
            && ((forall a :: a in d.files && a != file ==> a in r.files && r.files[a] == d.files[a])
                  <==> d.files[archive] == d.files[file])
  {
    ArchiveName.NameIsNotActive(file, s, n, q);
    hide ArchiveName.Name;
    RenameKeepsArchives(d.files, file, ArchiveName.Name(file, s, n, q));
  }

  /** Archive names of one run differ, but sequence numbers start at 0 in every run: with the clock set
      back to the same reading, a rotation destroys a segment of an earlier run. */
  lemma CollidingRename(file: string, earlier: seq<Byte>, later: seq<Byte>)
    requires earlier != later
    ensures var first := ArchiveName.Name(file, 5, 7, 0);
            var s := Snapshot(map[first := earlier, file := later], [first]);
            var r := Renamed(s, file, ArchiveName.Name(file, 5, 7, 0));
            && first != file && Archived(s) == [earlier]
            && Archived(r) == [later, later] && forall a :: a in r.files ==> r.files[a] != earlier
  {
    ArchiveName.NameIsNotActive(file, 5, 7, 0);
    hide ArchiveName.Name;
    var first := ArchiveName.Name(file, 5, 7, 0);
    var s := Snapshot(map[first := earlier, file := later], [first]);
    var r := Renamed(s, file, first);
    assert s.order[0] == first && r.order == [first, first];
    assert Archived(s) == [earlier];
    assert Archived(r) == [later, later];
  }
}
