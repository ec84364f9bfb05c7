/** The storage directory: file names, their bytes, and what a process stop at any moment leaves.

    Every system call may fail.  `trace` records the directory after each call, and after each byte of
    a write, so a property of all recorded states is a property of stopping anywhere. */
module Directory {
  import opened Codec
  import opened Sequences

  /** `order` lists the names given by renames, in the order of the renames. */
  datatype Snapshot = Snapshot(files: map<string, seq<Byte>>, order: seq<string>)

  datatype OpenResult = Created | Exists | Failed

  /** The bytes of the archives, oldest first. */
  ghost function Archived(s: Snapshot): seq<seq<Byte>> {
    seq(|s.order|, i requires 0 <= i < |s.order| => if s.order[i] in s.files then s.files[s.order[i]] else [])
  }

  ghost function ActiveBytes(s: Snapshot, name: string): seq<Byte> {
    if name in s.files then s.files[name] else []
  }

  /** All bytes of the archives and of the active file, if there is one. */
  ghost function Raw(s: Snapshot, name: string): seq<Byte> {
    Flatten(Archived(s)) + ActiveBytes(s, name)
  }

  /** The archives are there, under different names, none of them the active one's, each a whole number
      of frames. */
  ghost predicate Orderly(s: Snapshot, name: string) {
    && (forall i :: 0 <= i < |s.order| ==>
        s.order[i] in s.files && s.order[i] != name && |s.files[s.order[i]]| % FRAME_SIZE == 0)
    && (forall i, j :: 0 <= i < j < |s.order| ==> s.order[i] != s.order[j])
  }

  /** The states that one write of `bytes` passes through, up to `n` bytes. */
  ghost function Writing(s: Snapshot, name: string, bytes: seq<Byte>, n: nat): seq<Snapshot>
    requires name in s.files && n <= |bytes|
  {
    seq(n, k requires 0 <= k < n => s.(files := s.files[name := s.files[name] + bytes[..k + 1]]))
  }

  class Disk {
    var files: map<string, seq<Byte>>
    ghost var order: seq<string>
    ghost var durable: map<string, nat>      // how much of a file the last fdatasync covered
    ghost var clobbered: bool                // some rename has replaced an existing file
    ghost var trace: seq<Snapshot>
    ghost var failures: nat                  // the calls so far that failed
    ghost var readings: seq<(nat, nat)>      // what the clock has answered
    ghost var listed: set<string>            // the names that the last fsync of the directory covered
    ghost var descriptors: int               // how many are open

    ghost function Now(): Snapshot
      reads this
    {
      Snapshot(files, order)
    }

    /** `openat` with O_CREAT and O_EXCL. */
    method CreateExclusive(name: string) returns (r: OpenResult)
      modifies `files, `durable, `trace, `failures, `descriptors
      ensures descriptors == old(descriptors) + if r.Created? then 1 else 0
      ensures r.Exists? ==> name in old(files)
      ensures r.Created? ==> name !in old(files)
      ensures files == (if r.Created? then old(files)[name := []] else old(files))
      ensures durable == (if r.Created? then old(durable)[name := 0] else old(durable))
      ensures order == old(order) && clobbered == old(clobbered) && trace == old(trace) + [Now()]
      ensures failures == old(failures) + if r.Failed? then 1 else 0
    {
      var fails := *;
      if fails {
        r := Failed;
        failures := failures + 1;
      } else if name in files {
        r := Exists;
      } else {
        r := Created;
        descriptors := descriptors + 1;
        files := files[name := []];
        durable := durable[name := 0];
      }
      trace := trace + [Now()];
    }

    /** `open` or `openat` of what is there. */
    method Open() returns (ok: bool)
      modifies `failures, `descriptors
      ensures failures == old(failures) + if ok then 0 else 1
      ensures descriptors == old(descriptors) + if ok then 1 else 0
    {
      ok := *;
      descriptors := descriptors + if ok then 1 else 0;
      Counted(ok);
    }

    /** `close`: the descriptor is gone, whatever it answers. */
    method Close() returns (ok: bool)
      modifies `failures, `descriptors
      ensures failures == old(failures) + if ok then 0 else 1
      ensures descriptors == old(descriptors) - 1
    {
      ok := *;
      descriptors := descriptors - 1;
      Counted(ok);
    }

    /** `fsync` of the directory. */
    method SyncDirectory() returns (ok: bool)
      modifies `failures, `listed
      ensures failures == old(failures) + if ok then 0 else 1
      ensures listed == if ok then files.Keys else old(listed)
    {
      ok := *;
      listed := if ok then files.Keys else listed;
      Counted(ok);
    }

    /** A call that changes nothing: `fstat`. */
    method Attempt() returns (ok: bool)
      modifies `failures
      ensures failures == old(failures) + if ok then 0 else 1
    {
      ok := *;
      Counted(ok);
    }

    /** `clock_gettime`: seconds and nanoseconds. */
    method ReadClock(clock: (nat, nat) -> bool) returns (ok: bool, seconds: nat, nanoseconds: nat)
      modifies `failures, `readings
      ensures ok ==> clock(seconds, nanoseconds)
      ensures readings == old(readings) + if ok then [(seconds, nanoseconds)] else []
      ensures failures == old(failures) + if ok then 0 else 1
    {
      var fails: bool, tvSec: nat, tvNsec: nat := *, *, *;
      seconds, nanoseconds := tvSec, tvNsec;
      ok := !fails && clock(seconds, nanoseconds);
      readings := readings + if ok then [(seconds, nanoseconds)] else [];
      Counted(ok);
    }

    ghost method Counted(ok: bool)
      modifies `failures
      ensures failures == old(failures) + if ok then 0 else 1
    {
      failures := failures + if ok then 0 else 1;
    }

    /** `write`: some bytes are appended, or none and an error is reported. */
    method Write(name: string, bytes: seq<Byte>) returns (n: int)
      requires name in files
      modifies `files, `trace, `failures
      ensures n <= |bytes|
      ensures n <= 0 ==> files == old(files) && trace == old(trace)
      ensures n > 0 ==>
        && files == old(files)[name := old(files)[name] + bytes[..n]]
        && trace == old(trace) + Writing(Snapshot(old(files), old(order)), name, bytes, n)
      ensures order == old(order) && durable == old(durable) && clobbered == old(clobbered)
      ensures failures == old(failures) + if n > 0 then 0 else 1
    {
      n := *;
      if n > |bytes| {
        n := |bytes|;
      }
      if n > 0 {
        trace := trace + Writing(Now(), name, bytes, n);
        files := files[name := files[name] + bytes[..n]];
      }
      Counted(n > 0);
    }

    method Fdatasync(name: string) returns (ok: bool)
      requires name in files
      modifies `durable, `failures
      ensures durable == (if ok then old(durable)[name := |files[name]|] else old(durable))
      ensures failures == old(failures) + if ok then 0 else 1
    {
      ok := *;
      if ok {
        durable := durable[name := |files[name]|];
      }
      Counted(ok);
    }

    /** `renameat`: replaces an existing file without notice. */
    method Rename(src: string, dst: string) returns (ok: bool)
      requires src in files && src != dst
      modifies `files, `order, `durable, `clobbered, `trace, `failures
      ensures !ok ==>
        files == old(files) && order == old(order) && durable == old(durable) && clobbered == old(clobbered)
      ensures ok ==>
        && files == (old(files) - {src})[dst := old(files)[src]] && order == old(order) + [dst]
        && durable == (old(durable) - {src})[dst := if src in old(durable) then old(durable)[src] else 0]
        && clobbered == (old(clobbered) || dst in old(files))
      ensures trace == old(trace) + [Now()]
      ensures failures == old(failures) + if ok then 0 else 1
    {
      ok := *;
      if ok {
        clobbered := clobbered || dst in files;
        files := (files - {src})[dst := files[src]];
        durable := (durable - {src})[dst := if src in durable then durable[src] else 0];
        order := order + [dst];
      }
      Counted(ok);
      trace := trace + [Now()];
    }

    method Truncate(name: string, size: nat) returns (ok: bool)
      requires name in files && size <= |files[name]|
      modifies `files, `durable, `trace, `failures
      ensures files == (if ok then old(files)[name := old(files)[name][..size]] else old(files))
      ensures order == old(order) && clobbered == old(clobbered) && trace == old(trace) + [Now()]
      ensures durable == (if ok then old(durable)[name := 0] else old(durable))
      ensures failures == old(failures) + if ok then 0 else 1
    {
      ok := *;
      if ok {
        files := files[name := files[name][..size]];
        durable := durable[name := 0];
      }
      Counted(ok);
      trace := trace + [Now()];
    }
  }

  // ------------------------------------------------------------- what stopping leaves

  /** The whole frames at the beginning of `bytes`. */
  ghost function Whole(bytes: seq<Byte>): seq<Byte> { bytes[..|bytes| - |bytes| % FRAME_SIZE] }

  /** What `openFile` makes of a directory: the active file exists and ends with a whole frame. */
  ghost function Recovered(s: Snapshot, name: string): Snapshot {
    s.(files := s.files[name := Whole(ActiveBytes(s, name))])
  }

  /** Stopped between `base` stored and `data` written after it: some prefix of `data` is there. */
  ghost predicate Safe(s: Snapshot, name: string, base: seq<Byte>, data: seq<Byte>) {
    Orderly(s, name) && base <= Raw(s, name) <= base + data
  }

  ghost predicate AllSafe(trace: seq<Snapshot>, from: nat, name: string, base: seq<Byte>, data: seq<Byte>) {
    forall k {:trigger trace[k]} :: from <= k < |trace| ==> Safe(trace[k], name, base, data)
  }

  lemma AlignedSum(a: nat, b: nat)
    requires a % FRAME_SIZE == 0 && b % FRAME_SIZE == 0
    ensures (a + b) % FRAME_SIZE == 0
  {}

  lemma {:induction false} FlattenAligned(parts: seq<seq<Byte>>)
    requires forall i :: 0 <= i < |parts| ==> |parts[i]| % FRAME_SIZE == 0
    ensures |Flatten(parts)| % FRAME_SIZE == 0
  {
    if parts != [] {
      var n := |parts| - 1;
      FlattenAligned(parts[..n]);
      assert |Flatten(parts)| == |Flatten(parts[..n])| + |parts[n]|;
      hide Flatten;
      AlignedSum(|Flatten(parts[..n])|, |parts[n]|);
    }
  }

  lemma ActiveIsNotArchived(s: Snapshot, name: string, bytes: seq<Byte>)
    requires Orderly(s, name)
    ensures var r := s.(files := s.files[name := bytes]);
            Orderly(r, name) && Archived(r) == Archived(s) && ActiveBytes(r, name) == bytes
  {}

  lemma ArchivesAligned(s: Snapshot, name: string)
    requires Orderly(s, name)
    ensures |Flatten(Archived(s))| % FRAME_SIZE == 0
  {
    FlattenAligned(Archived(s));
  }

  /** Recovery keeps exactly the whole frames of everything stored, in order. */
  lemma RecoveredIsWhole(s: Snapshot, name: string)
    requires Orderly(s, name)
    ensures Orderly(Recovered(s, name), name)
    ensures Raw(Recovered(s, name), name) == Whole(Raw(s, name))
  {
    ActiveIsNotArchived(s, name, Whole(ActiveBytes(s, name)));
    ArchivesAligned(s, name);
    WholeAfterAligned(Flatten(Archived(s)), ActiveBytes(s, name));
    hide Whole, Orderly, Archived, ActiveBytes, Flatten;
  }

  lemma WholeAfterAligned(a: seq<Byte>, b: seq<Byte>)
    requires |a| % FRAME_SIZE == 0
    ensures Whole(a + b) == a + Whole(b)
  {}

  /** Stop the process anywhere while `data` is being appended, and reopen: the store holds the old
      stream and the longest whole-frame prefix of what had been written of `data`; no frame is lost,
      duplicated or split. */
  lemma StoppedAnywhere(s: Snapshot, name: string, base: seq<Byte>, data: seq<Byte>)
    requires Safe(s, name, base, data) && |base| % FRAME_SIZE == 0
    ensures exists n :: 0 <= n <= |data| && Raw(s, name) == base + data[..n]
                        && Raw(Recovered(s, name), name) == base + Whole(data[..n])
  {
    RecoveredIsWhole(s, name);
    var raw := Raw(s, name);
    var n := |raw| - |base|;
    hide Raw, Whole;
    assert raw == (base + data)[..|raw|] == base + data[..n];
    WholeAfterAligned(base, data[..n]);
  }

  lemma SafeInLarger(s: Snapshot, name: string, base: seq<Byte>, before: seq<Byte>, chunk: seq<Byte>, after: seq<Byte>)
    requires Safe(s, name, base + before, chunk)
    ensures Safe(s, name, base, before + chunk + after)
  {
    var raw := Raw(s, name);
    assert base <= base + before <= raw;
    assert base + before + chunk <= base + (before + chunk + after);
    assert raw <= base + (before + chunk + after);
  }

  /** The archived bytes survive a rename exactly when its target name is new, or already held the very
      same bytes.  `renameat` does not check, and archive names can repeat: see
      `FileStorage.CollidingRename`. */
  lemma RenameKeepsArchives(files: map<string, seq<Byte>>, src: string, dst: string)
    requires src in files && src != dst
    ensures var after := (files - {src})[dst := files[src]];
            (forall n :: n in files && n != src ==> n in after && after[n] == files[n])
              <==> (dst !in files || files[dst] == files[src])
  {}
}
