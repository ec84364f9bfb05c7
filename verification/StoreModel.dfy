/** What storage should hold: the store as a value, appending one frame at a time.

    `FileStore.AppendFrames` handles a batch in chunks; it is proved equal to `AppendEach`. */
module StoreModel {
  import opened Codec
  import opened Sequences

  datatype Config = Config(maxSegmentBytes: nat, syncEveryBytes: nat)

  /** `FileStore::validateConfig`. */
  predicate ValidConfig(c: Config) {
    && c.maxSegmentBytes >= FRAME_SIZE && c.maxSegmentBytes % FRAME_SIZE == 0
    && c.syncEveryBytes <= c.maxSegmentBytes
  }

  /** A sync or a rotation, at a position counted in bytes appended since open. */
  datatype Mark = Synced(at: nat) | Rotated(at: nat)

  datatype Store = Store(archives: seq<seq<Byte>>, active: seq<Byte>, unsynced: nat, appended: nat, marks: seq<Mark>)

  function Sync(st: Store): Store {
    st.(unsynced := 0, marks := st.marks + [Synced(st.appended)])
  }

  /** A rotation syncs the segment first. */
  function Rotate(st: Store): Store {
    var synced := Sync(st);
    synced.(archives := st.archives + [st.active], active := [], marks := synced.marks + [Rotated(st.appended)])
  }

  function Write(st: Store, bytes: seq<Byte>): Store {
    st.(active := st.active + bytes, unsynced := st.unsynced + |bytes|, appended := st.appended + |bytes|)
  }

  predicate SyncDue(c: Config, st: Store) { c.syncEveryBytes != 0 && st.unsynced >= c.syncEveryBytes }

  function SyncIfDue(c: Config, st: Store): Store {
    if SyncDue(c, st) then Sync(st) else st
  }

  /** What happens before a frame is written: a full segment is rotated away. */
  function MakeRoom(c: Config, st: Store): Store {
    SyncIfDue(c, if |st.active| >= c.maxSegmentBytes then Rotate(st) else st)
  }

  function AppendFrame(c: Config, st: Store, frame: seq<Byte>): Store {
    SyncIfDue(c, Write(MakeRoom(c, st), frame))
  }

  /** The frames of `bytes` appended one by one. */
  function AppendEach(c: Config, st: Store, bytes: seq<Byte>): Store
    decreases |bytes|
  {
    if |bytes| < FRAME_SIZE then st
    else AppendEach(c, AppendFrame(c, st, bytes[..FRAME_SIZE]), bytes[FRAME_SIZE..])
  }

  // ------------------------------------------------------------- batches

  /** Any split into batches gives the same store, the same syncs and the same rotations. */
  lemma {:induction false} AppendEachSplits(c: Config, st: Store, a: seq<Byte>, b: seq<Byte>)
    requires |a| % FRAME_SIZE == 0
    ensures AppendEach(c, st, a + b) == AppendEach(c, AppendEach(c, st, a), b)
    decreases |a|
  {
    if |a| == 0 {
      assert a + b == b;
    } else {
      assert (a + b)[..FRAME_SIZE] == a[..FRAME_SIZE];
      assert (a + b)[FRAME_SIZE..] == a[FRAME_SIZE..] + b;
      AppendEachSplits(c, AppendFrame(c, st, a[..FRAME_SIZE]), a[FRAME_SIZE..], b);
    }
  }

  ghost function InBatches(c: Config, st: Store, batches: seq<seq<Byte>>): Store {
    if batches == [] then st else AppendEach(c, InBatches(c, st, batches[..|batches| - 1]), batches[|batches| - 1])
  }

  lemma {:induction false} BatchingDoesNotMatter(c: Config, st: Store, batches: seq<seq<Byte>>)
    requires forall i :: 0 <= i < |batches| ==> |batches[i]| % FRAME_SIZE == 0
    ensures InBatches(c, st, batches) == AppendEach(c, st, Flatten(batches))
    ensures |Flatten(batches)| % FRAME_SIZE == 0
    decreases |batches|
  {
    if batches == [] {
    } else {
      hide AppendEach;
      var init, last := batches[..|batches| - 1], batches[|batches| - 1];
      BatchingDoesNotMatter(c, st, init);
      AppendEachSplits(c, st, Flatten(init), last);
    }
  }

  /** Room for a frame, and no sync overdue. */
  predicate Ready(c: Config, st: Store) { |st.active| < c.maxSegmentBytes && !SyncDue(c, st) }

  lemma MakeRoomReady(c: Config, st: Store)
    requires ValidConfig(c)
    ensures Ready(c, MakeRoom(c, st)) && MakeRoom(c, MakeRoom(c, st)) == MakeRoom(c, st)
    ensures MakeRoom(c, st).appended == st.appended
  {}

  /** Frames are appended to a store with room as to the store before room was made. */
  lemma AppendAfterMakeRoom(c: Config, st: Store, bytes: seq<Byte>)
    requires ValidConfig(c) && |bytes| >= FRAME_SIZE
    ensures AppendEach(c, MakeRoom(c, st), bytes) == AppendEach(c, st, bytes)
  {
    MakeRoomReady(c, st);
  }

  /** A chunk that fits the segment, and reaches the sync distance at its last frame at the earliest,
      is written with one sync check at its end. */
  lemma {:induction false} ChunkIsAppendEach(c: Config, st: Store, chunk: seq<Byte>)
    requires ValidConfig(c) && Ready(c, st) && |chunk| > 0 && |chunk| % FRAME_SIZE == 0
    requires |st.active| + |chunk| <= c.maxSegmentBytes
    requires c.syncEveryBytes != 0 ==> st.unsynced + |chunk| < c.syncEveryBytes + FRAME_SIZE
    ensures AppendEach(c, st, chunk) == SyncIfDue(c, Write(st, chunk))
    decreases |chunk|
  {
    var first, rest := chunk[..FRAME_SIZE], chunk[FRAME_SIZE..];
    var next := Write(st, first);
    assert MakeRoom(c, st) == st;
    if rest == [] {
      assert first == chunk;
      assert AppendEach(c, SyncIfDue(c, next), rest) == SyncIfDue(c, next);
    } else {
      ChunkIsAppendEach(c, next, rest);
      assert st.active + first + rest == st.active + chunk;
    }
  }

  // ------------------------------------------------------------- what is kept

  /** All bytes stored, in order. */
  ghost function Stream(st: Store): seq<Byte> { Flatten(st.archives) + st.active }

  lemma RotateKeepsStream(st: Store)
    ensures Stream(Rotate(st)) == Stream(st)
  {
    assert Rotate(st).archives[..|st.archives|] == st.archives;
  }

  lemma AppendFrameExtendsStream(c: Config, st: Store, frame: seq<Byte>)
    ensures Stream(AppendFrame(c, st, frame)) == Stream(st) + frame
    ensures AppendFrame(c, st, frame).appended == st.appended + |frame|
  {
    RotateKeepsStream(st);
    var room := MakeRoom(c, st);
    assert Flatten(room.archives) + (room.active + frame) == Stream(room) + frame;
  }

  /** Nothing is lost, duplicated or moved: the stream grows by exactly the frames appended. */
  lemma {:induction false} AppendEachExtendsStream(c: Config, st: Store, bytes: seq<Byte>)
    requires |bytes| % FRAME_SIZE == 0
    ensures Stream(AppendEach(c, st, bytes)) == Stream(st) + bytes
    ensures AppendEach(c, st, bytes).appended == st.appended + |bytes|
    decreases |bytes|
  {
    if bytes == [] {
      assert Stream(st) + bytes == Stream(st);
    } else {
      var frame, rest := bytes[..FRAME_SIZE], bytes[FRAME_SIZE..];
      AppendFrameExtendsStream(c, st, frame);
      AppendEachExtendsStream(c, AppendFrame(c, st, frame), rest);
      hide AppendFrame, Stream;
      assert Stream(st) + frame + rest == Stream(st) + (frame + rest);
      assert frame + rest == bytes;
    }
  }

  /** The position of the last sync, or of the opening. */
  function LastSync(marks: seq<Mark>): nat {
    if marks == [] then 0
    else if marks[|marks| - 1].Synced? then marks[|marks| - 1].at
    else LastSync(marks[..|marks| - 1])
  }

  /** Every rotation directly follows a sync at the same position: a segment is durable before it
      becomes an archive. */
  ghost predicate RotatedAfterSync(marks: seq<Mark>) {
    if marks == [] then true
    else
      var n := |marks| - 1;
      && RotatedAfterSync(marks[..n])
      && (marks[n].Rotated? ==> n > 0 && marks[n - 1] == Synced(marks[n].at))
  }

  ghost predicate Durable(c: Config, st: Store) {
    && st.unsynced + LastSync(st.marks) == st.appended
    && st.unsynced % FRAME_SIZE == 0 && |st.active| % FRAME_SIZE == 0
    && RotatedAfterSync(st.marks)
  }

  lemma SyncKeepsDurable(c: Config, st: Store)
    requires Durable(c, st)
    ensures Durable(c, Sync(st)) && LastSync(Sync(st).marks) == st.appended
  {
    assert Sync(st).marks[..|st.marks|] == st.marks;
  }

  lemma RotateKeepsDurable(c: Config, st: Store)
    requires Durable(c, st)
    ensures Durable(c, Rotate(st))
  {
    SyncKeepsDurable(c, st);
    var marks := Sync(st).marks + [Rotated(st.appended)];
    assert marks[..|marks| - 1] == Sync(st).marks;
  }

  lemma AppendFrameKeepsDurable(c: Config, st: Store, frame: seq<Byte>)
    requires Durable(c, st) && |frame| == FRAME_SIZE
    ensures Durable(c, AppendFrame(c, st, frame))
    ensures c.syncEveryBytes != 0 ==> AppendFrame(c, st, frame).unsynced < c.syncEveryBytes
  {
    var full := |st.active| >= c.maxSegmentBytes;
    RotateKeepsDurable(c, st);
    var room := if full then Rotate(st) else st;
    SyncKeepsDurable(c, room);
    hide LastSync, RotatedAfterSync;
    assert Durable(c, Write(MakeRoom(c, st), frame));
    SyncKeepsDurable(c, Write(MakeRoom(c, st), frame));
  }

  /** The bytes this store appended and has not synced are what `unsynced` counts; after an append they
      are fewer than the sync distance. */
  lemma {:induction false} AppendEachKeepsDurable(c: Config, st: Store, bytes: seq<Byte>)
    requires Durable(c, st) && |bytes| % FRAME_SIZE == 0
    ensures Durable(c, AppendEach(c, st, bytes))
    ensures bytes != [] && c.syncEveryBytes != 0 ==> AppendEach(c, st, bytes).unsynced < c.syncEveryBytes
    decreases |bytes|
  {
    if bytes == [] {
    } else {
      AppendFrameKeepsDurable(c, st, bytes[..FRAME_SIZE]);
      hide Durable, AppendFrame;
      AppendEachKeepsDurable(c, AppendFrame(c, st, bytes[..FRAME_SIZE]), bytes[FRAME_SIZE..]);
    }
  }

  /** Every sync that does not belong to a rotation comes when at least `distance` bytes have been
      written since the one before; none at all if the distance is zero. */
  ghost predicate SyncsDue(distance: nat, marks: seq<Mark>) {
    if marks == [] then true
    else
      var n := |marks| - 1;
      match marks[n]
      case Rotated(_) => n > 0 && marks[n - 1].Synced? && SyncsDue(distance, marks[..n - 1])
      case Synced(at) => 0 < distance <= at - LastSync(marks[..n]) && SyncsDue(distance, marks[..n])
  }

  lemma SyncIfDueIsDue(c: Config, st: Store)
    requires Durable(c, st) && SyncsDue(c.syncEveryBytes, st.marks)
    ensures Durable(c, SyncIfDue(c, st)) && SyncsDue(c.syncEveryBytes, SyncIfDue(c, st).marks)
  {
    SyncKeepsDurable(c, st);
    assert (st.marks + [Synced(st.appended)])[..|st.marks|] == st.marks;
  }

  lemma RotateIsDue(c: Config, st: Store)
    requires Durable(c, st) && SyncsDue(c.syncEveryBytes, st.marks)
    ensures Durable(c, Rotate(st)) && SyncsDue(c.syncEveryBytes, Rotate(st).marks)
  {
    RotateKeepsDurable(c, st);
    var n := |st.marks|;
    assert Rotate(st).marks[..n] == st.marks && Rotate(st).marks[n] == Synced(st.appended);
  }

  lemma AppendFrameIsDue(c: Config, st: Store, frame: seq<Byte>)
    requires Durable(c, st) && SyncsDue(c.syncEveryBytes, st.marks) && |frame| == FRAME_SIZE
    ensures SyncsDue(c.syncEveryBytes, AppendFrame(c, st, frame).marks)
  {
    RotateIsDue(c, st);
    hide SyncsDue, LastSync, RotatedAfterSync, SyncIfDue, Rotate;
    var room := if |st.active| >= c.maxSegmentBytes then Rotate(st) else st;
    SyncIfDueIsDue(c, room);
    SyncIfDueIsDue(c, Write(SyncIfDue(c, room), frame));
  }

  /** Appending syncs no more often than the distance asks for: with `AppendEachKeepsDurable`, which
      says that it syncs no less often, this fixes where the syncs are. */
  lemma {:induction false} AppendEachIsDue(c: Config, st: Store, bytes: seq<Byte>)
    requires Durable(c, st) && SyncsDue(c.syncEveryBytes, st.marks) && |bytes| % FRAME_SIZE == 0
    ensures SyncsDue(c.syncEveryBytes, AppendEach(c, st, bytes).marks)
    decreases |bytes|
  {
    if bytes != [] {
      AppendFrameIsDue(c, st, bytes[..FRAME_SIZE]);
      AppendFrameKeepsDurable(c, st, bytes[..FRAME_SIZE]);
      hide Durable, SyncsDue, AppendFrame;
      AppendEachIsDue(c, AppendFrame(c, st, bytes[..FRAME_SIZE]), bytes[FRAME_SIZE..]);
    }
  }

  /** Every segment archived by these appends has exactly the maximal size, but for the file found at
      open when that was already larger. */
  lemma {:induction false} ArchiveSizes(c: Config, st: Store, bytes: seq<Byte>)
    requires ValidConfig(c) && |bytes| % FRAME_SIZE == 0 && |st.active| % FRAME_SIZE == 0
    ensures var end := AppendEach(c, st, bytes);
            && st.archives <= end.archives
            && (bytes != [] ==> |end.active| <= c.maxSegmentBytes)
            && (forall i :: |st.archives| <= i < |end.archives| ==>
                  || |end.archives[i]| == c.maxSegmentBytes
                  || (i == |st.archives| && end.archives[i] == st.active && |st.active| > c.maxSegmentBytes))
    decreases |bytes|
  {
    if bytes != [] {
      var next := AppendFrame(c, st, bytes[..FRAME_SIZE]);
      ArchiveSizes(c, next, bytes[FRAME_SIZE..]);
      assert |next.active| <= c.maxSegmentBytes;
    }
  }
}
