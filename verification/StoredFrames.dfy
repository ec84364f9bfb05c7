/** The store as the Reader sees it: frames rather than bytes. */
module StoredFrames {
  import opened Codec
  import opened Sequences
  import opened StoreModel
  import opened Directory
  import R = Reassembly

  /** The store holds what was there at open and then exactly the frames of `stored`, of which the
      first `synced` are durable. */
  ghost predicate Holds(c: Config, view: Store, base: seq<Byte>, stored: seq<Frame>, synced: nat) {
    && Durable(c, view) && synced <= |stored|
    && Stream(view) == base + Flatten(stored)
    && view.appended == |stored| * FRAME_SIZE
    && view.unsynced == (|stored| - synced) * FRAME_SIZE
  }

  /** Syncs only move forward. */
  lemma AppendFrameSyncsForward(c: Config, st: Store, frame: seq<Byte>)
    requires Durable(c, st) && |frame| == FRAME_SIZE
    ensures LastSync(AppendFrame(c, st, frame).marks) >= LastSync(st.marks)
  {
    var full := |st.active| >= c.maxSegmentBytes;
    SyncKeepsDurable(c, st);
    RotateKeepsDurable(c, st);
    var room := if full then Rotate(st) else st;
    assert LastSync(room.marks) >= LastSync(st.marks) by {
      if full {
        var marks := Sync(st).marks;
        assert room.marks == marks + [Rotated(st.appended)];
        assert room.marks[..|marks|] == marks;
      }
    }
    SyncKeepsDurable(c, room);
    hide LastSync, RotatedAfterSync;
    var ready := MakeRoom(c, st);
    assert Durable(c, ready) && LastSync(ready.marks) >= LastSync(st.marks);
    SyncKeepsDurable(c, Write(ready, frame));
  }

  lemma {:induction false} AppendEachSyncsForward(c: Config, st: Store, bytes: seq<Byte>)
    requires Durable(c, st) && |bytes| % FRAME_SIZE == 0
    ensures LastSync(AppendEach(c, st, bytes).marks) >= LastSync(st.marks)
    decreases |bytes|
  {
    if bytes != [] {
      AppendFrameSyncsForward(c, st, bytes[..FRAME_SIZE]);
      AppendFrameKeepsDurable(c, st, bytes[..FRAME_SIZE]);
      hide Durable, AppendFrame;
      AppendEachSyncsForward(c, AppendFrame(c, st, bytes[..FRAME_SIZE]), bytes[FRAME_SIZE..]);
    }
  }

  lemma BatchAppended(c: Config, view: Store, frames: seq<Frame>)
    requires Durable(c, view)
    ensures var bytes := Flatten(frames);
            var after := AppendEach(c, view, bytes);
            && Durable(c, after) && Stream(after) == Stream(view) + bytes
            && after.appended == view.appended + |frames| * FRAME_SIZE
            && LastSync(after.marks) >= LastSync(view.marks)
            && (frames != [] && c.syncEveryBytes != 0 ==> after.unsynced < c.syncEveryBytes)
  {
    var bytes := Flatten(frames);
    R.FlattenLength(frames);
    hide Durable, AppendEach, Stream;
    AppendEachExtendsStream(c, view, bytes);
    AppendEachKeepsDurable(c, view, bytes);
    AppendEachSyncsForward(c, view, bytes);
  }

  /** Appending the bytes of a batch appends its frames; frames once durable stay so, and fewer bytes
      than the sync distance are left to sync. */
  lemma AppendHolds(c: Config, view: Store, base: seq<Byte>, stored: seq<Frame>, synced: nat, frames: seq<Frame>)
    returns (synced': nat)
    requires Holds(c, view, base, stored, synced)
    ensures Holds(c, AppendEach(c, view, Flatten(frames)), base, stored + frames, synced') && synced <= synced'
    ensures frames != [] && c.syncEveryBytes != 0 ==> (|stored + frames| - synced') * FRAME_SIZE < c.syncEveryBytes
  {
    hide AppendEach, Stream, Flatten, RotatedAfterSync, LastSync;
    var bytes := Flatten(frames);
    BatchAppended(c, view, frames);
    FlattenJoins(stored, frames);
    var after := AppendEach(c, view, bytes);
    synced' := (after.appended - after.unsynced) / FRAME_SIZE;
    assert base + Flatten(stored) + bytes == base + (Flatten(stored) + bytes);
    InFrames(after.appended, after.unsynced, |stored + frames|, synced);
  }

  lemma InFrames(appended: nat, unsynced: nat, frames: nat, synced: nat)
    requires appended == frames * FRAME_SIZE && unsynced % FRAME_SIZE == 0 && appended >= unsynced + synced * FRAME_SIZE
    ensures var durable := (appended - unsynced) / FRAME_SIZE;
            synced <= durable <= frames && unsynced == (frames - durable) * FRAME_SIZE
  {}

  lemma SyncHolds(c: Config, view: Store, base: seq<Byte>, stored: seq<Frame>, synced: nat)
    requires Holds(c, view, base, stored, synced)
    ensures Holds(c, Sync(view), base, stored, |stored|)
  {
    SyncKeepsDurable(c, view);
    hide LastSync, RotatedAfterSync;
  }

  /** A store just opened. */
  lemma OpenHolds(c: Config, archives: seq<seq<Byte>>, active: seq<Byte>)
    requires |active| % FRAME_SIZE == 0
    ensures var view := Store(archives, active, 0, 0, []);
            Holds(c, view, Stream(view), [], 0)
  {
    var view := Store(archives, active, 0, 0, []);
    assert Stream(view) + [] == Stream(view);
  }

  /** Safe for some of the frames is safe for more of them. */
  lemma SafeForMore(trace: seq<Snapshot>, from: nat, name: string, base: seq<Byte>, few: seq<Frame>, more: seq<Frame>)
    requires AllSafe(trace, from, name, base, Flatten(few))
    ensures AllSafe(trace, from, name, base, Flatten(few + more))
  {
    FlattenJoins(few, more);
    var a, b := Flatten(few), Flatten(more);
    hide Flatten, Raw, Orderly;
    assert base + (a + b) == (base + a) + b;
    forall k {:trigger trace[k]} | from <= k < |trace|
      ensures Safe(trace[k], name, base, a + b)
    {
      var raw := Raw(trace[k], name);
      assert raw <= base + a <= (base + a) + b;
    }
  }

  /** The states of a flush, after those before it. */
  lemma SafeFlush(trace: seq<Snapshot>, longer: seq<Snapshot>, from: nat, name: string, base: seq<Byte>,
                  stored: seq<Frame>, frames: seq<Frame>)
    requires from <= |trace| && trace <= longer
    requires AllSafe(trace, from, name, base, Flatten(stored + frames))
    requires AllSafe(longer, |trace|, name, base + Flatten(stored), Flatten(frames))
    ensures AllSafe(longer, from, name, base, Flatten(stored + frames))
  {
    FlattenJoins(stored, frames);
    var a, b := Flatten(stored), Flatten(frames);
    hide Flatten;
    forall k {:trigger longer[k]} | from <= k < |longer|
      ensures Safe(longer[k], name, base, a + b)
    {
      if k < |trace| {
        assert longer[k] == trace[k];
      } else {
        SafeInLarger(longer[k], name, base, a, b, []);
        assert a + b + [] == a + b;
      }
    }
  }
}
