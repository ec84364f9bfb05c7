/** What one client contributes: its bytes cut back into frames.

    TCP delivers a client's bytes in arbitrary pieces.  `ReceiveAll` handles the pieces one by one,
    as `readClient` does; `Frames` looks at the whole byte stream at once.  They agree. */
module Reassembly {
  import opened Codec
  import opened Sequences

  /** The longest run of well-formed whole frames at the beginning of `bytes`. */
  function Frames(bytes: seq<Byte>): (fs: seq<Frame>)
    ensures |fs| * FRAME_SIZE <= |bytes|
  {
    if |bytes| >= FRAME_SIZE && WellFormed(bytes[..FRAME_SIZE])
    then [bytes[..FRAME_SIZE]] + Frames(bytes[FRAME_SIZE..])
    else []
  }

  /** What follows the frames: less than a frame, or a malformed one. */
  function Rest(bytes: seq<Byte>): seq<Byte> {
    bytes[|Frames(bytes)| * FRAME_SIZE..]
  }

  predicate Malformed(bytes: seq<Byte>) { |Rest(bytes)| >= FRAME_SIZE }

  /** `fs` is the maximal valid whole-frame prefix of `bytes`. */
  ghost predicate MaximalPrefix(fs: seq<Frame>, bytes: seq<Byte>) {
    && Flatten(fs) <= bytes
    && (forall f <- fs :: WellFormed(f))
    && (var rest := bytes[|Flatten(fs)|..]; |rest| < FRAME_SIZE || !WellFormed(rest[..FRAME_SIZE]))
  }

  lemma {:induction false} FlattenLength(fs: seq<Frame>)
    ensures |Flatten(fs)| == |fs| * FRAME_SIZE
  {
    if fs != [] {
      FlattenLength(fs[..|fs| - 1]);
    }
  }

  /** `Frames` is the maximal valid prefix, and nothing else is. */
  lemma {:induction false} FramesIsMaximalPrefix(bytes: seq<Byte>, fs: seq<Frame>)
    ensures MaximalPrefix(fs, bytes) <==> fs == Frames(bytes)
  {
    hide WellFormed;
    if fs == [] {
      assert bytes[0..] == bytes;
      assert Flatten(fs) == [];
    } else {
      assert fs == [fs[0]] + fs[1..];
      FlattenJoins([fs[0]], fs[1..]);
      FlattenOne(fs[0]);
      if |bytes| >= FRAME_SIZE && fs[0] == bytes[..FRAME_SIZE] {
        var tail := bytes[FRAME_SIZE..];
        FramesIsMaximalPrefix(tail, fs[1..]);
        var flat := Flatten(fs[1..]);
        assert bytes == fs[0] + tail;
        assert Flatten(fs) <= bytes <==> flat <= tail;
        assert flat <= tail ==> bytes[|Flatten(fs)|..] == tail[|flat|..];
        assert (forall f <- fs :: WellFormed(f)) <==> WellFormed(fs[0]) && (forall f <- fs[1..] :: WellFormed(f));
      }
    }
  }

  /** Later bytes are handled as if the handled ones had never been there; after a malformed frame
      they are not handled at all. */
  lemma {:induction false} FramesAppend(a: seq<Byte>, b: seq<Byte>)
    ensures Frames(a + b) == Frames(a) + if Malformed(a) then [] else Frames(Rest(a) + b)
    decreases |a|
  {
    hide WellFormed;
    if |a| >= FRAME_SIZE && WellFormed(a[..FRAME_SIZE]) {
      FramesStep(a);
      var tail := a[FRAME_SIZE..];
      FramesAppend(tail, b);
      assert (a + b)[..FRAME_SIZE] == a[..FRAME_SIZE];
      assert (a + b)[FRAME_SIZE..] == tail + b;
      FramesStep(a + b);
      hide Frames, Rest;
    } else {
      assert Rest(a) == a;
      if |a| >= FRAME_SIZE {
        assert (a + b)[..FRAME_SIZE] == a[..FRAME_SIZE];
      }
    }
  }

  lemma FramesStep(a: seq<Byte>)
    requires |a| >= FRAME_SIZE && WellFormed(a[..FRAME_SIZE])
    ensures Frames(a) == [a[..FRAME_SIZE]] + Frames(a[FRAME_SIZE..])
    ensures Rest(a) == Rest(a[FRAME_SIZE..])
  {
    hide WellFormed;
    var tail := a[FRAME_SIZE..];
    assert a[(1 + |Frames(tail)|) * FRAME_SIZE..] == tail[|Frames(tail)| * FRAME_SIZE..];
  }

  lemma RestAppend(a: seq<Byte>, b: seq<Byte>)
    ensures Malformed(a) ==> Malformed(a + b)
    ensures !Malformed(a) ==> Rest(a + b) == Rest(Rest(a) + b)
  {
    FramesAppend(a, b);
    var n := |Frames(a)| * FRAME_SIZE;
    hide Frames;
    assert (a + b)[n..] == Rest(a) + b;
    if !Malformed(a) {
      var m := |Frames(Rest(a) + b)| * FRAME_SIZE;
      assert (a + b)[n + m..] == (Rest(a) + b)[m..];
    }
  }

  // --------------------------------------------------- one client, piece by piece

  /** A connection: whether it still stands, the bytes it waits to complete, and what it contributed. */
  datatype Connection = Connection(open: bool, pending: seq<Byte>, published: seq<Frame>)

  /** One `recv` of `chunk`: the complete valid frames are published; a malformed frame closes. */
  function Receive(c: Connection, chunk: seq<Byte>): Connection {
    if !c.open then c
    else
      var bytes := c.pending + chunk;
      Connection(!Malformed(bytes), Rest(bytes), c.published + Frames(bytes))
  }

  function ReceiveAll(chunks: seq<seq<Byte>>): Connection {
    if chunks == [] then Connection(true, [], [])
    else Receive(ReceiveAll(chunks[..|chunks| - 1]), chunks[|chunks| - 1])
  }

  /** However the stream is cut, the client contributes exactly the valid prefix of what it sent,
      and its connection is closed exactly when a malformed frame was sent. */
  lemma {:induction false} FragmentationIndependent(chunks: seq<seq<Byte>>)
    ensures var c, bytes := ReceiveAll(chunks), Flatten(chunks);
            && c.published == Frames(bytes)
            && (c.open <==> !Malformed(bytes))
            && (c.open ==> c.pending == Rest(bytes) && |c.pending| < FRAME_SIZE)
    decreases |chunks|
  {
    if chunks == [] {
    } else {
      FragmentationIndependent(chunks[..|chunks| - 1]);
      FramesAppend(Flatten(chunks[..|chunks| - 1]), chunks[|chunks| - 1]);
      RestAppend(Flatten(chunks[..|chunks| - 1]), chunks[|chunks| - 1]);
      hide Frames, Rest;
    }
  }
}
