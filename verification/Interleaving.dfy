/** Several clients in one ring: `sources[i]` is the connection that published frame `i` of `log`. */
module Interleaving {
  import opened Codec
  import opened Reassembly
  import opened Sequences

  /** The frames that connection `c` published, in order. */
  ghost function Select(log: seq<Frame>, sources: seq<nat>, c: nat): seq<Frame>
    requires |log| == |sources|
  {
    if log == [] then []
    else
      var n := |log| - 1;
      Select(log[..n], sources[..n], c) + if sources[n] == c then [log[n]] else []
  }

  ghost function Same(c: nat, n: nat): (r: seq<nat>)
    ensures |r| == n
  {
    seq(n, _ => c)
  }

  /** A batch of one connection extends what it published and nothing else. */
  lemma {:induction false} SelectBatch(log: seq<Frame>, sources: seq<nat>, frames: seq<Frame>, d: nat, c: nat)
    requires |log| == |sources|
    ensures Select(log + frames, sources + Same(d, |frames|), c)
         == Select(log, sources, c) + if c == d then frames else []
    decreases |frames|
  {
    if frames == [] {
      assert log + frames == log && sources + Same(d, 0) == sources;
      assert Select(log, sources, c) + [] == Select(log, sources, c);
    } else {
      var n := |frames| - 1;
      SelectBatch(log, sources, frames[..n], d, c);
      assert (log + frames)[..|log| + n] == log + frames[..n];
      assert (sources + Same(d, n + 1))[..|log| + n] == sources + Same(d, n);
      assert frames[..n] + [frames[n]] == frames;
    }
  }

  /** Every connection published exactly the maximal valid prefix of the bytes it sent, in order,
      whatever the others did in between. */
  ghost predicate History(log: seq<Frame>, sources: seq<nat>, received: seq<seq<Byte>>) {
    && |log| == |sources|
    && (forall i :: 0 <= i < |sources| ==> sources[i] < |received|)
    && (forall c :: 0 <= c < |received| ==> Select(log, sources, c) == Frames(received[c]))
  }

  lemma {:induction false} NothingSelected(log: seq<Frame>, sources: seq<nat>, c: nat)
    requires |log| == |sources| && forall i :: 0 <= i < |sources| ==> sources[i] < c
    ensures Select(log, sources, c) == []
    decreases |log|
  {
    if log != [] {
      NothingSelected(log[..|log| - 1], sources[..|log| - 1], c);
    }
  }

  lemma HistoryOfNewcomer(log: seq<Frame>, sources: seq<nat>, received: seq<seq<Byte>>)
    requires History(log, sources, received)
    ensures History(log, sources, received + [[]])
  {
    NothingSelected(log, sources, |received|);
  }

  /** One `recv`: the complete valid frames among the unread and the new bytes are published. */
  lemma HistoryOfReceive(log: seq<Frame>, sources: seq<nat>, received: seq<seq<Byte>>, d: nat, chunk: seq<Byte>)
    requires History(log, sources, received) && d < |received| && !Malformed(received[d])
    ensures var frames := Frames(Rest(received[d]) + chunk);
            History(log + frames, sources + Same(d, |frames|), received[d := received[d] + chunk])
    ensures Malformed(received[d] + chunk) <==> Malformed(Rest(received[d]) + chunk)
    ensures Rest(received[d] + chunk) == Rest(Rest(received[d]) + chunk)
  {
    FramesAppend(received[d], chunk);
    RestAppend(received[d], chunk);
    var frames := Frames(Rest(received[d]) + chunk);
    var after := received[d := received[d] + chunk];
    hide Frames, Rest;
    forall c | 0 <= c < |after|
      ensures Select(log + frames, sources + Same(d, |frames|), c) == Frames(after[c])
    {
      SelectBatch(log, sources, frames, d, c);
      assert Select(log, sources, c) + [] == Select(log, sources, c);
    }
  }

  lemma {:induction false} SelectHas(log: seq<Frame>, sources: seq<nat>, i: nat)
    requires |log| == |sources| && i < |log|
    ensures log[i] in Select(log, sources, sources[i])
    decreases |log|
  {
    var n := |log| - 1;
    if i < n {
      SelectHas(log[..n], sources[..n], i);
    }
  }

  /** Every frame published is well-formed, so the bytes of the log can only be cut back into the log. */
  lemma HistoryIsReadable(log: seq<Frame>, sources: seq<nat>, received: seq<seq<Byte>>)
    requires History(log, sources, received)
    ensures forall f <- log :: WellFormed(f)
    ensures Frames(Flatten(log)) == log
  {
    hide WellFormed, Frames;
    forall i | 0 <= i < |log|
      ensures WellFormed(log[i])
    {
      SelectHas(log, sources, i);
      var bytes := received[sources[i]];
      FramesIsMaximalPrefix(bytes, Frames(bytes));
    }
    var bytes := Flatten(log);
    assert bytes[|bytes|..] == [];
    FramesIsMaximalPrefix(bytes, log);
  }
}
