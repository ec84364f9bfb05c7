/** What a batch transfer does when it is not interrupted, and why that is the same as moving the
    frames one at a time. */
module RingBatches {
  import opened RingCounters
  import opened Sequences
  import opened Spsc

  /** Frame `j` of `frames` written to the slot of counter `from + j`. */
  ghost function WriteFrames<F>(cap: nat, slots: seq<F>, from: nat, frames: seq<F>): (r: seq<F>)
    requires |slots| == cap > 0
    ensures |r| == cap
  {
    if frames == [] then slots
    else
      var n := |frames| - 1;
      WriteFrames(cap, slots, from, frames[..n])[Slot(from + n, cap) := frames[n]]
  }

  ghost function PushCount<F>(cap: nat, s: State<F>, frames: seq<F>): nat
    requires RingInv(cap, s)
  {
    if s.closed then 0 else Min(|frames|, cap - (s.head - s.tail))
  }

  /** The ring after `tryPushBatch(frames)`. */
  ghost function PushBatch<F>(cap: nat, s: State<F>, frames: seq<F>): State<F>
    requires RingInv(cap, s)
  {
    var taken := frames[..PushCount(cap, s, frames)];
    s.(slots := WriteFrames(cap, s.slots, s.head, taken), head := s.head + |taken|, log := s.log + taken)
  }

  /** The ring after `tryPush(frame)`. */
  ghost function PushOne<F>(cap: nat, s: State<F>, frame: F): State<F>
    requires |s.slots| == cap > 0
  {
    if s.closed || s.head - s.tail >= cap then s
    else s.(slots := s.slots[Slot(s.head, cap) := frame], head := s.head + 1, log := s.log + [frame])
  }

  /** The ring after offering the frames to `tryPush` one by one. */
  ghost function PushEach<F>(cap: nat, s: State<F>, frames: seq<F>): (r: State<F>)
    requires |s.slots| == cap > 0
    ensures |r.slots| == cap
  {
    if frames == [] then s
    else PushOne(cap, PushEach(cap, s, frames[..|frames| - 1]), frames[|frames| - 1])
  }

  /** One batch push leaves the same slots, counters and history as pushing frame by frame. */
  lemma {:induction false} PushBatchIsPushEach<F>(cap: nat, s: State<F>, frames: seq<F>)
    requires RingInv(cap, s)
    ensures PushBatch(cap, s, frames) == PushEach(cap, s, frames)
    decreases |frames|
  {
    hide Readable, Slot;
    if frames == [] {
    } else {
      var n := |frames| - 1;
      PushBatchIsPushEach(cap, s, frames[..n]);
      var count := PushCount(cap, s, frames);
      if count == n + 1 {
        assert frames[..count] == frames;
        assert frames[..n][..PushCount(cap, s, frames[..n])] == frames[..n];
        assert s.log + frames == s.log + frames[..n] + [frames[n]];
      } else {
        TakeTake(frames, n, count);
      }
    }
  }

  ghost function PopCount<F>(s: State<F>, limit: nat): nat
    requires s.tail <= s.head
  {
    Min(limit, s.head - s.tail)
  }

  /** The `count` frames that `tryPopBatch` copies out: the slots from `tail` to the end of the array,
      then those from slot zero. */
  ghost function PopFrames<F>(cap: nat, slots: seq<F>, tail: nat, count: nat): seq<F>
    requires |slots| == cap > 0 && count <= cap
  {
    var index := Slot(tail, cap);
    var first := Min(count, cap - index);
    slots[index..index + first] + slots[..count - first]
  }

  /** The tail after one call of `tryPop`, and the frame it copies out, if any. */
  ghost function PopOne<F>(cap: nat, slots: seq<F>, head: nat, tail: nat): (nat, seq<F>)
    requires |slots| == cap > 0
  {
    if tail == head then (tail, []) else (tail + 1, [slots[Slot(tail, cap)]])
  }

  /** The tail after `calls` calls of `tryPop`, and all the frames they copied out. */
  ghost function PopEach<F>(cap: nat, slots: seq<F>, head: nat, tail: nat, calls: nat): (nat, seq<F>)
    requires |slots| == cap > 0
  {
    if calls == 0 then (tail, [])
    else
      var before := PopEach(cap, slots, head, tail, calls - 1);
      var last := PopOne(cap, slots, head, before.0);
      (last.0, before.1 + last.1)
  }

  lemma {:induction false} PopEachIsOldest<F>(cap: nat, slots: seq<F>, tail: nat, log: seq<F>, calls: nat)
    requires |slots| == cap > 0 && tail <= |log| && Readable(cap, slots, tail, log)
    ensures var t := tail + Min(calls, |log| - tail);
            PopEach(cap, slots, |log|, tail, calls) == (t, log[tail..t])
  {
    if calls == 0 {
      assert log[tail..tail] == [];
    } else {
      PopEachIsOldest(cap, slots, tail, log, calls - 1);
      var t := tail + Min(calls - 1, |log| - tail);
      if t < |log| {
        assert slots[Slot(t, cap)] == log[t];
        SliceSnoc(log, tail, t);
      } else {
        assert log[tail..t] + [] == log[tail..t];
      }
    }
  }

  lemma PopFramesAreOldest<F>(cap: nat, slots: seq<F>, tail: nat, log: seq<F>, count: nat)
    requires |slots| == cap > 0 && tail + count <= |log| <= tail + cap && Readable(cap, slots, tail, log)
    ensures PopFrames(cap, slots, tail, count) == log[tail..tail + count]
  {
    var out := PopFrames(cap, slots, tail, count);
    forall k | 0 <= k < count
      ensures out[k] == log[tail + k]
    {
      SlotRanges(tail, k, cap);
      assert slots[Slot(tail + k, cap)] == log[tail + k];
    }
  }

  /** One batch pop returns the same frames in the same order, and leaves the same tail, as popping
      frame by frame; and they are the oldest frames of the queue. */
  lemma PopBatchIsPopEach<F>(cap: nat, s: State<F>, limit: nat)
    requires RingInv(cap, s)
    ensures var count := PopCount(s, limit);
            && PopEach(cap, s.slots, s.head, s.tail, limit) == (s.tail + count, PopFrames(cap, s.slots, s.tail, count))
            && PopFrames(cap, s.slots, s.tail, count) + Contents(s.(tail := s.tail + count)) == Contents(s)
  {
    var count := PopCount(s, limit);
    hide PopEach, PopFrames, Readable;
    PopEachIsOldest(cap, s.slots, s.tail, s.log, limit);
    PopFramesAreOldest(cap, s.slots, s.tail, s.log, count);
    SliceJoin(s.log, s.tail, s.tail + count, s.head);
  }

  /** `now` is `start` with a push of `count` frames loaded and `k` of them copied, whatever the
      consumer did in between. */
  ghost predicate Copied<F>(cap: nat, start: State<F>, now: State<F>, frames: seq<F>, count: nat, k: nat)
    requires |start.slots| == cap > 0
  {
    && k <= count <= |frames|
    && now.head == start.head && now.log == start.log && now.closed == start.closed && start.tail <= now.tail
    && now.p == PushCopy(frames, start.head, count, k)
    && now.slots == WriteFrames(cap, start.slots, start.head, frames[..k])
  }

  lemma CopiedOneMore<F>(cap: nat, start: State<F>, now: State<F>, frames: seq<F>, count: nat, k: nat)
    requires Inv(cap, now) && |start.slots| == cap && k < count
    requires Copied(cap, start, now, frames, count, k)
    ensures var next := ProducerNext(cap, now);
            && next == now.(slots := now.slots[Slot(start.head + k, cap) := frames[k]], p := next.p)
            && Inv(cap, next)
            && Copied(cap, start, next, frames, count, k + 1)
  {
    CopyFrameKeepsInv(cap, now);
    assert frames[..k + 1][..k] == frames[..k];
  }

  /** `seen` is a tail the push may have loaded, and `count` the room it saw there. */
  ghost predicate PushSeen<F>(cap: nat, start: State<F>, seen: nat, frames: seq<F>, count: nat) {
    && start.tail <= seen
    && RingInv(cap, start.(tail := seen))
    && count == PushCount(cap, start.(tail := seen), frames)
  }

  /** `now` is `start` after a push that loaded tail `seen` and returned `pushed`: what an uninterrupted
      push does with that tail, but for what the consumer did to its own side meanwhile. */
  ghost predicate Pushed<F>(cap: nat, start: State<F>, now: State<F>, seen: nat, frames: seq<F>, pushed: nat) {
    && PushSeen(cap, start, seen, frames, pushed) && seen <= now.tail
    && now == PushBatch(cap, start.(tail := seen), frames).(tail := now.tail, c := now.c, p := PushReturn(pushed))
  }

  /** The store of the head completes the push. */
  lemma StoredIsPushed<F>(cap: nat, start: State<F>, before: State<F>, seen: nat, frames: seq<F>, count: nat)
    requires Inv(cap, before) && PushSeen(cap, start, seen, frames, count) && seen <= before.tail
    requires Copied(cap, start, before, frames, count, count)
    ensures Pushed(cap, start, ProducerNext(cap, before), seen, frames, count)
    ensures ProducerNext(cap, before).log == before.log + frames[..count]
  {
    hide Readable, Slot, WriteFrames;
  }
}
