/** `SharedRingBuffer`: the ring's methods over the real array and the wrapping 64-bit counters.

    Between any two accesses to shared memory the other process may run.  `ConsumerRuns` and
    `ProducerRuns` stand for that: their contracts allow everything `Spsc` allows the other side, so
    a method that calls them before every access is proved for every interleaving.  Each access of
    a method is also one `Spsc` step of its side, taken on the ghost field `world`. */
module SharedRing {
  import opened RingCounters
  import opened Spsc
  import opened RingBatches

  /** What a process does that the other one can see, or learns about the other one. */
  datatype RingEvent<F> =
    | Push(frames: seq<F>, pushed: nat)      // tryPushBatch and its result
    | Pop(frames: seq<F>)                    // tryPopBatch and its result
    | Size(size: nat)                        // pendingFrames and its result
    | SawClosed(closed: bool)                // producerClosed and its result
    | Close                                  // closeProducer
    | Notice                                 // the other process is notified
    | Woken                                  // a notice of the other process is consumed

  /** The frames that the pushes on a tape published. */
  ghost function Published<F>(tape: seq<RingEvent<F>>): seq<F> {
    if tape == [] then []
    else
      var last := tape[|tape| - 1];
      Published(tape[..|tape| - 1]) + if last.Push? then last.frames[..Min(last.pushed, |last.frames|)] else []
  }

  lemma PublishedNext<F>(tape: seq<RingEvent<F>>, e: RingEvent<F>)
    ensures !e.Push? || e.pushed == 0 ==> Published(tape + [e]) == Published(tape)
    ensures e.Push? && e.pushed <= |e.frames| ==> Published(tape + [e]) == Published(tape) + e.frames[..e.pushed]
  {
    assert (tape + [e])[..|tape|] == tape;
  }

  class SharedRingBuffer<F(0)> {
    const capacityFrames: nat
    var layout: array?<F>          // null until the mapping exists
    var head: nat                  // modulo 2^64
    var tail: nat                  // modulo 2^64
    var closedFlag: bool
    ghost var refusals: nat        // the calls of mmap that failed
    ghost var world: State<F>      // the same ring with unbounded counters and its history
    ghost var producerTape: seq<RingEvent<F>>    // what the producer did, in order
    ghost var consumerTape: seq<RingEvent<F>>    // what the consumer did, in order

    ghost predicate Valid()
      reads this, layout
    {
      && 0 < capacityFrames < WORD && WORD % capacityFrames == 0
      && (layout != null ==>
            && Inv(capacityFrames, world)
            && layout[..] == world.slots
            && head == Wrap(world.head) && tail == Wrap(world.tail) && closedFlag == world.closed
            && world.log == Published(producerTape))
    }

    /** The capacity must divide 2^64 for the slots to survive counter wrap-around. */
    constructor (capacity: nat)
      requires 0 < capacity < WORD && WORD % capacity == 0
      ensures Valid() && layout == null && capacityFrames == capacity && refusals == 0
    {
      capacityFrames := capacity;
      layout, head, tail, closedFlag := null, 0, 0, false;
      producerTape, consumerTape, refusals := [], [], 0;
    }

    /** Maps the ring, once. */
    method Create(zero: F) returns (ok: bool)
      requires Valid()
      modifies this
      ensures Valid() && refusals >= old(refusals)
      ensures ok <==> old(layout) == null && refusals == old(refusals)
      ensures !ok ==> layout == old(layout) && world == old(world)
      ensures ok ==>
        layout != null && fresh(layout) && Init(capacityFrames, world) && producerTape == consumerTape == []
    {
      if layout != null {
        return false;
      }
      var fails := *;
      if fails {
        refusals := refusals + 1;
        return false;
      }
      layout := new F[capacityFrames](_ => zero);
      head, tail, closedFlag := 0, 0, false;
      world := State(layout[..], 0, 0, false, PIdle, CIdle, []);
      producerTape, consumerTape := [], [];
      return true;
    }

    /** Any number of consumer steps.  The body picks none; callers know only the contract. */
    method ConsumerRuns()
      requires Valid() && layout != null
      modifies `tail, `world, `consumerTape
      ensures Valid() && ConsumerActs(capacityFrames, old(world), world)
    {}

    /** Any number of producer steps, including a close. */
    method ProducerRuns()
      requires Valid() && layout != null
      modifies `head, `closedFlag, `world, `producerTape, layout
      ensures Valid() && ProducerActs(capacityFrames, old(world), world)
    {}

    /** An event on the producer's own tape; a push that published frames is recorded where it does so. */
    ghost method RecordProducer(e: RingEvent<F>)
      requires Valid() && (e.Push? ==> e.pushed == 0)
      modifies `producerTape
      ensures Valid() && producerTape == old(producerTape) + [e]
    {
      hide Published, Wrap, Inv;
      PublishedNext(producerTape, e);
      producerTape := producerTape + [e];
    }

    /** An event on the consumer's own tape. */
    ghost method RecordConsumer(e: RingEvent<F>)
      requires Valid()
      modifies `consumerTape
      ensures Valid() && consumerTape == old(consumerTape) + [e]
    {
      consumerTape := consumerTape + [e];
    }

    method ProducerClosed() returns (closed: bool)
      requires Valid()
      requires layout != null ==> !ConsumerBusy(world)
      modifies `head, `closedFlag, `world, `producerTape, `consumerTape, layout
      ensures Valid()
      ensures layout == null ==> closed && world == old(world) && consumerTape == old(consumerTape)
      ensures layout != null ==>
        && consumerTape == old(consumerTape) + [SawClosed(closed)]
        && ProducerActs(capacityFrames, old(world).(c := ClosedReturn(closed)), world)
        && (old(world).closed ==> closed)
    {
      hide Published, Wrap, Readable;
      if layout == null {
        return true;
      }
      world := world.(c := ClosedLoad);
      ProducerRuns();
      closed := closedFlag;
      world := ConsumerNext(capacityFrames, world);
      consumerTape := consumerTape + [SawClosed(closed)];
    }

    /** Copies frame `j` of the push that began in `start` into its slot. */
    method CopyFrameIn(ghost start: State<F>, frames: seq<F>, ghost count: nat, j: nat, index: nat)
      requires Valid() && layout != null && j < count
      requires |start.slots| == capacityFrames && Copied(capacityFrames, start, world, frames, count, j)
      requires Slot(start.head + j, capacityFrames) == index
      modifies `tail, `world, `consumerTape, layout
      ensures Valid() && Copied(capacityFrames, start, world, frames, count, j + 1)
      ensures old(world.tail) <= world.tail
    {
      ConsumerRuns();
      CopiedOneMore(capacityFrames, start, world, frames, count, j);
      layout[index] := frames[j];
      world := ProducerNext(capacityFrames, world);
    }

    /** Copies frames `from..from + n` of the push that began in `start` into the slots from `index` on. */
    method CopyIn(ghost start: State<F>, frames: seq<F>, ghost count: nat, from: nat, index: nat, n: nat)
      requires Valid() && layout != null && 0 < n && index + n <= capacityFrames && from + n <= count
      requires |start.slots| == capacityFrames && Copied(capacityFrames, start, world, frames, count, from)
      requires Slot(start.head + from, capacityFrames) == index
      modifies `tail, `world, `consumerTape, layout
      ensures Valid() && Copied(capacityFrames, start, world, frames, count, from + n)
      ensures old(world.tail) <= world.tail
    {
      hide *;
      var k := 0;
      while k < n
        invariant 0 <= k <= n
        invariant Valid() && Copied(capacityFrames, start, world, frames, count, from + k)
        invariant old(world.tail) <= world.tail
      {
        SlotRanges(start.head + from, k, capacityFrames);
        CopyFrameIn(start, frames, count, from + k, index + k);
        k := k + 1;
      }
    }

    /** The one or two range copies of a push. */
    method CopyAll(ghost start: State<F>, frames: seq<F>, count: nat, h: nat)
      requires Valid() && layout != null && h == head && 0 < count <= capacityFrames
      requires |start.slots| == capacityFrames && Copied(capacityFrames, start, world, frames, count, 0)
      modifies `tail, `world, `consumerTape, layout
      ensures Valid() && Copied(capacityFrames, start, world, frames, count, count)
      ensures old(world.tail) <= world.tail && head == old(head)
    {
      hide Published, Wrap, Readable, WriteFrames;
      var index := h % capacityFrames;
      WrappedSlot(start.head, capacityFrames);
      var first := Min(count, capacityFrames - index);
      if first != count {
        SlotRanges(start.head, first, capacityFrames);
      }
      hide *;
      CopyIn(start, frames, count, 0, index, first);
      if first != count {
        CopyIn(start, frames, count, first, 0, count - first);
      }
    }

    /** The first load of a push: the closed flag. */
    method LoadClosedForPush(frames: seq<F>) returns (closed: bool)
      requires Valid() && layout != null && frames != [] && !ProducerBusy(world)
      modifies `tail, `world, `consumerTape
      ensures Valid() && closed == old(world.closed) && old(world.tail) <= world.tail
      ensures world == old(world).(tail := world.tail, c := world.c,
                                   p := if closed then PushReturn(0) else PushHead(frames))
    {
      hide Published, Wrap, Readable;
      world := world.(p := PushClosed(frames));
      ConsumerRuns();
      closed := closedFlag;
      world := ProducerNext(capacityFrames, world);
    }

    /** The two index loads of a push, `head` first.  `seen` is the tail loaded. */
    method LoadIndicesForPush(frames: seq<F>) returns (h: nat, t: nat, ghost seen: nat)
      requires Valid() && layout != null && world.p == PushHead(frames)
      modifies `tail, `world, `consumerTape
      ensures Valid() && h == head && t == Wrap(seen)
      ensures old(world.tail) <= seen <= world.tail && seen <= world.head <= seen + capacityFrames
      ensures var count := Min(|frames|, capacityFrames - (world.head - seen));
              world == old(world).(tail := world.tail, c := world.c,
                                   p := if count == 0 then PushReturn(0) else PushCopy(frames, world.head, count, 0))
    {
      hide Published, Wrap, Readable;
      ConsumerRuns();
      h := head;
      world := ProducerNext(capacityFrames, world);
      ConsumerRuns();
      t := tail;
      seen := world.tail;
      world := ProducerNext(capacityFrames, world);
    }

    /** The loads of a push.  Unless nothing can be pushed, the copy of `count` frames begins. */
    method LoadForPush(frames: seq<F>) returns (count: nat, h: nat, ghost seen: nat)
      requires Valid() && layout != null && frames != [] && !ProducerBusy(world)
      modifies `tail, `world, `consumerTape
      ensures Valid() && h == head
      ensures PushSeen(capacityFrames, old(world), seen, frames, count)
      ensures seen <= world.tail && count <= capacityFrames == |old(world).slots|
      ensures count == 0 ==> Pushed(capacityFrames, old(world), world, seen, frames, 0)
      ensures count != 0 ==> Copied(capacityFrames, old(world), world, frames, count, 0)
    {
      hide Published, Wrap, Readable;
      seen := world.tail;
      var closed := LoadClosedForPush(frames);
      if closed {
        seen := world.tail;
        ReadableLater(capacityFrames, world.slots, old(world.tail), seen, world.log);
        return 0, head, seen;
      }
      var t;
      h, t, seen := LoadIndicesForPush(frames);
      ReadableLater(capacityFrames, world.slots, old(world.tail), seen, world.log);
      WrappedDistance(world.head, seen);
      count := Min(|frames|, capacityFrames - Wrap(h - t));
    }

    /** The store that publishes a copied batch. */
    method StoreHead(ghost start: State<F>, frames: seq<F>, count: nat, h: nat, ghost seen: nat)
      requires Valid() && layout != null && h == head
      requires PushSeen(capacityFrames, start, seen, frames, count) && seen <= world.tail
      requires Copied(capacityFrames, start, world, frames, count, count)
      modifies `head, `tail, `world, `producerTape, `consumerTape
      ensures Valid() && Pushed(capacityFrames, start, world, seen, frames, count)
      ensures producerTape == old(producerTape) + [Push(frames, count)]
    {
      hide Published, Wrap, Pushed, PushSeen, Readable, WriteFrames;
      ConsumerRuns();
      StoreHeadKeepsInv(capacityFrames, world);
      StoredIsPushed(capacityFrames, start, world, seen, frames, count);
      WrappedAdd(world.head, count);
      PublishedNext(producerTape, Push(frames, count));
      head := Wrap(h + count);
      world := ProducerNext(capacityFrames, world);
      producerTape := producerTape + [Push(frames, count)];
    }

    /** Publishes the longest prefix that fits, with one store.  `seen` is the tail that was loaded:
        some value the tail had during the call. */
    method TryPushBatch(frames: seq<F>) returns (pushed: nat, ghost seen: nat)
      requires Valid()
      requires layout != null ==> !ProducerBusy(world)
      modifies `head, `tail, `world, `producerTape, `consumerTape, layout
      ensures Valid()
      ensures layout == null || frames == [] ==> pushed == 0 && world == old(world) && producerTape == old(producerTape)
      ensures layout != null && frames != [] ==>
        && Pushed(capacityFrames, old(world), world, seen, frames, pushed)
        && producerTape == old(producerTape) + [Push(frames, pushed)]
    {
      pushed, seen := 0, 0;
      if layout == null || frames == [] {
        return;
      }
      ghost var start := world;
      hide *;
      var count, h;
      count, h, seen := LoadForPush(frames);
      if count == 0 {
        RecordProducer(Push(frames, 0));
        return;
      }
      CopyAll(start, frames, count, h);
      StoreHead(start, frames, count, h, seen);
      pushed := count;
    }

    /** The loads of a scalar push, and its test for room. */
    method LoadForScalarPush(frame: F) returns (room: bool, h: nat, ghost seen: nat)
      requires Valid() && layout != null && !ProducerBusy(world)
      modifies `tail, `world, `consumerTape
      ensures Valid() && h == head
      ensures PushSeen(capacityFrames, old(world), seen, [frame], if room then 1 else 0)
      ensures seen <= world.tail && capacityFrames == |old(world).slots|
      ensures !room ==> Pushed(capacityFrames, old(world), world, seen, [frame], 0)
      ensures room ==> Copied(capacityFrames, old(world), world, [frame], 1, 0)
    {
      hide Published, Wrap, Readable;
      seen := world.tail;
      var closed := LoadClosedForPush([frame]);
      if closed {
        seen := world.tail;
        ReadableLater(capacityFrames, world.slots, old(world.tail), seen, world.log);
        return false, head, seen;
      }
      var t;
      h, t, seen := LoadIndicesForPush([frame]);
      ReadableLater(capacityFrames, world.slots, old(world.tail), seen, world.log);
      WrappedDistance(world.head, seen);
      room := !(Wrap(h - t) >= capacityFrames);
    }

    /** The scalar push: the same as a batch of one. */
    method TryPush(frame: F) returns (ok: bool, ghost seen: nat)
      requires Valid()
      requires layout != null ==> !ProducerBusy(world)
      modifies `head, `tail, `world, `producerTape, `consumerTape, layout
      ensures Valid()
      ensures layout == null ==> !ok && world == old(world) && producerTape == old(producerTape)
      ensures layout != null ==>
        && Pushed(capacityFrames, old(world), world, seen, [frame], if ok then 1 else 0)
        && producerTape == old(producerTape) + [Push([frame], if ok then 1 else 0)]
    {
      ok, seen := false, 0;
      if layout == null {
        return;
      }
      ghost var start := world;
      var h;
      ok, h, seen := LoadForScalarPush(frame);
      if !ok {
        RecordProducer(Push([frame], 0));
        return;
      }
      hide Published, Wrap, Pushed, PushSeen, Readable, WriteFrames;
      WrappedSlot(start.head, capacityFrames);
      CopyFrameIn(start, [frame], 1, 0, h % capacityFrames);
      StoreHead(start, [frame], 1, h, seen);
    }

    method LoadTailForPop(limit: nat) returns (t: nat)
      requires Valid() && layout != null && limit != 0 && !ConsumerBusy(world)
      modifies `head, `closedFlag, `world, `producerTape, layout
      ensures Valid() && t == tail && world.tail == old(world.tail)
      ensures Extends(old(world), world) && world.c == PopHead(limit, world.tail)
    {
      hide Published, Wrap, Readable;
      world := world.(c := PopTail(limit));
      ProducerRuns();
      t := tail;
      world := ConsumerNext(capacityFrames, world);
    }

    method LoadHeadForPop(limit: nat) returns (h: nat)
      requires Valid() && layout != null && world.c == PopHead(limit, world.tail)
      modifies `head, `closedFlag, `world, `producerTape, layout
      ensures Valid() && h == head && world.tail == old(world.tail)
      ensures Extends(old(world), world)
      ensures var count := Min(limit, world.head - world.tail);
              world.c == if count == 0 then PopReturn([]) else PopCopy(world.tail, count, [])
    {
      hide Published, Wrap, Readable;
      ProducerRuns();
      h := head;
      world := ConsumerNext(capacityFrames, world);
    }

    /** The loads of a pop, `tail` first.  Just after the head is loaded `count` frames are there to take. */
    method LoadForPop(limit: nat) returns (count: nat, t: nat)
      requires Valid() && layout != null && limit != 0 && !ConsumerBusy(world)
      modifies `head, `closedFlag, `world, `producerTape, layout
      ensures Valid() && t == tail && world.tail == old(world.tail)
      ensures Extends(old(world), world) && count == Min(limit, world.head - world.tail)
      ensures world.c == if count == 0 then PopReturn([]) else PopCopy(world.tail, count, [])
    {
      hide Published, Wrap, Readable;
      t := LoadTailForPop(limit);
      ghost var before := world;
      var h := LoadHeadForPop(limit);
      ExtendsTransitive(old(world), before, world);
      WrappedDistance(world.head, world.tail);
      count := Min(limit, Wrap(h - t));
    }

    /** Copies one frame of a pop in progress out of its slot. */
    method CopyFrameOut(out: array<F>, ghost count: nat, j: nat, index: nat)
      requires Valid() && layout != null && j < count && out != layout && count <= out.Length
      requires world.c == PopCopy(world.tail, count, out[..j])
      requires Slot(world.tail + j, capacityFrames) == index
      modifies `head, `closedFlag, `world, `producerTape, layout, out
      ensures Valid() && world.c == PopCopy(world.tail, count, out[..j + 1])
      ensures Extends(old(world), world) && world.tail == old(world.tail)
      ensures forall k :: j < k < out.Length ==> out[k] == old(out[k])
    {
      hide Published, Wrap, Readable, Slot, Spsc.ProducerInv, Spsc.ConsumerInv, ConsumerNext, Defined;
      ProducerRuns();
      FrameTaken(capacityFrames, world);
      out[j] := layout[index];
      world := ConsumerNext(capacityFrames, world);
      assert out[..j + 1] == out[..j] + [out[j]];
    }

    /** Copies `n` consecutive slots from `index` on to `out[from..]`. */
    method CopyOut(out: array<F>, ghost count: nat, from: nat, index: nat, n: nat)
      requires Valid() && layout != null && 0 < n && index + n <= capacityFrames && from + n <= count
      requires out != layout && count <= out.Length
      requires world.c == PopCopy(world.tail, count, out[..from])
      requires Slot(world.tail + from, capacityFrames) == index
      modifies `head, `closedFlag, `world, `producerTape, layout, out
      ensures Valid() && world.c == PopCopy(world.tail, count, out[..from + n])
      ensures Extends(old(world), world) && world.tail == old(world.tail)
      ensures forall k :: from + n <= k < out.Length ==> out[k] == old(out[k])
    {
      hide Published, Wrap, Readable;
      var k := 0;
      ghost var t := world.tail;
      while k < n
        invariant 0 <= k <= n
        invariant Valid() && world.tail == t && world.c == PopCopy(t, count, out[..from + k])
        invariant Extends(old(world), world)
        invariant forall i :: from + k <= i < out.Length ==> out[i] == old(out[i])
      {
        SlotRanges(t + from, k, capacityFrames);
        ghost var before := world;
        CopyFrameOut(out, count, from + k, index + k);
        ExtendsTransitive(old(world), before, world);
        k := k + 1;
      }
    }

    /** The one or two range copies of a pop. */
    method CopyAllOut(out: array<F>, count: nat, t: nat)
      requires Valid() && layout != null && t == tail && 0 < count <= capacityFrames
      requires out != layout && count <= out.Length && world.c == PopCopy(world.tail, count, [])
      modifies `head, `closedFlag, `world, `producerTape, layout, out
      ensures Valid() && world.tail == old(world.tail) && world.c == PopCopy(world.tail, count, out[..count])
      ensures Extends(old(world), world)
      ensures forall k :: count <= k < out.Length ==> out[k] == old(out[k])
    {
      hide Published, Wrap, Readable;
      var index := t % capacityFrames;
      WrappedSlot(world.tail, capacityFrames);
      var first := Min(count, capacityFrames - index);
      if first != count {
        SlotRanges(world.tail, first, capacityFrames);
      }
      assert out[..0] == [];
      CopyOut(out, count, 0, index, first);
      if first != count {
        ghost var before := world;
        CopyOut(out, count, first, 0, count - first);
        ExtendsTransitive(old(world), before, world);
      }
    }

    /** The store that releases the slots of a copied batch. */
    method StoreTail(ghost taken: seq<F>, count: nat, t: nat)
      requires Valid() && layout != null && t == tail && world.c == PopCopy(world.tail, count, taken)
               && |taken| == count
      modifies `head, `tail, `closedFlag, `world, `producerTape, layout
      ensures Valid() && Extends(old(world), world)
      ensures world.tail == old(world.tail) + count && world.c == PopReturn(taken)
    {
      hide Published, Wrap, Readable, Slot;
      ProducerRuns();
      StoreTailKeepsInv(capacityFrames, world);
      WrappedAdd(world.tail, count);
      tail := Wrap(t + count);
      world := ConsumerNext(capacityFrames, world);
    }

    /** Takes the oldest frames, up to `out.Length` of them, and releases their slots with one store.
        None are taken only when the ring was empty as its head was loaded: `seen` is that state. */
    method TryPopBatch(out: array<F>) returns (popped: nat, ghost seen: State<F>)
      requires Valid() && out != layout
      requires layout != null ==> !ConsumerBusy(world)
      modifies `head, `tail, `closedFlag, `world, `producerTape, `consumerTape, layout, out
      ensures Valid() && popped <= out.Length
      ensures layout == null || out.Length == 0 ==>
        popped == 0 && world == old(world) && consumerTape == old(consumerTape)
      ensures layout != null && out.Length != 0 ==>
        && consumerTape == old(consumerTape) + [Pop(out[..popped])]
        && Extends(old(world), seen) && Extends(seen, world) && seen.tail == old(world.tail)
        && Inv(capacityFrames, seen) && popped == PopCount(seen, out.Length)
        && world.tail == old(world.tail) + popped
        && out[..popped] == world.log[old(world.tail)..world.tail]
        && world.c == PopReturn(out[..popped])
      ensures forall k :: popped <= k < out.Length ==> out[k] == old(out[k])
    {
      hide Published, Wrap, Readable;
      popped, seen := 0, world;
      if layout == null || out.Length == 0 {
        return;
      }
      var count, t := LoadForPop(out.Length);
      seen := world;
      if count == 0 {
        consumerTape := consumerTape + [Pop([])];
        return;
      }
      CopyAllOut(out, count, t);
      ghost var copied := world;
      StoreTail(out[..count], count, t);
      ExtendsTransitive(seen, copied, world);
      popped := count;
      consumerTape := consumerTape + [Pop(out[..count])];
    }

    /** The scalar pop: its test is that the two indices are equal. */
    method TryPop(out: array<F>) returns (ok: bool, ghost seen: State<F>)
      requires Valid() && out != layout
      requires layout != null ==> !ConsumerBusy(world)
      modifies `head, `tail, `closedFlag, `world, `producerTape, `consumerTape, layout, out
      ensures Valid()
      ensures layout == null || out.Length != 1 ==> !ok && world == old(world) && consumerTape == old(consumerTape)
      ensures layout != null && out.Length == 1 ==>
        && consumerTape == old(consumerTape) + [Pop(if ok then out[..] else [])]
        && Extends(old(world), seen) && Extends(seen, world) && seen.tail == old(world.tail)
        && Inv(capacityFrames, seen) && (ok <==> seen.tail != seen.head)
        && world.tail == old(world.tail) + (if ok then 1 else 0)
        && (ok ==> out[0] == world.log[old(world.tail)])
      ensures !ok ==> out[..] == old(out[..])
    {
      hide Published, Wrap, Readable, Slot;
      ok, seen := false, world;
      if layout == null || out.Length != 1 {
        return;
      }
      var t := LoadTailForPop(1);
      ghost var loaded := world;
      var h := LoadHeadForPop(1);
      seen := world;
      ExtendsTransitive(old(world), loaded, seen);
      WrappedDistance(world.head, world.tail);
      SameWrapped(world.head, world.tail);
      if t == h {
        consumerTape := consumerTape + [Pop([])];
        return;
      }
      WrappedSlot(world.tail, capacityFrames);
      assert out[..0] == [];
      CopyFrameOut(out, 1, 0, t % capacityFrames);
      loaded := world;
      StoreTail(out[..1], 1, t);
      ExtendsTransitive(seen, loaded, world);
      ok := true;
      assert out[..] == out[..1];
      consumerTape := consumerTape + [Pop(out[..])];
    }

    method LoadTailForSize() returns (t: nat)
      requires Valid() && layout != null && !ProducerBusy(world)
      modifies `tail, `world, `consumerTape
      ensures Valid() && old(world.tail) <= world.tail && t == Wrap(world.tail)
      ensures world == old(world).(tail := world.tail, c := world.c, p := PSizeHead(world.tail))
    {
      hide Published, Wrap, Readable;
      world := world.(p := PSizeTail);
      ConsumerRuns();
      t := tail;
      world := ProducerNext(capacityFrames, world);
    }

    method LoadHeadForSize(ghost seen: nat) returns (h: nat)
      requires Valid() && layout != null && world.p == PSizeHead(seen)
      modifies `tail, `world, `consumerTape
      ensures Valid() && old(world.tail) <= world.tail && h == Wrap(world.head)
      ensures seen <= world.tail <= world.head < seen + WORD
      ensures world == old(world).(tail := world.tail, c := world.c, p := PSizeReturn(world.head - seen))
    {
      hide Published, Wrap, Readable;
      ConsumerRuns();
      h := head;
      world := ProducerNext(capacityFrames, world);
    }

    /** `pendingFrames` called by the producer: `tail` may move on after its load, so the size may be
        too large, never too small. */
    method PendingForProducer() returns (size: nat, ghost seen: nat)
      requires Valid()
      requires layout != null ==> !ProducerBusy(world)
      modifies `tail, `world, `producerTape, `consumerTape
      ensures Valid()
      ensures layout == null ==> size == 0 && world == old(world) && producerTape == old(producerTape)
      ensures layout != null ==>
        && producerTape == old(producerTape) + [Size(size)]
        && old(world.tail) <= seen <= world.tail && size == world.head - seen
        && world == old(world).(tail := world.tail, c := world.c, p := PSizeReturn(size))
    {
      hide *;
      size, seen := 0, 0;
      if layout == null {
        return;
      }
      var t: int := LoadTailForSize();
      seen := world.tail;
      var h: int := LoadHeadForSize(seen);
      WrappedDistance(world.head, seen);
      size := Wrap(h - t);
      RecordProducer(Size(size));
    }

    method LoadTailForOwnSize() returns (t: nat)
      requires Valid() && layout != null && !ConsumerBusy(world)
      modifies `head, `closedFlag, `world, `producerTape, layout
      ensures Valid() && world.tail == old(world.tail) && t == Wrap(world.tail)
      ensures Extends(old(world), world) && world.c == CSizeHead(world.tail)
    {
      hide Published, Wrap, Readable;
      world := world.(c := CSizeTail);
      ProducerRuns();
      t := tail;
      world := ConsumerNext(capacityFrames, world);
    }

    method LoadHeadForOwnSize() returns (h: nat)
      requires Valid() && layout != null && world.c == CSizeHead(world.tail)
      modifies `head, `closedFlag, `world, `producerTape, layout
      ensures Valid() && world.tail == old(world.tail) && h == Wrap(world.head)
      ensures world.tail <= world.head < world.tail + WORD && Inv(capacityFrames, world)
      ensures Extends(old(world), world) && world.c == CSizeReturn(world.head - world.tail)
    {
      hide Published, Wrap, Readable;
      ProducerRuns();
      h := head;
      world := ConsumerNext(capacityFrames, world);
    }

    /** `pendingFrames` called by the consumer: frames may be published after the load of `head`, so
        the size may be too small, never too large.  It is exact when the head is loaded. */
    method PendingForConsumer() returns (size: nat)
      requires Valid()
      requires layout != null ==> !ConsumerBusy(world)
      modifies `head, `closedFlag, `world, `producerTape, `consumerTape, layout
      ensures Valid()
      ensures layout == null ==> size == 0 && world == old(world) && consumerTape == old(consumerTape)
      ensures layout != null ==>
        && consumerTape == old(consumerTape) + [Size(size)]
        && Extends(old(world), world) && world.tail == old(world.tail)
        && size == world.head - world.tail && world.c == CSizeReturn(size)
    {
      size := 0;
      if layout == null {
        return;
      }
      hide Valid, Inv, Extends, Wrap, ConsumerBusy;
      var t: int := LoadTailForOwnSize();
      ghost var before := world;
      var h: int := LoadHeadForOwnSize();
      ExtendsTransitive(old(world), before, world);
      WrappedDistance(world.head, world.tail);
      size := Wrap(h - t);
      RecordConsumer(Size(size));
    }

    method CloseProducer()
      requires Valid()
      requires layout != null ==> !ProducerBusy(world)
      modifies `closedFlag, `world, `producerTape
      ensures Valid()
      ensures layout == null ==> world == old(world) && producerTape == old(producerTape)
      ensures layout != null ==>
        world == old(world).(closed := true, p := PIdle) && producerTape == old(producerTape) + [Close]
    {
      hide Published, Wrap, Readable;
      if layout == null {
        return;
      }
      closedFlag := true;
      world := world.(closed := true, p := PIdle);
      PublishedNext(producerTape, Close);
      producerTape := producerTape + [Close];
    }
  }
}
