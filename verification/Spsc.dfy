/** The single-producer single-consumer ring as a transition system.

    Every atomic load, every frame copy and every atomic store of the two processes is one
    step, so the values a process holds between a load and its use may be stale.  Counters are
    unbounded here; `RingCounters` shows that the 64-bit wrapping ones compute the same values.
    `log` is the history of all published frames: it only appears in specifications. */
module Spsc {
  import opened RingCounters

  /** Where the producer stands inside `tryPushBatch` or `pendingFrames`. */
  datatype Producer<F> =
    | PIdle
    | PushClosed(frames: seq<F>)                                       // before loading producerClosed
    | PushHead(frames: seq<F>)                                         // before loading head
    | PushTail(frames: seq<F>, head: nat)                              // before loading tail
    | PushCopy(frames: seq<F>, head: nat, count: nat, copied: nat)     // copying, then storing head
    | PushReturn(pushed: nat)
    | PSizeTail                                                        // before loading tail
    | PSizeHead(tail: nat)                                             // before loading head
    | PSizeReturn(size: nat)

  /** Where the consumer stands inside `tryPopBatch`, `producerClosed` or `pendingFrames`. */
  datatype Consumer<F> =
    | CIdle
    | PopTail(limit: nat)
    | PopHead(limit: nat, tail: nat)
    | PopCopy(tail: nat, count: nat, taken: seq<F>)
    | PopReturn(frames: seq<F>)
    | ClosedLoad
    | ClosedReturn(closed: bool)
    | CSizeTail
    | CSizeHead(tail: nat)
    | CSizeReturn(size: nat)

  datatype State<F> = State(slots: seq<F>, head: nat, tail: nat, closed: bool,
                            p: Producer<F>, c: Consumer<F>, log: seq<F>)

  /** The queue that the ring stands for. */
  ghost function Contents<F>(s: State<F>): seq<F>
    requires s.tail <= s.head == |s.log|
  {
    s.log[s.tail..]
  }

  function Min(a: nat, b: nat): nat { if a < b then a else b }

  predicate ProducerBusy<F>(s: State<F>) {
    !s.p.PIdle? && !s.p.PushReturn? && !s.p.PSizeReturn?
  }

  predicate ConsumerBusy<F>(s: State<F>) {
    !s.c.CIdle? && !s.c.PopReturn? && !s.c.ClosedReturn? && !s.c.CSizeReturn?
  }

  /** The unsigned subtractions of the next steps do not underflow and the copies stay inside their
      ranges.  A process whose next step breaks this has no next step; `Inv` shows it never happens. */
  predicate Defined<F>(cap: nat, s: State<F>) {
    && |s.slots| == cap > 0
    && (match s.p
        case PushTail(_, h) => s.tail <= h <= s.tail + cap
        case PushCopy(fs, _, count, copied) => copied <= count <= |fs|
        case PSizeHead(t) => t <= s.head
        case _ => true)
    && (match s.c
        case PopHead(_, t) => t <= s.head
        case PopCopy(_, count, taken) => |taken| <= count
        case CSizeHead(t) => t <= s.head
        case _ => true)
  }

  /** The producer's next atomic step. */
  ghost function ProducerNext<F>(cap: nat, s: State<F>): (r: State<F>)
    requires Defined(cap, s) && ProducerBusy(s)
  {
    match s.p
    case PushClosed(fs) => s.(p := if fs == [] || s.closed then PushReturn(0) else PushHead(fs))
    case PushHead(fs) => s.(p := PushTail(fs, s.head))
    case PushTail(fs, h) =>
      var count := Min(|fs|, cap - (h - s.tail));
      s.(p := if count == 0 then PushReturn(0) else PushCopy(fs, h, count, 0))
    case PushCopy(fs, h, count, copied) =>
      if copied < count then
        s.(slots := s.slots[Slot(h + copied, cap) := fs[copied]], p := PushCopy(fs, h, count, copied + 1))
      else
        s.(head := h + count, log := s.log + fs[..count], p := PushReturn(count))
    case PSizeTail => s.(p := PSizeHead(s.tail))
    case PSizeHead(t) => s.(p := PSizeReturn(s.head - t))
  }

  /** The consumer's next atomic step. */
  ghost function ConsumerNext<F>(cap: nat, s: State<F>): (r: State<F>)
    requires Defined(cap, s) && ConsumerBusy(s)
  {
    match s.c
    case PopTail(limit) => s.(c := if limit == 0 then PopReturn([]) else PopHead(limit, s.tail))
    case PopHead(limit, t) =>
      var count := Min(limit, s.head - t);
      s.(c := if count == 0 then PopReturn([]) else PopCopy(t, count, []))
    case PopCopy(t, count, taken) =>
      if |taken| < count then
        s.(c := PopCopy(t, count, taken + [s.slots[Slot(t + |taken|, cap)]]))
      else
        s.(tail := t + count, c := PopReturn(taken))
    case ClosedLoad => s.(c := ClosedReturn(s.closed))
    case CSizeTail => s.(c := CSizeHead(s.tail))
    case CSizeHead(t) => s.(c := CSizeReturn(s.head - t))
  }

  /** Calls and returns belong to the process that owns the side. */
  ghost predicate ProducerCalls<F>(s: State<F>, s': State<F>) {
    || (ProducerCallable(s) && s' == s.(p := s'.p) && (s'.p.PIdle? || s'.p.PushClosed? || s'.p.PSizeTail?))
    || (ProducerCallable(s) && s' == s.(closed := true, p := PIdle))
  }

  predicate ProducerCallable<F>(s: State<F>) { !ProducerBusy(s) }

  ghost predicate ConsumerCalls<F>(s: State<F>, s': State<F>) {
    && !ConsumerBusy(s)
    && s' == s.(c := s'.c)
    && (s'.c.CIdle? || s'.c.PopTail? || s'.c.ClosedLoad? || s'.c.CSizeTail?)
  }

  ghost predicate ProducerStep<F>(cap: nat, s: State<F>, s': State<F>) {
    ProducerCalls(s, s') || (ProducerBusy(s) && Defined(cap, s) && s' == ProducerNext(cap, s))
  }

  ghost predicate ConsumerStep<F>(cap: nat, s: State<F>, s': State<F>) {
    ConsumerCalls(s, s') || (ConsumerBusy(s) && Defined(cap, s) && s' == ConsumerNext(cap, s))
  }

  ghost predicate Init<F>(cap: nat, s: State<F>) {
    |s.slots| == cap > 0 && s.head == s.tail == 0 && !s.closed && s.p.PIdle? && s.c.CIdle? && s.log == []
  }

  // ---------------------------------------------------------------- invariant

  /** `Slot(i, cap)` holds published frame `i`, for every frame not yet released. */
  ghost predicate Readable<F>(cap: nat, slots: seq<F>, tail: nat, log: seq<F>)
    requires |slots| == cap > 0
  {
    forall i {:trigger Slot(i, cap)} :: tail <= i < |log| ==> slots[Slot(i, cap)] == log[i]
  }

  lemma ReadableLater<F>(cap: nat, slots: seq<F>, tail: nat, later: nat, log: seq<F>)
    requires |slots| == cap > 0 && Readable(cap, slots, tail, log) && tail <= later
    ensures Readable(cap, slots, later, log)
  {}

  /** What the producer knows while it holds possibly stale values. */
  ghost predicate ProducerInv<F>(cap: nat, p: Producer<F>, slots: seq<F>, head: nat, tail: nat, closed: bool)
    requires |slots| == cap > 0
  {
    match p
    case PushHead(fs) => fs != [] && !closed
    case PushTail(fs, h) => fs != [] && h == head && !closed
    case PushCopy(fs, h, count, copied) =>
      && h == head && !closed && copied <= count && 0 < count <= |fs|
      && head + count <= tail + cap
      && forall i {:trigger Slot(i, cap)} :: h <= i < h + copied ==> slots[Slot(i, cap)] == fs[i - h]
    case PSizeHead(t) => t <= tail && head <= t + cap
    case PSizeReturn(n) => head - tail <= n <= cap && n <= head
    case _ => true
  }

  /** What the consumer knows while it holds possibly stale values. */
  ghost predicate ConsumerInv<F>(c: Consumer<F>, tail: nat, closed: bool, log: seq<F>) {
    match c
    case PopHead(_, t) => t == tail
    case PopCopy(t, count, taken) =>
      t == tail && 0 < count && t + count <= |log| && |taken| <= count && taken == log[t..t + |taken|]
    case PopReturn(fs) => |fs| <= tail <= |log| && fs == log[tail - |fs|..tail]
    case ClosedReturn(b) => b ==> closed
    case CSizeHead(t) => t == tail
    case CSizeReturn(n) => tail + n <= |log|
    case _ => true
  }

  ghost predicate RingInv<F>(cap: nat, s: State<F>) {
    && |s.slots| == cap > 0
    && s.tail <= s.head <= s.tail + cap
    && s.head == |s.log|
    && Readable(cap, s.slots, s.tail, s.log)
  }

  ghost predicate Inv<F>(cap: nat, s: State<F>) {
    && RingInv(cap, s)
    && ProducerInv(cap, s.p, s.slots, s.head, s.tail, s.closed)
    && ConsumerInv(s.c, s.tail, s.closed, s.log)
  }

  lemma InitInv<F>(cap: nat, s: State<F>)
    requires Init(cap, s)
    ensures Inv(cap, s) && Contents(s) == []
  {}

  // ------------------------------------------------------- what a step may do

  /** All a producer can do as the consumer sees it: extend the history, write free slots, close
      for good.  It bounds any number of producer steps: see `StepsAct`. */
  ghost predicate ProducerActs<F>(cap: nat, s: State<F>, s': State<F>) {
    && Inv(cap, s')
    && s'.tail == s.tail && s'.c == s.c
    && Extends(s, s')
  }

  ghost predicate Extends<F>(s: State<F>, s': State<F>) {
    && s.log <= s'.log
    && (s.closed ==> s'.closed && s'.log == s.log)
  }

  lemma ExtendsTransitive<F>(s: State<F>, m: State<F>, s': State<F>)
    requires Extends(s, m) && Extends(m, s')
    ensures Extends(s, s')
  {
    assert forall i :: 0 <= i < |s.log| ==> s.log[i] == m.log[i] == s'.log[i];
  }

  /** All a consumer can do as the producer sees it: release slots, oldest first. */
  ghost predicate ConsumerActs<F>(cap: nat, s: State<F>, s': State<F>) {
    && Inv(cap, s')
    && s' == s.(tail := s'.tail, c := s'.c)
    && s.tail <= s'.tail
  }

  /** In-flight copies are safe: the slots a push may still write are never slots that the consumer
      may read, whatever happened since the producer loaded `tail`. */
  lemma InFlightSlotsDisjoint<F>(cap: nat, s: State<F>, j: nat, i: nat)
    requires Inv(cap, s) && s.p.PushCopy? && j < s.p.count && s.tail <= i < s.head
    ensures Slot(s.p.head + j, cap) != Slot(i, cap)
  {
    SlotDistinct(i, s.p.head + j, cap);
  }

  lemma CopyFrameKeepsInv<F>(cap: nat, s: State<F>)
    requires Inv(cap, s) && s.p.PushCopy? && s.p.copied < s.p.count
    ensures Inv(cap, ProducerNext(cap, s))
  {
    hide Slot;
    var PushCopy(fs, h, count, copied) := s.p;
    var s' := ProducerNext(cap, s);
    forall i | s.tail <= i < s.head
      ensures s'.slots[Slot(i, cap)] == s'.log[i]
    {
      InFlightSlotsDisjoint(cap, s, copied, i);
    }
    forall i | h <= i < h + copied
      ensures s'.slots[Slot(i, cap)] == fs[i - h]
    {
      SlotDistinct(i, h + copied, cap);
    }
  }

  lemma StoreHeadKeepsInv<F>(cap: nat, s: State<F>)
    requires Inv(cap, s) && s.p.PushCopy? && s.p.copied == s.p.count
    ensures Inv(cap, ProducerNext(cap, s))
  {
    var PushCopy(fs, h, count, _) := s.p;
    var s' := ProducerNext(cap, s);
    forall i | s'.tail <= i < s'.head
      ensures s'.slots[Slot(i, cap)] == s'.log[i]
    {
      if i < s.head {
        assert s'.log[i] == s.log[i];
      } else {
        assert s'.log[i] == fs[i - h];
      }
    }
    match s.c {
      case PopCopy(t, _, taken) => assert s'.log[t..t + |taken|] == s.log[t..t + |taken|];
      case PopReturn(out) => assert s'.log[s.tail - |out|..s.tail] == s.log[s.tail - |out|..s.tail];
      case _ =>
    }
  }

  lemma ProducerCallsKeepInv<F>(cap: nat, s: State<F>, s': State<F>)
    requires Inv(cap, s) && ProducerCalls(s, s')
    ensures Inv(cap, s') && s'.head == s.head && s'.log == s.log && s'.tail == s.tail && s'.c == s.c
    ensures s.closed ==> s'.closed
  {
    hide Readable, Slot;
  }

  lemma ProducerLoadKeepsInv<F>(cap: nat, s: State<F>)
    requires Inv(cap, s) && ProducerBusy(s) && !s.p.PushCopy?
    ensures var s' := ProducerNext(cap, s); Inv(cap, s') && s' == s.(p := s'.p)
  {
    hide Readable, Slot;
  }

  /** Every producer step keeps the invariant, does to the consumer's view only what `ProducerActs`
      allows, and changes the queue only at the one store that publishes a whole batch. */
  lemma ProducerStepRefines<F>(cap: nat, s: State<F>, s': State<F>)
    requires Inv(cap, s) && ProducerStep(cap, s, s')
    ensures ProducerActs(cap, s, s')
    ensures s'.head == s.head ==> Contents(s') == Contents(s)
    ensures s'.head != s.head ==>
      && s.p.PushCopy? && s.p.copied == s.p.count && s'.p == PushReturn(s.p.count)
      && Contents(s') == Contents(s) + s.p.frames[..s.p.count]
  {
    hide Readable, Slot, ConsumerInv;
    if ProducerCalls(s, s') {
      ProducerCallsKeepInv(cap, s, s');
    } else if !s.p.PushCopy? {
      ProducerLoadKeepsInv(cap, s);
    } else if s.p.copied < s.p.count {
      CopyFrameKeepsInv(cap, s);
    } else {
      StoreHeadKeepsInv(cap, s);
    }
  }

  lemma TakeFrameKeepsInv<F>(cap: nat, s: State<F>)
    requires Inv(cap, s) && s.c.PopCopy? && |s.c.taken| < s.c.count
    ensures Inv(cap, ConsumerNext(cap, s))
  {
    var PopCopy(t, count, taken) := s.c;
    var i := t + |taken|;
    assert s.slots[Slot(i, cap)] == s.log[i];
    assert s.log[t..i + 1] == s.log[t..i] + [s.log[i]];
  }

  /** The copy step, as an assignment. */
  lemma FrameTaken<F>(cap: nat, s: State<F>)
    requires Inv(cap, s) && s.c.PopCopy? && |s.c.taken| < s.c.count
    ensures Defined(cap, s) && ConsumerBusy(s) && Inv(cap, ConsumerNext(cap, s))
    ensures var PopCopy(t, count, taken) := s.c;
            ConsumerNext(cap, s) == s.(c := PopCopy(t, count, taken + [s.slots[Slot(t + |taken|, cap)]]))
  {
    TakeFrameKeepsInv(cap, s);
  }

  lemma StoreTailKeepsInv<F>(cap: nat, s: State<F>)
    requires Inv(cap, s) && s.c.PopCopy? && |s.c.taken| == s.c.count
    ensures Inv(cap, ConsumerNext(cap, s))
    ensures Contents(s) == s.c.taken + Contents(ConsumerNext(cap, s))
  {
    var t := s.tail + s.c.count;
    assert s.log[s.tail..] == s.log[s.tail..t] + s.log[t..];
  }

  /** Every consumer step keeps the invariant, does to the producer's view only what `ConsumerActs`
      allows, and changes the queue only at the one store that releases a whole batch: exactly the
      frames returned leave the queue, from its front. */
  lemma ConsumerStepRefines<F>(cap: nat, s: State<F>, s': State<F>)
    requires Inv(cap, s) && ConsumerStep(cap, s, s')
    ensures ConsumerActs(cap, s, s')
    ensures s'.tail == s.tail ==> Contents(s') == Contents(s)
    ensures s'.tail != s.tail ==>
      && s.c.PopCopy? && s'.c.PopReturn? && |s'.c.frames| == s.c.count
      && Contents(s) == s'.c.frames + Contents(s')
  {
    hide Readable, Slot;
    if ConsumerBusy(s) && s.c.PopCopy? && s' == ConsumerNext(cap, s) {
      if |s.c.taken| < s.c.count {
        TakeFrameKeepsInv(cap, s);
      } else {
        StoreTailKeepsInv(cap, s);
      }
    } else {
      assert s'.tail == s.tail && s'.log == s.log;
    }
  }

  // ------------------------------------------------------------------- runs

  /** Any interleaving of the two processes from an empty ring. */
  ghost predicate IsRun<F>(cap: nat, run: seq<State<F>>) {
    && |run| > 0 && Init(cap, run[0])
    && forall i :: 0 < i < |run| ==> StepAt(cap, run, i)
  }

  ghost predicate StepAt<F>(cap: nat, run: seq<State<F>>, i: nat)
    requires 0 < i < |run|
  {
    ProducerStep(cap, run[i - 1], run[i]) || ConsumerStep(cap, run[i - 1], run[i])
  }

  /** In every state of every interleaving the indices are ordered, no machine subtraction underflows,
      and what the ring holds is the unreleased end of the history of published frames. */
  lemma {:induction false} RunIsSafe<F>(cap: nat, run: seq<State<F>>, i: nat)
    requires IsRun(cap, run) && i < |run|
    ensures Inv(cap, run[i]) && Defined(cap, run[i])
    ensures run[i].tail <= run[i].head <= run[i].tail + cap
  {
    if i == 0 {
      InitInv(cap, run[0]);
    } else {
      RunIsSafe(cap, run, i - 1);
      assert StepAt(cap, run, i);
      if ProducerStep(cap, run[i - 1], run[i]) {
        ProducerStepRefines(cap, run[i - 1], run[i]);
      } else {
        ConsumerStepRefines(cap, run[i - 1], run[i]);
      }
    }
  }

  /** Published frames are never taken back or reordered, and released slots stay released. */
  lemma {:induction false} RunOnlyExtends<F>(cap: nat, run: seq<State<F>>, i: nat, j: nat)
    requires IsRun(cap, run) && i <= j < |run|
    ensures run[i].log <= run[j].log && run[i].tail <= run[j].tail
    decreases j
  {
    if i < j {
      RunOnlyExtends(cap, run, i, j - 1);
      RunIsSafe(cap, run, j - 1);
      assert StepAt(cap, run, j);
      if ProducerStep(cap, run[j - 1], run[j]) {
        ProducerStepRefines(cap, run[j - 1], run[j]);
      } else {
        ConsumerStepRefines(cap, run[j - 1], run[j]);
      }
      assert forall k :: 0 <= k < |run[i].log| ==> run[i].log[k] == run[j - 1].log[k] == run[j].log[k];
    }
  }

  // ------------------------------------------------------- one process running alone

  lemma ActsReflexive<F>(cap: nat, s: State<F>)
    requires Inv(cap, s)
    ensures ProducerActs(cap, s, s) && ConsumerActs(cap, s, s)
  {}

  lemma ActsTransitive<F>(cap: nat, s: State<F>, m: State<F>, s': State<F>)
    ensures ProducerActs(cap, s, m) && ProducerActs(cap, m, s') ==> ProducerActs(cap, s, s')
    ensures ConsumerActs(cap, s, m) && ConsumerActs(cap, m, s') ==> ConsumerActs(cap, s, s')
  {
    if ProducerActs(cap, s, m) && ProducerActs(cap, m, s') {
      ExtendsTransitive(s, m, s');
    }
  }

  ghost predicate SideStepAt<F>(cap: nat, run: seq<State<F>>, i: nat, producer: bool)
    requires 0 < i < |run|
  {
    if producer then ProducerStep(cap, run[i - 1], run[i]) else ConsumerStep(cap, run[i - 1], run[i])
  }

  /** Any number of steps of one process, the other standing still anywhere in its code. */
  ghost predicate OneSided<F>(cap: nat, run: seq<State<F>>, producer: bool) {
    |run| > 0 && Inv(cap, run[0]) && forall i :: 0 < i < |run| ==> SideStepAt(cap, run, i, producer)
  }

  /** What the methods of one process assume of the other between two accesses covers whatever it does:
      any number of producer steps is a `ProducerActs`, any number of consumer steps a `ConsumerActs`. */
  lemma {:induction false} StepsAct<F>(cap: nat, run: seq<State<F>>, producer: bool, n: nat)
    requires OneSided(cap, run, producer) && n < |run|
    ensures if producer then ProducerActs(cap, run[0], run[n]) else ConsumerActs(cap, run[0], run[n])
  {
    if n == 0 {
      ActsReflexive(cap, run[0]);
    } else {
      StepsAct(cap, run, producer, n - 1);
      assert SideStepAt(cap, run, n, producer);
      hide Inv;
      if producer {
        ProducerStepRefines(cap, run[n - 1], run[n]);
      } else {
        ConsumerStepRefines(cap, run[n - 1], run[n]);
      }
      ActsTransitive(cap, run[0], run[n - 1], run[n]);
    }
  }
}
