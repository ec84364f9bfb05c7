/** What every interleaving of Server, Reader and main keeps. */
module PipelineSafety {
  import opened Sequences
  import opened RingCounters
  import opened Spsc
  import opened Pipeline

  ghost function Pending<F>(s: Sys<F>): int { s.ring.head - s.ring.tail }

  // ------------------------------------------------------------------- shape

  /** The ring method the server is in agrees with where the server stands. */
  ghost predicate ServerShape<F>(L: Limits<F>, v: Server<F>, p: Producer<F>, closed: bool, main: MainPc) {
    && (main.Serving? <==> !closed)
    && (!main.Serving? ==> v.pc.Stopped?)
    && (match v.pc
        case Pushing(_, frames, _) =>
          && v.mode.Running? && !v.paused
          && 0 < |frames| <= L.recv && (forall f <- frames :: L.valid(f))
          && (match p
              case PIdle => true
              case PushReturn(_) => true
              case PushClosed(fs) => fs == frames
              case PushHead(fs) => fs == frames
              case PushTail(fs, _) => fs == frames
              case PushCopy(fs, _, _, _) => fs == frames
              case _ => false)
        case EmptyCheck => v.mode.Draining? && InSizeCall(p)
        case ResumeCheck(_) => v.mode.Running? && v.paused && InSizeCall(p)
        case PauseCheck(_, _) => v.mode.Running? && !v.paused && InSizeCall(p)
        case Announcing(_, _, _, fatal) => v.mode.Running? && !v.paused && !fatal && p.PIdle?
        case Receiving(_) => v.mode.Running? && !v.paused && p.PIdle?
        case Pausing(_) => v.mode.Running? && !v.paused && p.PIdle?
        case Resuming(_) => v.mode.Running? && v.paused && p.PIdle?
        case _ => p.PIdle?)
  }

  ghost predicate InSizeCall<F>(p: Producer<F>) { p.PIdle? || p.PSizeTail? || p.PSizeHead? || p.PSizeReturn? }

  /** The ring method the reader is in agrees with where the reader stands. */
  ghost predicate ReaderShape<F>(L: Limits<F>, r: Reader<F>, c: Consumer<F>) {
    && (r.pc != Exited(false) ==> |r.batch| < L.stage)
    && (r.ipc != [] ==> r.pc.Processing? || r.pc == Exited(false))
    && (match r.pc
        case Popping =>
          || c.CIdle? || (c.PopTail? && c.limit == L.ipc) || (c.PopHead? && c.limit == L.ipc)
          || c.PopCopy? || c.PopReturn?
        case Processing => c.CIdle? && r.consumedAny
        case Flushing => c.CIdle?
        case ClosedCheck => r.batch == [] && (c.CIdle? || c.ClosedLoad? || c.ClosedReturn?)
        case LastCheck => r.batch == [] && (c.CIdle? || c.CSizeTail? || c.CSizeHead? || c.CSizeReturn?)
        case Exited(ok) => ok ==> r.batch == [] && c.CIdle?
        case _ => r.batch == [] && c.CIdle?)
  }

  // ------------------------------------------------------------------- room

  /** Ingress that is not paused leaves room for a whole receive: no push is ever cut short. */
  ghost predicate Room<F>(L: Limits<F>, v: Server<F>, p: Producer<F>, pending: int) {
    match v.pc
    case Pushing(_, frames, _) =>
      (match p
       case PushCopy(_, _, count, _) => count == |frames| && pending < L.pause
       case PushReturn(n) => n == |frames|
       case _ => pending < L.pause)
    case PauseCheck(_, _) => true
    case Pausing(_) => true
    case Resuming(_) => pending < L.pause
    case Announcing(_, _, pauseWanted, _) => !pauseWanted ==> pending < L.pause
    case Stopped(_) => true
    case _ => v.mode.Running? && !v.paused ==> pending < L.pause
  }

  // ------------------------------------------------------------------- frames

  /** Frames popped from the ring and not yet staged. */
  ghost function InHand<F>(r: Reader<F>, c: Consumer<F>): seq<F> {
    if r.pc.Popping? && c.PopReturn? then c.frames else r.ipc
  }

  /** Every frame that left the ring is in exactly one place, in order. */
  ghost predicate Conserved<F>(r: Reader<F>, c: Consumer<F>, tail: nat, log: seq<F>)
    requires tail <= |log|
  {
    r.stored + r.batch + InHand(r, c) == log[..tail]
  }

  ghost predicate FramesKept<F>(L: Limits<F>, r: Reader<F>, c: Consumer<F>, tail: nat, log: seq<F>) {
    && tail <= |log|
    && r.synced <= |r.stored|
    && r.stored <= log
    && (forall f <- log :: L.valid(f))
    && (r.pc != Exited(false) ==> Conserved(r, c, tail, log))
  }

  // ------------------------------------------------------------------- wakeups

  /** The reader has looked at the ring for the last time before it sleeps. */
  ghost predicate Committed<F>(s: Sys<F>) {
    match s.reader.pc
    case Popping => s.ring.c == PopReturn([])
    case Flushing => true
    case SpaceNotice => true
    case ClosedCheck => true
    case LastCheck => true
    case Sleeping => true
    case _ => false
  }

  ghost predicate ServerOwesData<F>(s: Sys<F>) {
    || (s.server.pc.Pushing? && s.ring.p.PushReturn?)
    || s.server.pc.PauseCheck? || s.server.pc.Announcing?
  }

  ghost predicate MainOwesData<F>(s: Sys<F>) {
    (s.main.Serving? && s.server.pc.Stopped?) || s.main.NotifyReader?
  }

  /** The reader has released slots since its last space notification, and will notify. */
  ghost predicate ReaderOwesSpace<F>(s: Sys<F>) {
    match s.reader.pc
    case Popping => s.reader.consumedAny || (s.ring.c.PopReturn? && s.ring.c.frames != [])
    case Processing => s.reader.consumedAny
    case Flushing => s.reader.consumedAny
    case SpaceNotice => s.reader.consumedAny
    case _ => false
  }

  ghost predicate SpaceComing<F>(s: Sys<F>) { s.space > 0 || ReaderOwesSpace(s) }

  /** A committed reader is told of every frame it has not seen, and of the close. */
  ghost predicate DataWakeup<F>(s: Sys<F>) {
    && (Committed(s) && s.ring.head > s.ring.tail ==> s.data > 0 || ServerOwesData(s) || MainOwesData(s))
    && (s.reader.pc.Sleeping? || (s.reader.pc.ClosedCheck? && s.ring.c == ClosedReturn(false)) ==>
          s.ring.closed ==> s.data > 0 || s.main.NotifyReader?)
  }

  function Remaining<F>(pc: ServerPc<F>): seq<Event> {
    match pc
    case Dispatch(rest) => rest
    case ResumeCheck(rest) => rest
    case Receiving(rest) => rest
    case Pushing(rest, _, _) => rest
    case PauseCheck(rest, _) => rest
    case Announcing(rest, _, _, _) => rest
    case Pausing(rest) => rest
    case Resuming(rest) => rest
    case _ => []
  }

  /** A server that waits for room is told when slots were released after it last looked. */
  ghost predicate SpaceWakeup<F>(L: Limits<F>, s: Sys<F>) {
    && (s.ring.p.PSizeHead? && s.ring.tail > s.ring.p.tail ==> SpaceComing(s))
    && (s.ring.p.PSizeReturn? && Pending(s) < s.ring.p.size ==> SpaceComing(s))
    && (match s.server.pc
        case Announcing(_, _, pauseWanted, _) => pauseWanted && Pending(s) <= L.resume ==> SpaceComing(s)
        case Pausing(_) => Pending(s) <= L.resume ==> SpaceComing(s)
        case Waiting =>
          && (s.server.mode.Running? && s.server.paused && Pending(s) <= L.resume ==> SpaceComing(s))
          && (s.server.mode.Draining? && Pending(s) == 0 ==> SpaceComing(s))
        case Top => s.server.mode.Running? && s.server.paused && Pending(s) <= L.resume ==> SpaceComing(s)
        case Dispatch(_) => s.server.mode.Running? && s.server.paused && Pending(s) <= L.resume ==> SpaceComing(s)
        case _ => true)
  }

  /** Events still to handle were ready when reported, and only the server can change that. */
  ghost predicate EventsReady(rest: seq<Event>, space: nat, signals: seq<Signal>) {
    && Once(rest, SpaceReady) && (SpaceReady in rest ==> space > 0)
    && Once(rest, SignalReady) && (SignalReady in rest ==> signals != [])
  }

  // ------------------------------------------------------------------- endings

  ghost predicate Endings<F>(s: Sys<F>) {
    && (s.server.mode.Draining? ==> Shutdown in s.processed)
    && (s.server.pc != Stopped(false) ==> ReaderGone !in s.processed)
    && (s.server.pc == Stopped(true) ==> s.server.mode.Draining? && s.ring.head == s.ring.tail)
    && (s.reader.pc.LastCheck? ==> s.ring.closed)
    && (s.reader.pc.LastCheck? && s.ring.c.CSizeReturn? ==> s.ring.head == s.ring.tail + s.ring.c.size)
    && (s.reader.pc.FinalSync? || s.reader.pc == Exited(true) ==> s.ring.closed && s.ring.head == s.ring.tail)
    && (s.reader.pc == Exited(true) ==> s.reader.synced == |s.reader.stored|)
    && (match s.main
        case Serving => true
        case NotifyReader(ok) => ok ==> s.server.pc == Stopped(true)
        case Joining(ok) => ok ==> s.server.pc == Stopped(true)
        case MainExit(ok) =>
          s.reader.pc.Exited? && (ok ==> s.server.pc == Stopped(true) && s.reader.pc == Exited(true)))
  }

  ghost predicate SysInv<F>(L: Limits<F>, s: Sys<F>) {
    && Spsc.Inv(L.cap, s.ring)
    && ServerShape(L, s.server, s.ring.p, s.ring.closed, s.main)
    && ReaderShape(L, s.reader, s.ring.c)
    && Room(L, s.server, s.ring.p, Pending(s))
    && FramesKept(L, s.reader, s.ring.c, s.ring.tail, s.ring.log)
    && (s.reader.pc != Exited(false) ==> DataWakeup(s) && SpaceWakeup(L, s))
    && EventsReady(Remaining(s.server.pc), s.space, s.signals)
    && Endings(s)
  }

  lemma InitKeeps<F>(L: Limits<F>, s: Sys<F>)
    requires Good(L) && SystemInit(L, s)
    ensures SysInv(L, s)
  {}

  // ------------------------------------------------------------- server steps

  lemma PublishingKeepsFrames<F>(L: Limits<F>, r: Reader<F>, c: Consumer<F>, tail: nat, log: seq<F>, more: seq<F>)
    requires FramesKept(L, r, c, tail, log) && forall f <- more :: L.valid(f)
    ensures FramesKept(L, r, c, tail, log + more)
  {
    assert (log + more)[..tail] == log[..tail];
    PrefixTransitive(r.stored, log, log + more);
  }

  lemma ServerInRingKeeps<F>(L: Limits<F>, s: Sys<F>, s': Sys<F>)
    requires Good(L) && SysInv(L, s) && ServerInRing(L, s, s')
    ensures SysInv(L, s')
  {
    hide Readable, Slot, Once, ReaderShape;
    ProducerStepRefines(L.cap, s.ring, s'.ring);
    if s'.ring.head != s.ring.head {
      PublishingKeepsFrames(L, s.reader, s.ring.c, s.ring.tail, s.ring.log, s.ring.p.frames[..s.ring.p.count]);
    }
    hide FramesKept;
  }

  /** Dropping the first event leaves the others ready. */
  lemma NextEventReady(rest: seq<Event>, space: nat, signals: seq<Signal>)
    requires EventsReady(rest, space, signals)
    ensures EventsReady([], space, signals)
    ensures rest != [] ==> EventsReady(rest[1..], space, signals)
    ensures rest != [] && rest[0].SpaceReady? ==> space > 0 && EventsReady(rest[1..], 0, signals)
    ensures rest != [] && rest[0].SignalReady? ==> signals != [] && EventsReady(rest[1..], space, [])
  {
    if rest != [] {
      var tail := rest[1..];
      assert forall i :: 0 <= i < |tail| ==> tail[i] == rest[i + 1];
      assert rest[0].SpaceReady? ==> SpaceReady !in tail;
      assert rest[0].SignalReady? ==> SignalReady !in tail;
    }
  }

  lemma ServerQuietKeeps<F>(L: Limits<F>, s: Sys<F>, s': Sys<F>)
    requires Good(L) && SysInv(L, s) && ServerDoes(L, s, Quiet, s')
    ensures SysInv(L, s')
  {
    NextEventReady(Remaining(s.server.pc), s.space, s.signals);
    hide Spsc.Inv, ReaderShape, FramesKept, EventsReady;
  }

  lemma ServerWakeKeeps<F>(L: Limits<F>, s: Sys<F>, events: seq<Event>, s': Sys<F>)
    requires Good(L) && SysInv(L, s) && ServerDoes(L, s, Wake(events), s')
    ensures SysInv(L, s')
  {
    hide Spsc.Inv, ReaderShape, FramesKept, Once;
  }

  lemma ServerAnnounceKeeps<F>(L: Limits<F>, s: Sys<F>, s': Sys<F>)
    requires Good(L) && SysInv(L, s) && ServerDoes(L, s, AnnounceData, s')
    ensures SysInv(L, s')
  {
    NextEventReady(Remaining(s.server.pc), s.space, s.signals);
    hide Spsc.Inv, ReaderShape, FramesKept, EventsReady;
  }

  lemma ServerSignalsKeeps<F>(L: Limits<F>, s: Sys<F>, signals: seq<Signal>, s': Sys<F>)
    requires Good(L) && SysInv(L, s) && ServerDoes(L, s, ReadSignals(signals), s')
    ensures SysInv(L, s')
  {
    NextEventReady(s.server.pc.rest, s.space, s.signals);
    hide Spsc.Inv, ReaderShape, FramesKept, EventsReady;
  }

  lemma ServerTakesKeeps<F>(L: Limits<F>, s: Sys<F>, s': Sys<F>)
    requires Good(L) && SysInv(L, s) && ServerDoes(L, s, TakeSpace, s')
    ensures SysInv(L, s')
  {
    NextEventReady(s.server.pc.rest, s.space, s.signals);
    hide Spsc.Inv, ReaderShape, FramesKept, EventsReady;
  }

  lemma ServerReturnsSizeKeeps<F>(L: Limits<F>, s: Sys<F>, size: nat, s': Sys<F>)
    requires Good(L) && SysInv(L, s) && ServerDoes(L, s, ReturnSize(size), s')
    ensures SysInv(L, s')
  {
    NextEventReady(Remaining(s.server.pc), s.space, s.signals);
    hide Readable, Slot, ReaderShape, FramesKept, ConsumerInv, EventsReady;
  }

  lemma ServerCallsKeeps<F>(L: Limits<F>, s: Sys<F>, a: ServerAct<F>, s': Sys<F>)
    requires Good(L) && SysInv(L, s) && ServerDoes(L, s, a, s')
    requires a.CallSize? || a.CallPush? || a.ReturnPush?
    ensures SysInv(L, s')
  {
    NextEventReady(Remaining(s.server.pc), s.space, s.signals);
    hide Readable, Slot, ReaderShape, FramesKept, ConsumerInv, EventsReady;
  }

  // ------------------------------------------------------------- reader steps

  lemma ReleasingKeepsFrames<F>(L: Limits<F>, r: Reader<F>, c: Consumer<F>, tail: nat, log: seq<F>, taken: seq<F>)
    requires FramesKept(L, r, c, tail, log) && InHand(r, c) == [] && r.pc.Popping?
    requires tail + |taken| <= |log| && taken == log[tail..tail + |taken|]
    ensures FramesKept(L, r, PopReturn(taken), tail + |taken|, log)
  {
    SliceJoin(log, 0, tail, tail + |taken|);
    assert r.stored + r.batch + [] == r.stored + r.batch;
  }

  lemma ReaderInRingKeeps<F>(L: Limits<F>, s: Sys<F>, s': Sys<F>)
    requires Good(L) && SysInv(L, s) && ReaderInRing(L, s, s')
    ensures SysInv(L, s')
  {
    if s.ring.c.PopCopy? && |s.ring.c.taken| == s.ring.c.count {
      ReaderReleasesKeeps(L, s, s');
    } else {
      ReaderLooksKeeps(L, s, s');
    }
  }

  /** The store of the tail. */
  lemma ReaderReleasesKeeps<F>(L: Limits<F>, s: Sys<F>, s': Sys<F>)
    requires Good(L) && SysInv(L, s) && ReaderInRing(L, s, s')
    requires s.ring.c.PopCopy? && |s.ring.c.taken| == s.ring.c.count
    ensures SysInv(L, s')
  {
    hide Readable, Slot, EventsReady, ServerShape, ProducerInv;
    ConsumerStepRefines(L.cap, s.ring, s'.ring);
    ReleasingKeepsFrames(L, s.reader, s.ring.c, s.ring.tail, s.ring.log, s.ring.c.taken);
    assert FramesKept(L, s'.reader, s'.ring.c, s'.ring.tail, s'.ring.log);
    hide FramesKept, Spsc.Inv;
  }

  /** The loads and copies. */
  lemma ReaderLooksKeeps<F>(L: Limits<F>, s: Sys<F>, s': Sys<F>)
    requires Good(L) && SysInv(L, s) && ReaderInRing(L, s, s')
    requires s.ring.c.PopCopy? ==> |s.ring.c.taken| != s.ring.c.count
    ensures SysInv(L, s')
  {
    hide Readable, Slot, EventsReady, ServerShape, ProducerInv;
    ConsumerStepRefines(L.cap, s.ring, s'.ring);
    assert FramesKept(L, s'.reader, s'.ring.c, s'.ring.tail, s'.ring.log);
    hide FramesKept;
  }

  /** Staging one frame moves it from the hand to the end of the batch. */
  lemma StagingConserves<F>(stored: seq<F>, batch: seq<F>, hand: seq<F>, all: seq<F>)
    requires stored + batch + hand == all
    ensures hand != [] ==> stored + (batch + [hand[0]]) + hand[1..] == all
    ensures (stored + batch) + [] + hand == all
  {
    if hand != [] {
      assert hand == [hand[0]] + hand[1..];
      assert stored + (batch + [hand[0]]) + hand[1..] == stored + batch + ([hand[0]] + hand[1..]);
    }
    assert (stored + batch) + [] == stored + batch;
  }

  /** Whatever gets stored of a batch is a prefix of what was published. */
  lemma StoredIsPublished<F>(stored: seq<F>, got: seq<F>, hand: seq<F>, log: seq<F>, tail: nat)
    requires tail <= |log| && got + hand == log[..tail] && stored <= got
    ensures stored <= log
  {
    assert (got + hand)[..|got|] == got;
    PrefixTransitive(stored, got, log[..tail]);
    PrefixTransitive(stored, log[..tail], log);
  }

  /** The reader's own work keeps every frame in one place. */
  lemma ReaderDoesKeepsFrames<F>(L: Limits<F>, r: Reader<F>, r': Reader<F>, tail: nat, log: seq<F>)
    requires Good(L) && ReaderShape(L, r, CIdle) && FramesKept(L, r, CIdle, tail, log) && ReaderInside(L, r, r')
    ensures FramesKept(L, r', CIdle, tail, log) && ReaderShape(L, r', CIdle)
  {
    var all := log[..tail];
    StagingConserves(r.stored, r.batch, r.ipc, all);
    if r.pc.Processing? && r.ipc != [] {
      var batch := r.batch + [r.ipc[0]];
      StagingConserves(r.stored, batch, r.ipc[1..], all);
      if L.valid(r.ipc[0]) {
        StoredIsPublished(r'.stored, r.stored + batch, r.ipc[1..], log, tail);
      } else {
        StoredIsPublished(r'.stored, r.stored + r.batch, r.ipc, log, tail);
      }
    } else {
      StoredIsPublished(r'.stored, r.stored + r.batch, r.ipc, log, tail);
    }
  }

  lemma ReaderInsideKeeps<F>(L: Limits<F>, s: Sys<F>, s': Sys<F>)
    requires Good(L) && SysInv(L, s) && ReaderDoes(L, s, Inside, s')
    ensures SysInv(L, s')
  {
    ReaderDoesKeepsFrames(L, s.reader, s'.reader, s.ring.tail, s.ring.log);
    hide Spsc.Inv, FramesKept, EventsReady, ServerShape, Room;
  }

  lemma ReaderPopsKeeps<F>(L: Limits<F>, s: Sys<F>, frames: seq<F>, s': Sys<F>)
    requires Good(L) && SysInv(L, s) && ReaderDoes(L, s, ReturnPop(frames), s')
    ensures SysInv(L, s')
  {
    hide Readable, Slot, EventsReady, ProducerInv, ServerShape, Room;
  }

  lemma ReaderChecksKeeps<F>(L: Limits<F>, s: Sys<F>, a: ReaderAct<F>, s': Sys<F>)
    requires Good(L) && SysInv(L, s) && ReaderDoes(L, s, a, s')
    requires a.ReturnClosed? || a.ReturnLastSize?
    ensures SysInv(L, s')
  {
    hide Readable, Slot, EventsReady, ProducerInv, Room;
  }

  lemma ReaderCallsKeeps<F>(L: Limits<F>, s: Sys<F>, a: ReaderAct<F>, s': Sys<F>)
    requires Good(L) && SysInv(L, s) && ReaderDoes(L, s, a, s')
    requires a.CallPop? || a.CallClosed? || a.CallLastSize? || a.AnnounceSpace? || a.TakeData?
    ensures SysInv(L, s')
  {
    hide Readable, Slot, ProducerInv, ServerShape, Room, Once;
  }

  lemma MainDoesKeeps<F>(L: Limits<F>, s: Sys<F>, s': Sys<F>)
    requires Good(L) && SysInv(L, s) && MainDoes(s, s')
    ensures SysInv(L, s')
  {
    hide Readable, Slot, EventsReady;
  }

  lemma SignalArrivesKeeps<F>(L: Limits<F>, s: Sys<F>, s': Sys<F>)
    requires Good(L) && SysInv(L, s) && SignalArrives(s, s')
    ensures SysInv(L, s')
  {
    hide Spsc.Inv, ReaderShape, FramesKept;
    assert EventsReady(Remaining(s'.server.pc), s'.space, s'.signals);
    assert Endings(s');
    assert s'.reader.pc != Exited(false) ==> DataWakeup(s') && SpaceWakeup(L, s');
  }
}
