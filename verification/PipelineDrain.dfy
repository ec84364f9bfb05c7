/** Draining: nothing more is pushed, and the server reaches success. */
module PipelineDrain {
  import opened RingCounters
  import opened Spsc
  import opened Pipeline
  import opened PipelineSafety
  import opened PipelineTheorems
  import opened PipelineProgress

  /** Once draining, always draining, and the history of pushed frames has ended: no client is read. */
  lemma {:induction false} DrainingPushesNothing<F(!new)>(L: Limits<F>, run: seq<Sys<F>>, i: nat, j: nat)
    requires Good(L) && IsSystemRun(L, run) && i <= j < |run| && run[i].server.mode.Draining?
    ensures run[j].server.mode.Draining? && run[j].ring.log == run[i].ring.log && run[j].ring.head == run[i].ring.head
    decreases j
  {
    hide SysInv, Step, Good, SystemInit;
    if i < j {
      DrainingPushesNothing(L, run, i, j - 1);
      RunKeeps(L, run, j - 1);
      var s, s' := run[j - 1], run[j];
      assert SystemStepAt(L, run, j);
      DrainingStep(L, s, s');
    }
  }

  lemma DrainingStep<F(!new)>(L: Limits<F>, s: Sys<F>, s': Sys<F>)
    requires SysInv(L, s) && Step(L, s, s') && s.server.mode.Draining?
    ensures s'.server.mode.Draining? && s'.ring.log == s.ring.log && s'.ring.head == s.ring.head
  {
    if ServerInRing(L, s, s') || (exists a :: ServerDoes(L, s, a, s')) {
      DrainingServerStep(L, s, s');
    } else if ReaderInRing(L, s, s') {
      ConsumerStepRefines(L.cap, s.ring, s'.ring);
    }
    hide SysInv;
  }

  lemma DrainingServerStep<F(!new)>(L: Limits<F>, s: Sys<F>, s': Sys<F>)
    requires SysInv(L, s) && s.server.mode.Draining?
    requires ServerInRing(L, s, s') || (exists a :: ServerDoes(L, s, a, s'))
    ensures s'.server.mode.Draining? && s'.ring.log == s.ring.log && s'.ring.head == s.ring.head
  {
    hide Readable, Slot, FramesKept, ReaderMove, DataWakeup, SpaceWakeup, Endings, EventsReady, Room, ReaderShape;
  }

  // ------------------------------------------------------------- the measure

  /** Steps the reader can still take before it sleeps, if no more frames turn up. */
  ghost function ReaderWork<F>(L: Limits<F>, r: Reader<F>, c: Consumer<F>): int {
    match r.pc
    case Popping =>
      (match c
       case PopTail(_) => 14 + L.ipc
       case PopHead(_, _) => 13 + L.ipc
       case PopCopy(_, count, taken) => 12 + count - |taken|
       case PopReturn(fs) => if fs == [] then 11 else 17 + L.ipc + |fs|
       case _ => 15 + L.ipc)
    case Processing => 16 + L.ipc + |r.ipc|
    case Flushing => 10
    case SpaceNotice => 9
    case ClosedCheck => (match c case ClosedLoad => 7 case ClosedReturn(_) => 6 case _ => 8)
    case LastCheck => (match c case CSizeTail => 4 case CSizeHead(_) => 3 case CSizeReturn(_) => 2 case _ => 5)
    case FinalSync => 1
    case _ => 0
  }

  /** Steps the server can still take before it waits. */
  ghost function ServerWork<F>(pc: ServerPc<F>, p: Producer<F>): int {
    match pc
    case Dispatch(rest) => 9 + |rest|
    case Top => 8
    case EmptyCheck => (match p case PSizeTail => 6 case PSizeHead(_) => 5 case PSizeReturn(_) => 4 case _ => 7)
    case Waiting => 3
    case _ => 0
  }

  /** A ready descriptor pays for waking the server, and again for being handled. */
  function Credit(isReady: bool, reported: bool): int {
    if !isReady then 0 else if reported then 10 else 20
  }

  ghost function Work<F>(L: Limits<F>, s: Sys<F>): int {
    ReaderWork(L, s.reader, s.ring.c) + ServerWork(s.server.pc, s.ring.p)
    + (if s.data > 0 then 17 + L.ipc else 0)
    + Credit(s.space > 0, SpaceReady in Remaining(s.server.pc))
    + (if ReaderOwesSpace(s) then 20 else 0)
    + Credit(s.signals != [], SignalReady in Remaining(s.server.pc))
  }

  /** A shutdown under way, in which nothing has failed. */
  ghost predicate Closing<F>(L: Limits<F>, s: Sys<F>) {
    SysInv(L, s) && s.server.mode.Draining? && s.server.pc != Stopped(false) && s.reader.pc != Exited(false)
  }

  ghost predicate Drains<F>(L: Limits<F>, s: Sys<F>) { Closing(L, s) && !s.server.pc.Stopped? }

  ghost predicate Decreases<F>(L: Limits<F>, s: Sys<F>, s': Sys<F>) {
    Pending(s') < Pending(s) || (Pending(s') == Pending(s) && Work(L, s') < Work(L, s))
  }

  lemma WorkIsNatural<F>(L: Limits<F>, s: Sys<F>)
    requires SysInv(L, s)
    ensures Work(L, s) >= 0 && Pending(s) >= 0
  {
    hide Readable, Slot, FramesKept, DataWakeup, SpaceWakeup, Endings, EventsReady, Room;
  }

  /** While draining, a wait reports only the space event and the signal event, each once. */
  lemma WakePays<F>(s: Sys<F>, events: seq<Event>)
    requires s.server.mode.Draining? && events != []
    requires (forall e <- events :: IsReady(s, e)) && Once(events, SignalReady) && Once(events, SpaceReady)
    ensures |events| <= 2
    ensures (s.space > 0 && SpaceReady in events) || (s.signals != [] && SignalReady in events)
  {
    forall k | 0 <= k < |events|
      ensures events[k].SpaceReady? || events[k].SignalReady?
    {
      assert IsReady(s, events[k]);
    }
    assert events[0] in events;
    if |events| > 2 {
      SomeReadyTwice(events);
      assert false;
    }
  }

  lemma SomeReadyTwice(events: seq<Event>)
    requires |events| > 2 && forall k :: 0 <= k < |events| ==> events[k].SpaceReady? || events[k].SignalReady?
    ensures exists i, j ::
      0 <= i < j < |events| && events[i] == events[j] && (events[i].SpaceReady? || events[i].SignalReady?)
  {
    assert events[0] == events[1] || events[0] == events[2] || events[1] == events[2];
  }

  lemma ServerInRingDrains<F>(L: Limits<F>, s: Sys<F>, s': Sys<F>)
    requires Drains(L, s) && ServerInRing(L, s, s')
    ensures Decreases(L, s, s')
  {
    hide Readable, Slot, FramesKept, DataWakeup, SpaceWakeup, Endings, EventsReady, Room, ReaderShape, ReaderWork;
  }

  lemma ServerWakeDrains<F>(L: Limits<F>, s: Sys<F>, events: seq<Event>, s': Sys<F>)
    requires Drains(L, s) && ServerWorks(L, s, Wake(events), s')
    ensures Decreases(L, s, s')
  {
    hide Spsc.Inv, FramesKept, DataWakeup, SpaceWakeup, Endings, Room, ReaderShape, ReaderWork;
    WakePays(s, events);
    hide Once;
  }

  /** A report is handled. */
  lemma ServerTakesDrains<F>(L: Limits<F>, s: Sys<F>, a: ServerAct<F>, s': Sys<F>)
    requires Drains(L, s) && ServerDoes(L, s, a, s') && (a.ReadSignals? || a.TakeSpace?)
    requires s'.server.pc != Stopped(false)
    ensures Decreases(L, s, s')
  {
    var rest := Remaining(s.server.pc);
    NextEventReady(rest, s.space, s.signals);
    assert rest != [] ==> forall e :: e in rest <==> e == rest[0] || e in rest[1..];
    hide Spsc.Inv, FramesKept, DataWakeup, SpaceWakeup, Endings, Room, ReaderShape, ReaderWork, ServerShape, Once;
  }

  /** The server's own steps, and its size check. */
  lemma ServerStepsDrain<F>(L: Limits<F>, s: Sys<F>, a: ServerAct<F>, s': Sys<F>)
    requires Drains(L, s) && ServerDoes(L, s, a, s') && !a.Wake? && !a.ReadSignals? && !a.TakeSpace?
    requires s'.server.pc != Stopped(false)
    ensures Decreases(L, s, s')
  {
    var rest := Remaining(s.server.pc);
    assert rest != [] ==> forall e :: e in rest <==> e == rest[0] || e in rest[1..];
    hide Spsc.Inv, FramesKept, DataWakeup, SpaceWakeup, Endings, Room, ReaderShape, ReaderWork, EventsReady;
  }

  lemma ServerWorksDrains<F>(L: Limits<F>, s: Sys<F>, a: ServerAct<F>, s': Sys<F>)
    requires Drains(L, s) && ServerWorks(L, s, a, s') && s'.server.pc != Stopped(false)
    ensures Decreases(L, s, s')
  {
    assert ServerDoes(L, s, a, s');
    hide *;
    if a.Wake? {
      ServerWakeDrains(L, s, a.events, s');
    } else if a.ReadSignals? || a.TakeSpace? {
      ServerTakesDrains(L, s, a, s');
    } else {
      ServerStepsDrain(L, s, a, s');
    }
  }

  lemma ReaderInRingDrains<F>(L: Limits<F>, s: Sys<F>, s': Sys<F>)
    requires Good(L) && Closing(L, s) && ReaderInRing(L, s, s')
    ensures Decreases(L, s, s')
  {
    hide Readable, Slot, FramesKept, DataWakeup, SpaceWakeup, Endings, EventsReady, Room, ServerShape, ServerWork;
  }

  lemma ReaderDoesDrains<F>(L: Limits<F>, s: Sys<F>, a: ReaderAct<F>, s': Sys<F>)
    requires Good(L) && Closing(L, s) && ReaderDoes(L, s, a, s') && s'.reader.pc != Exited(false)
    ensures Decreases(L, s, s')
  {
    hide Spsc.Inv, FramesKept, DataWakeup, SpaceWakeup, Endings, Room, ServerShape, ServerWork;
  }

  /** Every step of work while draining, of either process, lowers the measure. */
  lemma DrainingWorkDecreases<F(!new)>(L: Limits<F>, s: Sys<F>, s': Sys<F>)
    requires Good(L) && Drains(L, s) && WorkStep(L, s, s')
    ensures Decreases(L, s, s')
    ensures s'.server.pc == Stopped(true) || Drains(L, s')
  {
    assert Step(L, s, s');
    StepKeeps(L, s, s');
    DrainingStep(L, s, s');
    assert s.main.Serving?;
    hide Decreases, SysInv, Good;
    if ServerInRing(L, s, s') {
      ServerInRingDrains(L, s, s');
    } else if a :| ServerWorks(L, s, a, s') {
      ServerWorksDrains(L, s, a, s');
    } else if ReaderInRing(L, s, s') {
      ReaderInRingDrains(L, s, s');
    } else if a :| ReaderDoes(L, s, a, s') {
      ReaderDoesDrains(L, s, a, s');
    } else {
      assert false;
    }
  }

  // ------------------------------------------------------------- infinite runs

  /** A step of an infinite run: work in which nothing fails, or one of `left(k)` signals still to come. */
  ghost predicate Proceeds<F(!new)>(L: Limits<F>, run: nat -> Sys<F>, left: nat -> nat, k: nat) {
    || (WorkStep(L, run(k), run(k + 1)) && left(k + 1) <= left(k))
    || (SignalArrives(run(k), run(k + 1)) && left(k + 1) < left(k))
  }

  lemma SignalKeepsDraining<F(!new)>(L: Limits<F>, s: Sys<F>, s': Sys<F>)
    requires Good(L) && Closing(L, s) && SignalArrives(s, s')
    ensures Closing(L, s') && s'.main == s.main && (Drains(L, s) ==> Drains(L, s'))
  {
    assert Step(L, s, s');
    StepKeeps(L, s, s');
    hide SysInv;
  }

  /** Draining ends: in every infinite run of work without failure, with any finite number of further
      signals, the server reaches success; which process moves when does not matter. */
  lemma {:induction false} DrainingEnds<F(!new)>(L: Limits<F>, run: nat -> Sys<F>, left: nat -> nat, i: nat)
    returns (j: nat)
    requires Good(L) && Closing(L, run(i))
    requires forall k: nat :: k >= i && !run(k).server.pc.Stopped? ==> Proceeds(L, run, left, k)
    ensures j >= i && run(j).server.pc == Stopped(true)
    decreases left(i), Pending(run(i)), Work(L, run(i))
  {
    if run(i).server.pc.Stopped? {
      return i;
    }
    assert Proceeds(L, run, left, i);
    if WorkStep(L, run(i), run(i + 1)) && left(i + 1) <= left(i) {
      DrainingWorkDecreases(L, run(i), run(i + 1));
      if run(i + 1).server.pc == Stopped(true) {
        return i + 1;
      }
    } else {
      SignalKeepsDraining(L, run(i), run(i + 1));
    }
    hide SysInv, WorkStep, Good, Step;
    WorkIsNatural(L, run(i));
    WorkIsNatural(L, run(i + 1));
    j := DrainingEnds(L, run, left, i + 1);
  }

  function MainLeft(main: MainPc): nat {
    match main case Serving => 3 case NotifyReader(_) => 2 case Joining(_) => 1 case MainExit(_) => 0
  }

  lemma MainComesCloser<F(!new)>(L: Limits<F>, s: Sys<F>, s': Sys<F>)
    requires Good(L) && Closing(L, s) && MainDoes(s, s') && s'.reader.pc != Exited(false)
    ensures MainLeft(s'.main) < MainLeft(s.main) && Closing(L, s')
  {
    assert Step(L, s, s');
    StepKeeps(L, s, s');
    hide SysInv;
  }

  /** Only main or the reader has work once the server has stopped, and main's steps are numbered. */
  lemma ClosingWorkDecreases<F(!new)>(L: Limits<F>, s: Sys<F>, s': Sys<F>)
    requires Good(L) && Closing(L, s) && WorkStep(L, s, s')
    ensures Closing(L, s') && MainLeft(s'.main) <= MainLeft(s.main)
    ensures MainLeft(s'.main) < MainLeft(s.main) || Decreases(L, s, s')
  {
    assert Step(L, s, s');
    StepKeeps(L, s, s');
    DrainingStep(L, s, s');
    if ServerInRing(L, s, s') || exists a :: ServerWorks(L, s, a, s') {
      StoppedServerRests(L, s, s');
    }
    hide Decreases, SysInv, Good;
    if MainDoes(s, s') {
      MainComesCloser(L, s, s');
    } else if ServerInRing(L, s, s') {
      ServerInRingDrains(L, s, s');
    } else if a :| ServerWorks(L, s, a, s') {
      ServerWorksDrains(L, s, a, s');
    } else if ReaderInRing(L, s, s') {
      ReaderInRingDrains(L, s, s');
    } else if a :| ReaderDoes(L, s, a, s') {
      ReaderDoesDrains(L, s, a, s');
    }
  }

  lemma StoppedServerRests<F(!new)>(L: Limits<F>, s: Sys<F>, s': Sys<F>)
    requires SysInv(L, s) && (ServerInRing(L, s, s') || exists a :: ServerDoes(L, s, a, s'))
    ensures !s.server.pc.Stopped?
  {
    hide Spsc.Inv, FramesKept, ReaderMove, DataWakeup, SpaceWakeup, Endings, EventsReady, Room, ReaderShape;
  }

  /** The whole shutdown ends: in every infinite run of work without failure, with any finite number of
      further signals, the program exits, and everything ever pushed is stored and durable. */
  lemma {:induction false} ShutdownEnds<F(!new)>(L: Limits<F>, run: nat -> Sys<F>, left: nat -> nat, i: nat)
    returns (j: nat)
    requires Good(L) && Closing(L, run(i))
    requires forall k: nat :: k >= i && !run(k).main.MainExit? ==> Proceeds(L, run, left, k)
    ensures j >= i && run(j).main.MainExit? && run(j).server.pc == Stopped(true) && run(j).reader.pc == Exited(true)
    ensures run(j).reader.stored == run(j).ring.log && run(j).reader.synced == |run(j).ring.log|
    decreases left(i), MainLeft(run(i).main), Pending(run(i)), Work(L, run(i))
  {
    if run(i).main.MainExit? {
      ExitMeansBothEnded(L, run(i));
      SuccessMeansStored(L, run(i));
      return i;
    }
    assert Proceeds(L, run, left, i);
    if WorkStep(L, run(i), run(i + 1)) && left(i + 1) <= left(i) {
      ClosingWorkDecreases(L, run(i), run(i + 1));
    } else {
      SignalKeepsDraining(L, run(i), run(i + 1));
    }
    hide SysInv, WorkStep, Good, Step;
    WorkIsNatural(L, run(i));
    WorkIsNatural(L, run(i + 1));
    j := ShutdownEnds(L, run, left, i + 1);
  }

  lemma ExitMeansBothEnded<F>(L: Limits<F>, s: Sys<F>)
    requires Closing(L, s) && s.main.MainExit?
    ensures s.server.pc == Stopped(true) && s.reader.pc == Exited(true)
  {}
}
