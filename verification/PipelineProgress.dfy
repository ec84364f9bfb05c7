/** Liveness: in no reachable state is the system stuck with work left, and draining ends. */
module PipelineProgress {
  import opened RingCounters
  import opened Spsc
  import opened Pipeline
  import opened PipelineSafety
  import opened PipelineTheorems

  /** A paused server has taken its clients out of epoll; a draining one has closed them, and the
      listener. */
  ghost predicate IsReady<F>(s: Sys<F>, e: Event) {
    match e
    case ListenReady => s.server.mode.Running?
    case ClientReady => s.server.mode.Running? && !s.server.paused
    case _ => Reported(s, e)
  }

  /** The server acts, and is not woken for a socket that is not in epoll. */
  ghost predicate ServerWorks<F>(L: Limits<F>, s: Sys<F>, a: ServerAct<F>, s': Sys<F>) {
    ServerDoes(L, s, a, s') && (a.Wake? ==> forall e <- a.events :: IsReady(s, e))
  }

  /** A step of a process, not of the environment, in which nothing fails. */
  ghost predicate WorkStep<F(!new)>(L: Limits<F>, s: Sys<F>, s': Sys<F>) {
    && (|| ServerInRing(L, s, s') || (exists a :: ServerWorks(L, s, a, s'))
        || ReaderInRing(L, s, s') || (exists a :: ReaderDoes(L, s, a, s'))
        || MainDoes(s, s'))
    && s'.server.pc != Stopped(false)
    && s'.reader.pc != Exited(false)
  }

  // ------------------------------------------------------------- someone can move

  lemma ServerInRingCanMove<F(!new)>(L: Limits<F>, s: Sys<F>) returns (s': Sys<F>)
    requires SysInv(L, s) && s.main.Serving? && !s.server.pc.Stopped? && s.reader.pc != Exited(false)
    requires ProducerBusy(s.ring)
    ensures WorkStep(L, s, s')
  {
    hide Readable, Slot, FramesKept, DataWakeup, SpaceWakeup, Endings, ReaderShape, EventsReady, Room;
    s' := s.(ring := ProducerNext(L.cap, s.ring));
    assert ServerInRing(L, s, s');
  }

  /** A server about to call a ring method, or with its result. */
  lemma ServerCallerCanMove<F(!new)>(L: Limits<F>, s: Sys<F>) returns (s': Sys<F>)
    requires Good(L) && SysInv(L, s) && s.main.Serving? && s.reader.pc != Exited(false) && !ProducerBusy(s.ring)
    requires s.server.pc.EmptyCheck? || s.server.pc.ResumeCheck? || s.server.pc.PauseCheck? || s.server.pc.Pushing?
    ensures WorkStep(L, s, s')
  {
    hide Spsc.Inv, FramesKept, DataWakeup, SpaceWakeup, Endings, ReaderShape, EventsReady;
    var v, r := s.server, s.ring;
    ghost var a: ServerAct<F>;
    match v.pc {
      case Pushing(rest, frames, bad) =>
        if r.p.PIdle? {
          a, s' := CallPush(frames), s.(ring := r.(p := PushClosed(frames)));
        } else {
          a, s' := ReturnPush(r.p.pushed), s.(server := v.(pc := PauseCheck(rest, bad)), ring := r.(p := PIdle));
        }
      case EmptyCheck =>
        if r.p.PIdle? {
          a, s' := CallSize, s.(ring := r.(p := PSizeTail));
        } else {
          a, s' := ReturnSize(r.p.size),
            s.(server := v.(pc := if r.p.size == 0 then Stopped(true) else Waiting), ring := r.(p := PIdle));
        }
      case ResumeCheck(rest) =>
        if r.p.PIdle? {
          a, s' := CallSize, s.(ring := r.(p := PSizeTail));
        } else {
          a, s' := ReturnSize(r.p.size),
            s.(server := v.(pc := if r.p.size <= L.resume then Resuming(rest) else Dispatch(rest)),
               ring := r.(p := PIdle));
        }
      case PauseCheck(rest, bad) =>
        if r.p.PIdle? {
          a, s' := CallSize, s.(ring := r.(p := PSizeTail));
        } else {
          a, s' := ReturnSize(r.p.size),
            s.(server := v.(pc := Announcing(rest, bad, r.p.size >= L.pause, false)), ring := r.(p := PIdle));
        }
    }
    assert ServerWorks(L, s, a, s');
  }

  lemma ServerCanMove<F(!new)>(L: Limits<F>, s: Sys<F>) returns (s': Sys<F>)
    requires Good(L) && SysInv(L, s) && s.main.Serving? && !s.server.pc.Stopped? && s.reader.pc != Exited(false)
    requires !(s.server.pc.Waiting? && s.space == 0 && s.signals == []) && ReaderGone !in s.signals
    ensures WorkStep(L, s, s')
  {
    hide Spsc.Inv, FramesKept, DataWakeup, SpaceWakeup, Endings, ReaderShape, Room;
    if ProducerBusy(s.ring) {
      s' := ServerInRingCanMove(L, s);
      return;
    }
    var v := s.server;
    ghost var a: ServerAct<F>;
    match v.pc {
      case Top =>
        a, s' := Quiet, s.(server := v.(pc := if v.mode.Draining? then EmptyCheck else Waiting));
      case Waiting =>
        var events := if s.space > 0 then [SpaceReady] else [SignalReady];
        a, s' := Wake(events), s.(server := v.(pc := Dispatch(events)));
      case Dispatch(rest) =>
        if rest == [] {
          a, s' := Quiet, s.(server := v.(pc := Top));
        } else {
          match rest[0] {
            case SignalReady =>
              a, s' := ReadSignals(s.signals),
                s.(server := AfterSignals(v, rest[1..], s.signals), signals := [],
                    processed := s.processed + s.signals);
            case SpaceReady =>
              a, s' := TakeSpace,
                s.(server := v.(pc := if v.mode.Running? && v.paused then ResumeCheck(rest[1..])
                    else Dispatch(rest[1..])),
                   space := 0);
            case _ =>
              a, s' := Quiet, s.(server := v.(pc := Dispatch(rest[1..])));
          }
        }
      case Receiving(rest) =>
        a, s' := Quiet, s.(server := v.(pc := Dispatch(rest)));
      case Announcing(rest, bad, pauseWanted, _) =>
        a, s' := AnnounceData,
          s.(server := v.(pc := if pauseWanted then Pausing(rest) else if bad then Dispatch(rest) else Receiving(rest)),
             data := s.data + 1);
      case Pausing(rest) =>
        a, s' := Quiet, s.(server := v.(pc := Dispatch(rest), paused := true));
      case Resuming(rest) =>
        a, s' := Quiet, s.(server := v.(pc := Dispatch(rest), paused := false));
      case EmptyCheck =>
        s' := ServerCallerCanMove(L, s);
        return;
      case ResumeCheck(_) =>
        s' := ServerCallerCanMove(L, s);
        return;
      case PauseCheck(_, _) =>
        s' := ServerCallerCanMove(L, s);
        return;
      case Pushing(_, _, _) =>
        s' := ServerCallerCanMove(L, s);
        return;
    }
    assert ServerWorks(L, s, a, s');
  }

  lemma ReaderInRingCanMove<F(!new)>(L: Limits<F>, s: Sys<F>) returns (s': Sys<F>)
    requires SysInv(L, s) && !s.reader.pc.Exited? && s.server.pc != Stopped(false) && ConsumerBusy(s.ring)
    ensures WorkStep(L, s, s')
  {
    hide Readable, Slot, FramesKept, DataWakeup, SpaceWakeup, Endings, ServerShape, EventsReady, Room;
    s' := s.(ring := ConsumerNext(L.cap, s.ring));
    assert ReaderInRing(L, s, s');
  }

  /** A reader about to call a ring method, or with its result. */
  lemma ReaderCallerCanMove<F(!new)>(L: Limits<F>, s: Sys<F>) returns (s': Sys<F>)
    requires SysInv(L, s) && s.server.pc != Stopped(false) && !ConsumerBusy(s.ring)
    requires s.reader.pc.Popping? || s.reader.pc.ClosedCheck? || s.reader.pc.LastCheck?
    ensures WorkStep(L, s, s')
  {
    hide Spsc.Inv, FramesKept, DataWakeup, SpaceWakeup, Endings, ServerShape, EventsReady, Room;
    var r, ring := s.reader, s.ring;
    ghost var a: ReaderAct<F>;
    match r.pc {
      case Popping =>
        if ring.c.CIdle? {
          a, s' := CallPop, s.(ring := ring.(c := PopTail(L.ipc)));
        } else {
          var fs := ring.c.frames;
          a, s' := ReturnPop(fs),
            s.(reader := if fs == [] then r.(pc := Flushing) else r.(pc := Processing, ipc := fs, consumedAny := true),
               ring := ring.(c := CIdle));
        }
      case ClosedCheck =>
        if ring.c.CIdle? {
          a, s' := CallClosed, s.(ring := ring.(c := ClosedLoad));
        } else {
          a, s' := ReturnClosed(ring.c.closed),
            s.(reader := r.(pc := if ring.c.closed then LastCheck else Sleeping), ring := ring.(c := CIdle));
        }
      case LastCheck =>
        if ring.c.CIdle? {
          a, s' := CallLastSize, s.(ring := ring.(c := CSizeTail));
        } else {
          a, s' := ReturnLastSize(ring.c.size),
            s.(reader := r.(pc := if ring.c.size == 0 then FinalSync else Sleeping), ring := ring.(c := CIdle));
        }
    }
    assert ReaderDoes(L, s, a, s');
  }

  lemma ReaderCanMove<F(!new)>(L: Limits<F>, s: Sys<F>) returns (s': Sys<F>)
    requires Good(L) && SysInv(L, s) && !s.reader.pc.Exited? && s.server.pc != Stopped(false)
    requires !(s.reader.pc.Sleeping? && s.data == 0)
    ensures WorkStep(L, s, s')
  {
    var r := s.reader;
    if r.pc.Processing? && r.ipc != [] {
      FrameInHandIsValid(L, s);
    }
    if ConsumerBusy(s.ring) {
      s' := ReaderInRingCanMove(L, s);
      return;
    }
    if r.pc.Popping? || r.pc.ClosedCheck? || r.pc.LastCheck? {
      s' := ReaderCallerCanMove(L, s);
      return;
    }
    hide Spsc.Inv, FramesKept, DataWakeup, SpaceWakeup, Endings, ServerShape, EventsReady, Room;
    ghost var a: ReaderAct<F>;
    match r.pc {
      case Processing =>
        if r.ipc == [] {
          a, s' := Inside, s.(reader := r.(pc := Popping));
        } else {
          var staged := r.(ipc := r.ipc[1..], batch := r.batch + [r.ipc[0]]);
          a, s' := Inside, s.(reader := if |staged.batch| < L.stage then staged
                                        else staged.(batch := [], stored := staged.stored + staged.batch));
        }
      case Flushing =>
        a, s' := Inside, s.(reader := r.(pc := SpaceNotice, batch := [], stored := r.stored + r.batch));
        assert r.batch == [] ==> r.stored + r.batch == r.stored;
      case SpaceNotice =>
        if r.consumedAny {
          a, s' := AnnounceSpace, s.(reader := r.(pc := ClosedCheck), space := s.space + 1);
        } else {
          a, s' := Inside, s.(reader := r.(pc := ClosedCheck));
        }
      case FinalSync =>
        a, s' := Inside, s.(reader := r.(pc := Exited(true), synced := |r.stored|));
      case Sleeping =>
        a, s' := TakeData, s.(reader := r.(pc := Popping, consumedAny := false), data := 0);
    }
    assert ReaderDoes(L, s, a, s');
  }

  lemma FrameInHandIsValid<F>(L: Limits<F>, s: Sys<F>)
    requires SysInv(L, s) && s.reader.pc.Processing? && s.reader.ipc != []
    ensures L.valid(s.reader.ipc[0]) && s.reader.synced <= |s.reader.stored|
  {
    var kept := s.reader.stored + s.reader.batch;
    assert (kept + s.reader.ipc)[|kept|] == s.ring.log[..s.ring.tail][|kept|];
    assert s.ring.log[|kept|] in s.ring.log;
  }

  /** No reachable state is stuck: unless the program has ended, or the server is taking input with an
      empty ring and everything stored, some process has a step that does not fail. */
  lemma NeverStuck<F(!new)>(L: Limits<F>, run: seq<Sys<F>>, i: nat)
    requires Good(L) && IsSystemRun(L, run) && i < |run|
    requires run[i].server.pc != Stopped(false) && run[i].reader.pc != Exited(false) && ReaderGone !in run[i].signals
    ensures var s := run[i];
            || s.main.MainExit?
            || (&& ReaderAsleep(s) && ServerAsleep(s) && s.server.mode.Running? && !s.server.paused
                && s.ring.head == s.ring.tail && s.reader.stored == s.ring.log)
            || exists s' :: WorkStep(L, s, s')
  {
    hide IsSystemRun, Good, SysInv, WorkStep;
    RunKeeps(L, run, i);
    var s := run[i];
    if s.reader.pc.Exited? || ReaderAsleep(s) {
      if s.main.Serving? && !s.server.pc.Stopped? {
        if s.server.pc.Waiting? && s.space == 0 && s.signals == [] {
          ReaderOutlivesServer(L, s);
          BothAsleepMeansIdle(L, run, i);
        } else {
          var s' := ServerCanMove(L, s);
        }
      } else if !s.main.MainExit? {
        if s.main.Joining? {
          ReaderHearsTheClose(L, run, i);
        }
        MainCanMove(L, s);
      }
    } else {
      var s' := ReaderCanMove(L, s);
    }
  }

  lemma ReaderOutlivesServer<F>(L: Limits<F>, s: Sys<F>)
    requires SysInv(L, s) && s.main.Serving?
    ensures s.reader.pc != Exited(true)
  {}

  lemma MainCanMove<F(!new)>(L: Limits<F>, s: Sys<F>)
    requires SysInv(L, s) && s.reader.pc != Exited(false) && s.server.pc != Stopped(false) && !s.main.MainExit?
    requires s.main.Serving? ==> s.server.pc.Stopped?
    requires s.main.Joining? ==> s.reader.pc.Exited?
    ensures exists s' :: WorkStep(L, s, s')
  {
    hide Spsc.Inv, FramesKept, DataWakeup, SpaceWakeup, ReaderShape, Room, EventsReady;
    var s' := match s.main
      case Serving => s.(ring := s.ring.(closed := true), main := NotifyReader(s.server.pc.ok))
      case NotifyReader(ok) => s.(data := s.data + 1, main := Joining(ok))
      case Joining(ok) => s.(main := MainExit(ok && s.reader.pc.ok))
      case _ => s;
    assert MainDoes(s, s');
    assert WorkStep(L, s, s');
  }
}
