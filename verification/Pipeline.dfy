/** The whole data path as a transition system: the Server process, the Reader process, the main
    function that ends them, and an environment that delivers signals.

    Server and Reader are automata over their own state (`ServerMove`, `ReaderMove`); their actions
    on the ring, the two eventfd counters and the signalfd take effect in `ServerEffect` and
    `ReaderEffect`.  While a process is inside a ring method, it takes the atomic steps of `Spsc`. */
module Pipeline {
  import opened Spsc

  /** The sizes the program is built with, in frames, and the codec's acceptance test. */
  datatype Limits<!F> = Limits(cap: nat, pause: nat, resume: nat, recv: nat, ipc: nat, stage: nat, valid: F -> bool)

  ghost predicate Good<F>(L: Limits<F>) {
    L.resume < L.pause && L.pause + L.recv <= L.cap && 0 < L.ipc && 0 < L.stage
  }

  // ------------------------------------------------------------------- Server

  datatype Mode = Running | Draining
  datatype Signal = Shutdown | ReaderGone | OtherSignal
  datatype Event = SignalReady | SpaceReady | ListenReady | ClientReady

  datatype ServerPc<F> =
    | Top                                                          // head of the event loop
    | EmptyCheck                                                   // ring.empty(), when draining
    | Waiting                                                      // in epoll_wait
    | Dispatch(rest: seq<Event>)                                   // events still to handle
    | ResumeCheck(rest: seq<Event>)                                // pendingBytes() after a space event
    | Receiving(rest: seq<Event>)                                  // before recv
    | Pushing(rest: seq<Event>, frames: seq<F>, bad: bool)         // tryPushBatch; a malformed frame follows?
    | PauseCheck(rest: seq<Event>, bad: bool)                      // pendingBytes() after a push
    | Announcing(rest: seq<Event>, bad: bool, pauseWanted: bool, fatal: bool)   // before notifyEvent
    | Pausing(rest: seq<Event>)                                    // taking the clients out of epoll
    | Resuming(rest: seq<Event>)                                   // putting them back
    | Stopped(ok: bool)

  datatype Server<F> = Server(pc: ServerPc<F>, mode: Mode, paused: bool)

  datatype ServerAct<F> =
    | Quiet
    | Wake(events: seq<Event>)
    | ReadSignals(signals: seq<Signal>)
    | TakeSpace
    | CallSize
    | ReturnSize(size: nat)
    | CallPush(frames: seq<F>)
    | ReturnPush(pushed: nat)
    | AnnounceData

  /** What one batch of delivered signals makes of the server: reader termination outranks a shutdown
      request, whatever their order. */
  function AfterSignals<F>(v: Server<F>, rest: seq<Event>, signals: seq<Signal>): Server<F> {
    if ReaderGone in signals then v.(pc := Stopped(false))
    else if Shutdown in signals && v.mode.Running? then v.(pc := Dispatch(rest), mode := Draining)
    else v.(pc := Dispatch(rest))
  }

  /** The server gives up: a failed system call, or an error event. */
  ghost predicate ServerFails<F>(v: Server<F>, v': Server<F>) {
    v' == v.(pc := Stopped(false))
  }

  /** Moves that touch nothing shared. */
  ghost predicate ServerQuiet<F>(L: Limits<F>, v: Server<F>, v': Server<F>) {
    match v.pc
    case Top => v' == v.(pc := if v.mode.Draining? then EmptyCheck else Waiting)
    case Waiting => ServerFails(v, v')
    case Dispatch(rest) =>
      || ServerFails(v, v')
      || (rest == [] && v' == v.(pc := Top))
      || (rest != [] && (rest[0].ListenReady? || rest[0].ClientReady?) && v' == v.(pc := Dispatch(rest[1..])))
      || (rest != [] && rest[0].ClientReady? && v.mode.Running? && !v.paused && v' == v.(pc := Receiving(rest[1..])))
    case Receiving(rest) =>
      || v' == v                                        // incomplete frame: recv again
      || v' == v.(pc := Dispatch(rest))                 // no more data, or the client is gone
      || (&& v'.pc.Pushing? && v' == v.(pc := Pushing(rest, v'.pc.frames, v'.pc.bad))
          && 0 < |v'.pc.frames| <= L.recv && forall f <- v'.pc.frames :: L.valid(f))
    case Announcing(_, _, _, _) => ServerFails(v, v')
    case Pausing(rest) => v' == v.(pc := Dispatch(rest), paused := true) || ServerFails(v, v')
    case Resuming(rest) => v' == v.(pc := Dispatch(rest), paused := false) || ServerFails(v, v')
    case _ => false
  }

  ghost predicate ServerMove<F>(L: Limits<F>, v: Server<F>, a: ServerAct<F>, v': Server<F>) {
    match a
    case Quiet => ServerQuiet(L, v, v')
    case Wake(events) => v.pc.Waiting? && events != [] && v' == v.(pc := Dispatch(events))
    case ReadSignals(signals) =>
      v.pc.Dispatch? && v.pc.rest != [] && v.pc.rest[0].SignalReady? && v' == AfterSignals(v, v.pc.rest[1..], signals)
    case TakeSpace =>
      && v.pc.Dispatch? && v.pc.rest != [] && v.pc.rest[0].SpaceReady?
      && v' == v.(pc := if v.mode.Running? && v.paused then ResumeCheck(v.pc.rest[1..]) else Dispatch(v.pc.rest[1..]))
    case CallSize => (v.pc.EmptyCheck? || v.pc.ResumeCheck? || v.pc.PauseCheck?) && v' == v
    case ReturnSize(n) =>
      (match v.pc
       case EmptyCheck => v' == v.(pc := if n == 0 then Stopped(true) else Waiting)
       case ResumeCheck(rest) => v' == v.(pc := if n <= L.resume then Resuming(rest) else Dispatch(rest))
       case PauseCheck(rest, bad) => v' == v.(pc := Announcing(rest, bad, n >= L.pause, false))
       case _ => false)
    case CallPush(frames) => v.pc.Pushing? && frames == v.pc.frames && v' == v
    case ReturnPush(n) =>
      && v.pc.Pushing?
      && v' == v.(pc := if n == |v.pc.frames| then PauseCheck(v.pc.rest, v.pc.bad)
                        else if n != 0 then Announcing(v.pc.rest, v.pc.bad, false, true)
                        else Stopped(false))
    case AnnounceData =>
      && v.pc.Announcing?
      && (var Announcing(rest, bad, pauseWanted, fatal) := v.pc;
          if fatal then ServerFails(v, v')
          else if pauseWanted then v' == v.(pc := Pausing(rest))
          else v' == v.(pc := if bad then Dispatch(rest) else Receiving(rest)))
  }

  function ServerStart<F>(): Server<F> { Server(Top, Running, false) }

  ghost function ServerMoves<F(!new)>(L: Limits<F>): (Server<F>, ServerAct<F>, Server<F>) -> bool {
    (u, a, v) => ServerMove(L, u, a, v)
  }

  // ------------------------------------------------------------------- Reader

  datatype ReaderPc =
    | Popping            // tryPopBatch
    | Processing         // frames of the last pop still to stage
    | Flushing           // flushBatch before waiting
    | SpaceNotice        // notify the server if anything was consumed
    | ClosedCheck        // producerClosed()
    | LastCheck          // empty(), after the producer closed
    | FinalSync
    | Sleeping           // in consumeEvent
    | Exited(ok: bool)

  /** `stored` is what this run appended to storage, of which the first `synced` frames are durable. */
  datatype Reader<F> = Reader(pc: ReaderPc, consumedAny: bool, ipc: seq<F>, batch: seq<F>, stored: seq<F>, synced: nat)

  datatype ReaderAct<F> =
    | Inside
    | CallPop
    | ReturnPop(frames: seq<F>)
    | AnnounceSpace
    | CallClosed
    | ReturnClosed(closed: bool)
    | CallLastSize
    | ReturnLastSize(size: nat)
    | TakeData

  /** The staged batch is appended; syncs on the way may make more of the store durable. */
  ghost predicate Appends<F>(r: Reader<F>, r': Reader<F>, pc: ReaderPc) {
    && r' == r.(pc := pc, batch := [], stored := r.stored + r.batch, synced := r'.synced)
    && r.synced <= r'.synced <= |r'.stored|
  }

  /** A storage error: some prefix of the batch may have got through. */
  ghost predicate AppendFails<F>(r: Reader<F>, r': Reader<F>) {
    && r' == r.(pc := Exited(false), stored := r'.stored, synced := r'.synced)
    && r.stored <= r'.stored <= r.stored + r.batch
    && r.synced <= r'.synced <= |r'.stored|
  }

  /** One frame of the last pop is staged; a full batch is appended; a malformed frame ends the run. */
  ghost predicate StageFrame<F>(L: Limits<F>, r: Reader<F>, r': Reader<F>)
    requires r.ipc != []
  {
    if !L.valid(r.ipc[0]) then Appends(r, r', Exited(false)) || AppendFails(r, r')
    else
      var staged := r.(ipc := r.ipc[1..], batch := r.batch + [r.ipc[0]]);
      if |staged.batch| < L.stage then r' == staged
      else Appends(staged, r', Processing) || AppendFails(staged, r')
  }

  ghost predicate ReaderInside<F>(L: Limits<F>, r: Reader<F>, r': Reader<F>) {
    match r.pc
    case Processing => if r.ipc == [] then r' == r.(pc := Popping) else StageFrame(L, r, r')
    case Flushing =>
      if r.batch == [] then r' == r.(pc := SpaceNotice)
      else Appends(r, r', SpaceNotice) || AppendFails(r, r')
    case SpaceNotice => if r.consumedAny then r' == r.(pc := Exited(false)) else r' == r.(pc := ClosedCheck)
    case FinalSync => r' == r.(pc := Exited(true), synced := |r.stored|) || r' == r.(pc := Exited(false))
    case Sleeping => r' == r.(pc := Exited(false))
    case _ => false
  }

  ghost predicate ReaderMove<F>(L: Limits<F>, r: Reader<F>, a: ReaderAct<F>, r': Reader<F>) {
    match a
    case Inside => ReaderInside(L, r, r')
    case CallPop => r.pc.Popping? && r' == r
    case ReturnPop(fs) =>
      r.pc.Popping? && r' == if fs == [] then r.(pc := Flushing)
          else r.(pc := Processing, ipc := fs, consumedAny := true)
    case AnnounceSpace => r.pc.SpaceNotice? && r.consumedAny && r' == r.(pc := ClosedCheck)
    case CallClosed => r.pc.ClosedCheck? && r' == r
    case ReturnClosed(closed) => r.pc.ClosedCheck? && r' == r.(pc := if closed then LastCheck else Sleeping)
    case CallLastSize => r.pc.LastCheck? && r' == r
    case ReturnLastSize(n) => r.pc.LastCheck? && r' == r.(pc := if n == 0 then FinalSync else Sleeping)
    case TakeData => r.pc.Sleeping? && r' == r.(pc := Popping, consumedAny := false)
  }

  function ReaderStart<F>(): Reader<F> { Reader(Popping, false, [], [], [], 0) }

  ghost function ReaderMoves<F(!new)>(L: Limits<F>): (Reader<F>, ReaderAct<F>, Reader<F>) -> bool {
    (u, a, v) => ReaderMove(L, u, a, v)
  }

  // ------------------------------------------------------------------- the system

  datatype MainPc =
    | Serving                        // inside Server::run
    | NotifyReader(serverOk: bool)   // the producer is closed
    | Joining(serverOk: bool)        // waitpid
    | MainExit(ok: bool)

  datatype Sys<F> = Sys(
    ring: State<F>,
    data: nat,                       // dataReady eventfd counter
    space: nat,                      // spaceReady eventfd counter
    server: Server<F>,
    reader: Reader<F>,
    main: MainPc,
    signals: seq<Signal>,            // pending in the signalfd
    processed: seq<Signal>)          // read by the server so far

  ghost predicate SystemInit<F>(L: Limits<F>, s: Sys<F>) {
    && Spsc.Init(L.cap, s.ring) && s.data == 0 && s.space == 0
    && s.server == ServerStart() && s.reader == ReaderStart()
    && s.main.Serving? && s.signals == [] && s.processed == []
  }

  /** Level-triggered readiness of what the processes share.  The sockets may report anything. */
  ghost predicate Reported<F>(s: Sys<F>, e: Event) {
    match e
    case SignalReady => s.signals != []
    case SpaceReady => s.space > 0
    case _ => true
  }

  /** At most one event per descriptor in one wait. */
  ghost predicate Once(events: seq<Event>, e: Event) {
    forall i, j :: 0 <= i < j < |events| && events[i] == e ==> events[j] != e
  }

  /** What an action of the server needs and does outside the server. */
  ghost predicate ServerEffect<F>(s: Sys<F>, a: ServerAct<F>, s': Sys<F>) {
    && s.main.Serving? && !ProducerBusy(s.ring)
    && (match a
        case Quiet => s.ring.p.PIdle? && s' == s
        case Wake(events) =>
          && s.ring.p.PIdle? && s' == s
          && (forall e <- events :: Reported(s, e)) && Once(events, SignalReady) && Once(events, SpaceReady)
        case ReadSignals(signals) =>
          && s.ring.p.PIdle? && signals == s.signals && s' == s.(signals := [], processed := s.processed + signals)
        case TakeSpace => s.ring.p.PIdle? && s.space > 0 && s' == s.(space := 0)
        case CallSize => s.ring.p.PIdle? && s' == s.(ring := s.ring.(p := PSizeTail))
        case ReturnSize(n) => s.ring.p == PSizeReturn(n) && s' == s.(ring := s.ring.(p := PIdle))
        case CallPush(fs) => s.ring.p.PIdle? && s' == s.(ring := s.ring.(p := PushClosed(fs)))
        case ReturnPush(n) => s.ring.p == PushReturn(n) && s' == s.(ring := s.ring.(p := PIdle))
        case AnnounceData => s.ring.p.PIdle? && s' == s.(data := s.data + 1))
  }

  ghost predicate ServerDoes<F>(L: Limits<F>, s: Sys<F>, a: ServerAct<F>, s': Sys<F>) {
    ServerMove(L, s.server, a, s'.server) && ServerEffect(s.(server := s'.server), a, s')
  }

  ghost predicate ServerInRing<F>(L: Limits<F>, s: Sys<F>, s': Sys<F>) {
    s.main.Serving? && Defined(L.cap, s.ring) && ProducerBusy(s.ring) && s' == s.(ring := ProducerNext(L.cap, s.ring))
  }

  /** What an action of the reader needs and does outside the reader. */
  ghost predicate ReaderEffect<F>(L: Limits<F>, s: Sys<F>, a: ReaderAct<F>, s': Sys<F>) {
    && !ConsumerBusy(s.ring)
    && (match a
        case Inside => s.ring.c.CIdle? && s' == s
        case CallPop => s.ring.c.CIdle? && s' == s.(ring := s.ring.(c := PopTail(L.ipc)))
        case ReturnPop(fs) => s.ring.c == PopReturn(fs) && s' == s.(ring := s.ring.(c := CIdle))
        case AnnounceSpace => s.ring.c.CIdle? && s' == s.(space := s.space + 1)
        case CallClosed => s.ring.c.CIdle? && s' == s.(ring := s.ring.(c := ClosedLoad))
        case ReturnClosed(b) => s.ring.c == ClosedReturn(b) && s' == s.(ring := s.ring.(c := CIdle))
        case CallLastSize => s.ring.c.CIdle? && s' == s.(ring := s.ring.(c := CSizeTail))
        case ReturnLastSize(n) => s.ring.c == CSizeReturn(n) && s' == s.(ring := s.ring.(c := CIdle))
        case TakeData => s.ring.c.CIdle? && s.data > 0 && s' == s.(data := 0))
  }

  ghost predicate ReaderDoes<F>(L: Limits<F>, s: Sys<F>, a: ReaderAct<F>, s': Sys<F>) {
    ReaderMove(L, s.reader, a, s'.reader) && ReaderEffect(L, s.(reader := s'.reader), a, s')
  }

  ghost predicate ReaderInRing<F>(L: Limits<F>, s: Sys<F>, s': Sys<F>) {
    && !s.reader.pc.Exited? && Defined(L.cap, s.ring) && ConsumerBusy(s.ring)
    && s' == s.(ring := ConsumerNext(L.cap, s.ring))
  }

  /** After `Server::run` returns: close the producer, notify the reader (or kill it if that fails),
      wait for it, and combine the two results. */
  ghost predicate MainDoes<F>(s: Sys<F>, s': Sys<F>) {
    match s.main
    case Serving =>
      && s.server.pc.Stopped? && s.ring.p.PIdle?
      && s' == s.(ring := s.ring.(closed := true), main := NotifyReader(s.server.pc.ok))
    case NotifyReader(ok) =>
      || s' == s.(data := s.data + 1, main := Joining(ok))
      || s' == s.(main := Joining(false), reader := if s.reader.pc.Exited? then s.reader
          else s.reader.(pc := Exited(false)))
    case Joining(ok) => s.reader.pc.Exited? && s' == s.(main := MainExit(ok && s.reader.pc.ok))
    case MainExit(_) => false
  }

  ghost predicate SignalArrives<F>(s: Sys<F>, s': Sys<F>) {
    |s'.signals| > 0 && s' == s.(signals := s.signals + [s'.signals[|s'.signals| - 1]])
  }

  ghost predicate Step<F(!new)>(L: Limits<F>, s: Sys<F>, s': Sys<F>) {
    || ServerInRing(L, s, s') || (exists a :: ServerDoes(L, s, a, s'))
    || ReaderInRing(L, s, s') || (exists a :: ReaderDoes(L, s, a, s'))
    || MainDoes(s, s') || SignalArrives(s, s')
  }

  ghost predicate IsSystemRun<F(!new)>(L: Limits<F>, run: seq<Sys<F>>) {
    && |run| > 0 && SystemInit(L, run[0])
    && forall i :: 0 < i < |run| ==> SystemStepAt(L, run, i)
  }

  ghost predicate SystemStepAt<F(!new)>(L: Limits<F>, run: seq<Sys<F>>, i: nat)
    requires 0 < i < |run|
  {
    Step(L, run[i - 1], run[i])
  }
}
