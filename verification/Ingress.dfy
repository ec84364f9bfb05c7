/** `Server`: accepting, reading and reassembling, publishing, back-pressure and draining.

    The ghost automaton `auto` is `Pipeline.Server`.  Every effect that another process can see is
    accompanied by a `Move` of the automaton; `acts` is its path.  `Program.ObjectsJoin` makes of this
    path and that of the reader, taken in any order that what they share allows, a run of the whole
    system. */
module Ingress {
  import opened Codec
  import opened Reassembly
  import opened Interleaving
  import opened RingCounters
  import opened Spsc
  import opened RingBatches
  import opened SharedRing
  import opened ClientBuffer
  import opened Kernel
  import opened BuiltSizes
  import opened Paths
  import P = Pipeline

  type Auto = P.Server<Frame>
  type Act = P.ServerAct<Frame>

  ghost function Start(): Auto { P.ServerStart() }

  ghost function Moves(): (Auto, Act, Auto) -> bool { P.ServerMoves(Sizes()) }

  ghost predicate Reaches(acts: seq<Act>, v: Auto) { IsPath(Moves(), Start(), acts, v) }

  /** The frames of the last push called. */
  ghost function LastCall(acts: seq<Act>): seq<Frame> {
    if acts == [] then []
    else if acts[|acts| - 1].CallPush? then acts[|acts| - 1].frames
    else LastCall(Earlier(acts))
  }

  /** What a move shows on the server's tape. */
  ghost function Shown(called: seq<Frame>, a: Act): seq<RingEvent<Frame>> {
    match a
    case ReturnPush(n) => [Push(called, n)]
    case ReturnSize(n) => [Size(n)]
    case AnnounceData => [Notice]
    case TakeSpace => [Woken]
    case _ => []
  }

  /** The tape that the path `acts` leaves: every ring call with its result, and every notice given or
      consumed, in order. */
  ghost function Visible(acts: seq<Act>): seq<RingEvent<Frame>> {
    if acts == [] then []
    else Visible(Earlier(acts)) + Shown(LastCall(Earlier(acts)), acts[|acts| - 1])
  }

  /** All signals that the moves on the path took, in order. */
  ghost function SignalsRead(acts: seq<Act>): seq<P.Signal> {
    if acts == [] then []
    else SignalsRead(Earlier(acts)) + if acts[|acts| - 1].ReadSignals? then acts[|acts| - 1].signals else []
  }

  /** All events that waking up took, in order. */
  ghost function EventsTaken(acts: seq<Act>): seq<P.Event> {
    if acts == [] then []
    else EventsTaken(Earlier(acts)) + if acts[|acts| - 1].Wake? then acts[|acts| - 1].events else []
  }

  lemma Extended(acts: seq<Act>, u: Auto, a: Act, v: Auto)
    requires Reaches(acts, u) && P.ServerMove(Sizes(), u, a, v)
    ensures Reaches(acts + [a], v)
    ensures Visible(acts + [a]) == Visible(acts) + Shown(LastCall(acts), a)
    ensures Shown(LastCall(acts), a) == [] ==> Visible(acts + [a]) == Visible(acts)
    ensures LastCall(acts + [a]) == if a.CallPush? then a.frames else LastCall(acts)
    ensures SignalsRead(acts + [a]) == SignalsRead(acts) + if a.ReadSignals? then a.signals else []
    ensures !a.ReadSignals? ==> SignalsRead(acts + [a]) == SignalsRead(acts)
    ensures EventsTaken(acts + [a]) == EventsTaken(acts) + if a.Wake? then a.events else []
    ensures !a.Wake? ==> EventsTaken(acts + [a]) == EventsTaken(acts)
  {
    PathNext(Moves(), Start(), acts, u, a, v);
    hide P.ServerMove, Sizes;
    assert Earlier(acts + [a]) == acts;
    assert Visible(acts) + [] == Visible(acts) && SignalsRead(acts) + [] == SignalsRead(acts)
      && EventsTaken(acts) + [] == EventsTaken(acts);
  }

  lemma SignalsDecideStep(u: Auto, a: Act, v: Auto)
    requires P.ServerMove(Sizes(), u, a, v) && (u.pc.EmptyCheck? || u.pc == P.Stopped(true) ==> u.mode.Draining?)
    ensures v.mode.Draining? ==> u.mode.Draining? || (a.ReadSignals? && P.Shutdown in a.signals)
    ensures v.pc != P.Stopped(false) ==> u.pc != P.Stopped(false) && !(a.ReadSignals? && P.ReaderGone in a.signals)
    ensures v.pc.EmptyCheck? || v.pc == P.Stopped(true) ==> v.mode.Draining?
  {
    hide Sizes;
  }

  /** On every path of the automaton, whatever came first: draining was requested by a signal, and the
      end of the reader, once read, is fatal. */
  lemma {:induction false} SignalsDecide(acts: seq<Act>, v: Auto)
    requires Reaches(acts, v)
    ensures v.mode.Draining? ==> P.Shutdown in SignalsRead(acts)
    ensures v.pc != P.Stopped(false) ==> P.ReaderGone !in SignalsRead(acts)
    ensures v.pc.EmptyCheck? || v.pc == P.Stopped(true) ==> v.mode.Draining?
    decreases |acts|
  {
    if acts != [] {
      hide P.ServerMove, Sizes;
      var u := LastMove(Moves(), Start(), acts, v);
      SignalsDecide(Earlier(acts), u);
      SignalsDecideStep(u, acts[|acts| - 1], v);
      hide Reaches;
    }
  }

  /** A client between two receives: less than a frame is waiting, exactly what the bytes received so
      far leave over, and storage is bounded. */
  ghost predicate ClientOk(b: Buffer, bytes: seq<Byte>)
    reads b
  {
    && b.offset <= |b.data| < 4096 + FRAME_SIZE - 1
    && !Malformed(bytes) && b.Unread() == Rest(bytes)
  }

  /** What one `recv` adds to the ring's history. */
  lemma PushedAll(s: State<Frame>, now: State<Frame>, seen: nat, frames: seq<Frame>, pushed: nat)
    requires RingInv(Sizes().cap, s) && !s.closed && s.head - s.tail < Sizes().pause && |frames| <= Sizes().recv
    requires Pushed(Sizes().cap, s, now, seen, frames, pushed)
    ensures pushed == |frames| && now.log == s.log + frames && now.head == s.head + |frames|
    ensures !now.closed && s.tail <= now.tail && !ProducerBusy(now)
  {
    SizesAreGood();
    assert frames[..|frames|] == frames;
  }

  lemma ScanStep(unread: seq<Byte>, n: nat)
    requires (n + 1) * FRAME_SIZE <= |unread|
    ensures var frame := unread[n * FRAME_SIZE..(n + 1) * FRAME_SIZE];
            var rest, tail := unread[n * FRAME_SIZE..], unread[(n + 1) * FRAME_SIZE..];
            && rest[..FRAME_SIZE] == frame
            && (WellFormed(frame) ==> Frames(rest) == [frame] + Frames(tail) && Rest(rest) == Rest(tail))
  {
    hide WellFormed;
    var rest := unread[n * FRAME_SIZE..];
    assert rest[FRAME_SIZE..] == unread[(n + 1) * FRAME_SIZE..];
    if WellFormed(rest[..FRAME_SIZE]) {
      FramesStep(rest);
    }
  }

  lemma ScanEnd(rest: seq<Byte>)
    requires |rest| < FRAME_SIZE || !WellFormed(rest[..FRAME_SIZE])
    ensures Frames(rest) == [] && Rest(rest) == rest
  {}

  /** Looks for complete valid frames at the beginning of `unread`, up to the first malformed one. */
  method ScanFrames(unread: seq<Byte>) returns (frames: seq<Frame>, bad: bool)
    ensures frames == Frames(unread) && unread[|frames| * FRAME_SIZE..] == Rest(unread) && bad == Malformed(unread)
    ensures forall f <- frames :: WellFormed(f)
  {
    hide Decode, Frames, Rest;
    var available := |unread| / FRAME_SIZE;
    frames, bad := [], false;
    assert unread[0..] == unread && [] + Frames(unread) == Frames(unread);
    while |frames| < available && !bad
      invariant |frames| <= available
      invariant var rest := unread[|frames| * FRAME_SIZE..];
                && Frames(unread) == frames + Frames(rest) && Rest(unread) == Rest(rest)
                && (bad ==> |rest| >= FRAME_SIZE && !WellFormed(rest[..FRAME_SIZE]))
      decreases available - |frames|, !bad
    {
      var index := |frames|;
      ScanStep(unread, index);
      var frame := unread[index * FRAME_SIZE..(index + 1) * FRAME_SIZE];
      var decoded := DecodeFrame(frame);
      if decoded.Rejected? {
        bad := true;
      } else {
        ghost var tail := Frames(unread[(index + 1) * FRAME_SIZE..]);
        assert frames + ([frame] + tail) == frames + [frame] + tail;
        frames := frames + [frame];
      }
    }
    ScanEnd(unread[|frames| * FRAME_SIZE..]);
    FramesIsMaximalPrefix(unread, frames);
  }

  datatype ReadResult = Continue | Gone | Fatal

  ghost predicate Injective<T>(m: map<nat, T>) {
    forall f, g {:trigger m[f], m[g]} :: f in m && g in m && m[f] == m[g] ==> f == g
  }

  lemma InjectiveAdd<T>(m: map<nat, T>, k: nat, v: T)
    requires Injective(m) && k !in m && v !in m.Values
    ensures Injective(m[k := v])
  {
    assert forall f :: f in m ==> m[f] in m.Values;
  }

  lemma InjectiveRemove<T>(m: map<nat, T>, k: nat)
    requires Injective(m)
    ensures Injective(m - {k})
    ensures k in m ==> forall f :: f in m && f != k ==> m[f] != m[k]
  {}

  /** Open clients have buffers and connections of their own. */
  ghost predicate ClientsOk(clients: map<nat, Buffer>, ids: map<nat, nat>, received: seq<seq<Byte>>)
    reads clients.Values
  {
    && clients.Keys == ids.Keys
    && Injective(clients) && Injective(ids)
    && (forall f :: f in clients ==> ids[f] < |received| && ClientOk(clients[f], received[ids[f]]))
  }

  /** The same, but for the client that is being read. */
  ghost predicate OthersOk(clients: map<nat, Buffer>, ids: map<nat, nat>, received: seq<seq<Byte>>, fd: nat)
    reads clients.Values
  {
    && clients.Keys == ids.Keys
    && Injective(clients) && Injective(ids)
    && (forall f :: f in clients && f != fd ==> ids[f] < |received| && ClientOk(clients[f], received[ids[f]]))
  }

  /** Epoll agrees with the state: all clients while ingress is open, none while it is paused; after
      draining began there is neither a client nor a listener. */
  ghost predicate EpollOk(state: P.Mode, paused: bool, listening: bool, clients: set<nat>,
                          watched: set<nat>, listenWatched: bool, listenInput: bool) {
    match state
    case Running => listening && listenWatched && listenInput == !paused && watched == if paused then {} else clients
    case Draining => !listening && !listenWatched && clients == {} == watched
  }

  /** Each client is known by the connection it was accepted as. */
  ghost predicate Linked(ids: map<nat, nat>, connection: map<nat, nat>) {
    forall f :: f in ids ==> f in connection && connection[f] == ids[f]
  }

  /** No client's connection has ended. */
  ghost predicate Lasting(ids: map<nat, nat>, finished: set<nat>) {
    forall f :: f in ids ==> ids[f] !in finished
  }

  /** The open sockets are those of the clients. */
  ghost predicate SocketsOk(clients: set<nat>, sockets: set<nat>, reserved: set<nat>) {
    clients == sockets && clients !! reserved
  }

  class Server {
    const ring: SharedRingBuffer<Frame>
    const system: System
    const dataReady: EventFd
    const spaceReady: EventFd
    const listener: nat
    const spaceReadyFd: nat
    const signalFd: nat
    const readerPid: nat
    var listening: bool                    // listenFd != -1
    var clients: map<nat, Buffer>          // m_clients
    var ingressPaused: bool
    var state: P.Mode
    ghost var auto: Auto
    ghost var acts: seq<Act>
    ghost var heard: seq<P.Signal>         // the signals acted on
    ghost var taken: seq<P.Event>          // the events taken up
    ghost var ids: map<nat, nat>           // the connection of each open client
    ghost var received: seq<seq<Byte>>     // all bytes received and handled, by connection
    ghost var sources: seq<nat>            // the connection of each frame in the ring's history

    constructor (ring: SharedRingBuffer<Frame>, system: System, dataReady: EventFd, spaceReady: EventFd,
                 listener: nat, spaceReadyFd: nat, signalFd: nat, readerPid: nat)
      ensures this.ring == ring && this.system == system && this.listener == listener
      ensures this.dataReady == dataReady && this.spaceReady == spaceReady
      ensures this.spaceReadyFd == spaceReadyFd && this.signalFd == signalFd && this.readerPid == readerPid
      ensures clients == map[] && auto == Start() && acts == [] && received == [] && sources == [] && ids == map[]
      ensures heard == [] && taken == []
    {
      this.ring, this.system, this.listener := ring, system, listener;
      this.dataReady, this.spaceReady := dataReady, spaceReady;
      this.spaceReadyFd, this.signalFd, this.readerPid := spaceReadyFd, signalFd, readerPid;
      listening, clients, ingressPaused, state := false, map[], false, P.Running;
      auto, acts, heard, taken, ids, received, sources := Start(), [], [], [], map[], [], [];
    }

    ghost predicate RingOk()
      reads ring, ring.layout
    {
      && ring.Valid() && ring.layout != null && ring.capacityFrames == Sizes().cap
      && !ring.world.closed && !ProducerBusy(ring.world)
    }

    /** The automaton's path leads to where it stands, shows exactly what this process did on the ring
        and with the eventfds, in the order in which it did it, and took the signals and events. */
    ghost predicate Follows()
      reads `auto, `acts, `heard, `taken, ring`producerTape
    {
      && Reaches(acts, auto) && ring.producerTape == Visible(acts)
      && SignalsRead(acts) == heard && EventsTaken(acts) == taken
    }

    /** What still holds after a fatal error. */
    ghost predicate Base()
      reads `auto, `acts, `heard, `taken, `clients, `received, `sources, ring, ring.layout
      reads system`sockets
    {
      && RingOk() && Follows() && History(ring.world.log, sources, received)
      && SocketsOk(clients.Keys, system.sockets.Keys, system.reserved)
      && DescriptorsOk() && Wired()
    }

    /** The calls that have failed so far. */
    ghost function Faults(): nat
      reads dataReady`refused, spaceReady`refused, system`refusals, system`faults
    {
      dataReady.refused + spaceReady.refused + system.refusals + system.faults
    }

    ghost predicate Wired() {
      dataReady.ring == ring && dataReady.ofProducer && spaceReady.ring == ring && !spaceReady.ofProducer
    }

    ghost predicate DescriptorsOk()
    {
      && listener in system.reserved && spaceReadyFd in system.reserved && signalFd in system.reserved
      && listener != spaceReadyFd && spaceReadyFd != signalFd && listener != signalFd
    }

    /** All that `recv` returned has been handled, and handled as bytes of the right connection; and all
        signals that reads of the signalfd returned have been acted on, and all events that `epoll_wait`
        returned taken up, in order. */
    ghost predicate Handled()
      reads `received, `heard, `taken, system`arrived, system`delivered, system`reports
    {
      received == system.arrived && Answered()
    }

    ghost predicate Answered()
      reads `heard, `taken, system`delivered, system`reports
    {
      heard == Classified(system.delivered) && taken == Kinds(system.reports)
    }

    ghost predicate Consistent()
      reads this, ring, ring.layout, clients.Values
      reads system`sockets, system`watched, system`listenWatched, system`listenInput
      reads system`connection
    {
      && Base() && auto.mode == state && auto.paused == ingressPaused
      && ClientsOk(clients, ids, received)
      && EpollOk(state, ingressPaused, listening, clients.Keys, system.watched, system.listenWatched,
          system.listenInput)
      && Linked(ids, system.connection)
    }

    ghost predicate Steady()
      reads this, ring, ring.layout, clients.Values
      reads system`sockets, system`watched, system`listenWatched, system`listenInput
      reads system`arrived, system`connection, system`finished, system`delivered, system`reports
    {
      Consistent() && Handled() && Lasting(ids, system.finished)
    }

    /** Ingress that is not paused finds room for a whole receive. */
    ghost predicate Room()
      reads `state, `ingressPaused, ring`world
    {
      state.Running? && !ingressPaused ==> ring.world.head - ring.world.tail < Sizes().pause
    }

    ghost predicate Valid()
      reads this, ring, ring.layout, clients.Values
      reads system`sockets, system`watched, system`listenWatched, system`listenInput
      reads system`arrived, system`connection, system`finished, system`delivered, system`reports
    {
      Steady() && Room()
    }

    /** Clients and their connections, whatever is in the buffers. */
    ghost predicate ClientsDescribed()
      reads `clients, `ids
    {
      clients.Keys == ids.Keys
    }

    ghost predicate Dead()
      reads `auto, `acts, `heard, `taken, `clients, `received, `sources, ring, ring.layout
      reads system`sockets, system`arrived, system`delivered, system`reports
    {
      Base() && Handled() && auto.pc == P.Stopped(false)
    }

    /** One move of the automaton. */
    ghost method Move(a: Act, next: Auto)
      requires Reaches(acts, auto) && P.ServerMove(Sizes(), auto, a, next)
      modifies `auto, `acts
      ensures Reaches(acts, auto) && auto == next
      ensures Visible(acts) == Visible(old(acts)) + Shown(LastCall(old(acts)), a)
      ensures Shown(LastCall(old(acts)), a) == [] ==> Visible(acts) == Visible(old(acts))
      ensures LastCall(acts) == if a.CallPush? then a.frames else LastCall(old(acts))
      ensures SignalsRead(acts) == SignalsRead(old(acts)) + if a.ReadSignals? then a.signals else []
      ensures !a.ReadSignals? ==> SignalsRead(acts) == SignalsRead(old(acts))
      ensures EventsTaken(acts) == EventsTaken(old(acts)) + if a.Wake? then a.events else []
      ensures !a.Wake? ==> EventsTaken(acts) == EventsTaken(old(acts))
    {
      hide *;
      Extended(acts, auto, a, next);
      auto, acts := next, acts + [a];
    }

    /** Any call that fails. */
    ghost method Fail()
      requires Reaches(acts, auto)
               && (auto.pc.Waiting? || auto.pc.Dispatch? || auto.pc.Announcing? || auto.pc.Pausing?
                   || auto.pc.Resuming?)
      modifies `auto, `acts
      ensures Reaches(acts, auto) && auto == old(auto).(pc := P.Stopped(false))
      ensures Visible(acts) == Visible(old(acts)) && SignalsRead(acts) == SignalsRead(old(acts))
      ensures EventsTaken(acts) == EventsTaken(old(acts))
    {
      hide Reaches;
      Move(P.Quiet, auto.(pc := P.Stopped(false)));
    }

    /** Quiet moves between two events, and into and out of a receive. */
    ghost method Advance(rest: seq<P.Event>)
      requires Valid() && auto.pc.Dispatch? && auto.pc.rest != [] && auto.pc.rest[1..] == rest
      requires auto.pc.rest[0].ClientReady? || auto.pc.rest[0].ListenReady?
      modifies `auto, `acts
      ensures Valid() && auto == old(auto).(pc := P.Dispatch(rest))
    {
      hide Reaches, Visible, LastCall, SignalsRead, EventsTaken, RingOk, History, Sizes;
      hide ClientsOk, EpollOk, Linked, Lasting, Handled;
      Move(P.Quiet, auto.(pc := P.Dispatch(rest)));
    }

    ghost method BeginReceive(rest: seq<P.Event>)
      requires Valid() && auto.pc.Dispatch? && auto.pc.rest != [] && auto.pc.rest[1..] == rest
      requires auto.pc.rest[0].ClientReady? && auto.mode.Running? && !auto.paused
      modifies `auto, `acts
      ensures Valid() && auto == old(auto).(pc := P.Receiving(rest))
    {
      hide Reaches, Visible, LastCall, SignalsRead, EventsTaken, RingOk, History, Sizes;
      hide ClientsOk, EpollOk, Linked, Lasting, Handled;
      Move(P.Quiet, auto.(pc := P.Receiving(rest)));
    }

    ghost method EndReceive(rest: seq<P.Event>)
      requires Valid() && auto.pc == P.Receiving(rest)
      modifies `auto, `acts
      ensures Valid() && auto == old(auto).(pc := P.Dispatch(rest))
    {
      hide Reaches, Visible, LastCall, SignalsRead, EventsTaken, RingOk, History, Sizes;
      hide ClientsOk, EpollOk, Linked, Lasting, Handled;
      Move(P.Quiet, auto.(pc := P.Dispatch(rest)));
    }

    /** `tryPushBatch` with the valid prefix of a receive: with room, none of it is refused. */
    method PushAll(frames: seq<Frame>) returns (pushed: nat)
      requires RingOk() && 0 < |frames| <= Sizes().recv
      requires ring.world.head - ring.world.tail < Sizes().pause
      modifies ring`head, ring`tail, ring`world, ring`producerTape, ring`consumerTape, ring.layout
      ensures pushed == |frames| && ring.world.log == old(ring.world.log) + frames
      ensures RingOk() && ring.producerTape == old(ring.producerTape) + [Push(frames, pushed)]
    {
      hide Spsc.ProducerInv, Spsc.ConsumerInv, Readable, Pushed, Wrap, Sizes, Published;
      ghost var before := ring.world;
      ghost var seen;
      pushed, seen := ring.TryPushBatch(frames);
      PushedAll(before, ring.world, seen, frames, pushed);
    }

    /** The same with the moves of the automaton. */
    method PushFrames(frames: seq<Frame>, bad: bool, ghost rest: seq<P.Event>) returns (pushed: nat)
      requires RingOk() && Follows() && auto.pc == P.Receiving(rest) && auto.mode.Running? && !auto.paused
      requires 0 < |frames| <= Sizes().recv && forall f <- frames :: WellFormed(f)
      requires ring.world.head - ring.world.tail < Sizes().pause
      modifies `auto, `acts, ring`head, ring`tail, ring`world, ring`producerTape, ring`consumerTape, ring.layout
      ensures pushed == |frames| && ring.world.log == old(ring.world.log) + frames
      ensures RingOk() && Follows() && auto == old(auto).(pc := P.PauseCheck(rest, bad))
    {
      hide Reaches, Visible, LastCall, SignalsRead, EventsTaken, WellFormed, RingOk;
      Move(P.Quiet, auto.(pc := P.Pushing(rest, frames, bad)));
      Move(P.CallPush(frames), auto);
      pushed := PushAll(frames);
      Move(P.ReturnPush(pushed), auto.(pc := P.PauseCheck(rest, bad)));
    }

    /** The load of the ring's size after a push. */
    method PendingFrames() returns (size: nat)
      requires RingOk()
      modifies ring`tail, ring`world, ring`producerTape, ring`consumerTape
      ensures RingOk() && ring.world.log == old(ring.world.log)
      ensures ring.producerTape == old(ring.producerTape) + [Size(size)]
      ensures ring.world.head - ring.world.tail <= size && ring.world.tail >= old(ring.world.tail)
      ensures ring.world.head == old(ring.world.head)
    {
      hide Spsc.Inv, Wrap, Sizes, Published;
      ghost var seen;
      size, seen := ring.PendingForProducer();
    }

    method PauseWanted(ghost rest: seq<P.Event>, ghost bad: bool) returns (pauseWanted: bool, ghost size: nat)
      requires RingOk() && Follows() && auto.pc == P.PauseCheck(rest, bad)
      modifies `auto, `acts, ring`tail, ring`world, ring`producerTape, ring`consumerTape
      ensures RingOk() && Follows() && ring.world.log == old(ring.world.log)
      ensures auto == old(auto).(pc := P.Announcing(rest, bad, pauseWanted, false))
      ensures !pauseWanted ==> ring.world.head - ring.world.tail < Sizes().pause
      ensures ring.producerTape == old(ring.producerTape) + [Size(size)]
      ensures pauseWanted <==> size * 32 >= 3 * 1024 * 1024
    {
      hide Reaches, Visible, LastCall, SignalsRead, EventsTaken, RingOk;
      Move(P.CallSize, auto);
      var pending := PendingFrames();
      size := pending;
      var pendingBytes := pending * FRAME_SIZE;
      pauseWanted := pendingBytes >= PAUSE_INGRESS_BYTES;
      Move(P.ReturnSize(size), auto.(pc := P.Announcing(rest, bad, pauseWanted, false)));
    }

    /** `notifyEvent(dataReadyFd)` after a push. */
    method NotifyPublished(ghost rest: seq<P.Event>, ghost bad: bool, ghost pauseWanted: bool) returns (ok: bool)
      requires RingOk() && Wired() && Follows() && auto.pc == P.Announcing(rest, bad, pauseWanted, false)
      modifies `auto, `acts, ring`producerTape, ring`consumerTape
      modifies dataReady`refused
      ensures RingOk() && Follows()
      ensures auto == old(auto).(pc := if !ok then P.Stopped(false) else if pauseWanted then P.Pausing(rest)
                                       else if bad then P.Dispatch(rest) else P.Receiving(rest))
      ensures dataReady.refused == old(dataReady.refused) + if ok then 0 else 1
    {
      hide Reaches, Visible, LastCall, SignalsRead, EventsTaken, Spsc.Inv, Wrap, Published, Sizes;
      ok := dataReady.Notify();
      if ok {
        Move(P.AnnounceData, auto.(pc := if pauseWanted then P.Pausing(rest)
                                         else if bad then P.Dispatch(rest) else P.Receiving(rest)));
      } else {
        Fail();
      }
    }

    /** `removeClient`: the epoll entry may be missing, which is no error. */
    method RemoveClient(fd: nat)
      requires fd in clients && clients.Keys == ids.Keys
      modifies `clients, `ids, system`watched, system`sockets
      modifies system`refusals
      ensures clients == old(clients) - {fd} && ids == old(ids) - {fd}
      ensures system.watched == old(system.watched) - {fd} && system.sockets == old(system.sockets) - {fd}
      ensures old(Base()) ==> Base()
      ensures system.refusals >= old(system.refusals)
    {
      hide RingOk, Follows, History, Reaches;
      var ignored := system.Delete(fd);
      system.Close(fd);
      clients := clients - {fd};
      ids := ids - {fd};
    }

    /** The valid prefix goes to the ring and leaves the buffer. */
    method PublishFrames(buffer: Buffer, frames: seq<Frame>, bad: bool, ghost rest: seq<P.Event>)
      returns (published: bool, pauseWanted: bool)
      requires RingOk() && Follows() && auto.pc == P.Receiving(rest) && auto.mode.Running? && !auto.paused
      requires |frames| <= Sizes().recv && (forall f <- frames :: WellFormed(f))
      requires buffer.offset + |frames| * FRAME_SIZE <= |buffer.data|
      requires ring.world.head - ring.world.tail < Sizes().pause
      modifies `auto, `acts, buffer`offset, ring`head, ring`tail, ring`world, ring`producerTape, ring`consumerTape,
          ring.layout
      ensures RingOk() && Follows() && ring.world.log == old(ring.world.log) + frames
      ensures buffer.Unread() == old(buffer.Unread())[|frames| * FRAME_SIZE..] && buffer.offset <= |buffer.data|
      ensures published <==> frames != []
      ensures auto == if published then old(auto).(pc := P.Announcing(rest, bad, pauseWanted, false)) else old(auto)
      ensures !pauseWanted ==> ring.world.head - ring.world.tail < Sizes().pause
      ensures pauseWanted ==> published
    {
      hide Reaches, Visible, LastCall, SignalsRead, EventsTaken, RingOk, WellFormed;
      published, pauseWanted := false, false;
      if frames != [] {
        var pushed := PushFrames(frames, bad, rest);
        buffer.Consume(pushed * FRAME_SIZE);
        published := pushed != 0;
        if pushed != |frames| {
          assert false;
        }
        ghost var size;
        pauseWanted, size := PauseWanted(rest, bad);
      }
    }

    /** From the bytes of one `recv` of connection `id` to the ring: the valid prefix is published, the
        rest kept.  The buffer never comes near its limit. */
    method PublishPrefix(buffer: Buffer, chunk: seq<Byte>, ghost id: nat, ghost rest: seq<P.Event>)
      returns (published: bool, bad: bool, pauseWanted: bool)
      requires Base() && id < |received| && ClientOk(buffer, received[id]) && 0 < |chunk| <= READ_BUFFER_SIZE
      requires auto.pc == P.Receiving(rest) && auto.mode.Running? && !auto.paused
      requires ring.world.head - ring.world.tail < Sizes().pause
      modifies `auto, `acts, `received, `sources, buffer, ring`head, ring`tail, ring`world, ring`producerTape,
          ring`consumerTape, ring.layout
      ensures Base() && received == old(received)[id := old(received)[id] + chunk]
      ensures bad == Malformed(received[id]) && buffer.offset <= |buffer.data| && buffer.Unread() == Rest(received[id])
      ensures auto == if published then old(auto).(pc := P.Announcing(rest, bad, pauseWanted, false)) else old(auto)
      ensures pauseWanted ==> published
      ensures !pauseWanted ==> ring.world.head - ring.world.tail < Sizes().pause
      ensures |buffer.data| <= 4095 + 31 + READ_BUFFER_SIZE
    {
      hide Reaches, Visible, LastCall, SignalsRead, EventsTaken, RingOk, Frames, Rest, History;
      HistoryOfReceive(ring.world.log, sources, received, id, chunk);
      buffer.Append(chunk);
      if buffer.PendingBytes() > MAX_CLIENT_BUFFER {
        assert false;
      }
      var frames;
      frames, bad := ScanFrames(buffer.Unread());
      published, pauseWanted := PublishFrames(buffer, frames, bad, rest);
      received := received[id := received[id] + chunk];
      sources := sources + Same(id, |frames|);
    }

    /** The notice of a publication, if there was one. */
    method AnnounceReceive(published: bool, bad: bool, pauseWanted: bool, ghost rest: seq<P.Event>) returns (ok: bool)
      requires Base() && auto.mode.Running? && !auto.paused && (pauseWanted ==> published)
      requires auto.pc == if published then P.Announcing(rest, bad, pauseWanted, false) else P.Receiving(rest)
      modifies `auto, `acts, ring`producerTape, ring`consumerTape
      modifies dataReady`refused
      ensures Base()
      ensures auto == old(auto).(pc := if !ok then P.Stopped(false) else if pauseWanted then P.Pausing(rest)
                                       else if bad then P.Dispatch(rest) else P.Receiving(rest))
      ensures dataReady.refused == old(dataReady.refused) + if ok then 0 else 1
    {
      hide Reaches, Visible, LastCall, SignalsRead, EventsTaken, RingOk, History;
      ok := true;
      if published {
        ok := NotifyPublished(rest, bad, pauseWanted);
      } else {
        Move(P.Quiet, auto.(pc := if bad then P.Dispatch(rest) else P.Receiving(rest)));
      }
    }

    /** After the notice of a publication, or without one: the client goes if it broke the protocol. */
    method FinishReceive(fd: nat, published: bool, bad: bool, pauseWanted: bool, ghost id: nat,
        ghost rest: seq<P.Event>)
      returns (r: ReadResult)
      requires Base() && Handled() && fd in clients && clients.Keys == ids.Keys
               && clients[fd].offset <= |clients[fd].data|
      requires id < |received| && bad == Malformed(received[id]) && clients[fd].Unread() == Rest(received[id])
      requires auto.mode.Running? && !auto.paused && (pauseWanted ==> published)
      requires auto.pc == if published then P.Announcing(rest, bad, pauseWanted, false) else P.Receiving(rest)
      modifies `auto, `acts, `clients, `ids, clients[fd], system`watched, system`sockets, ring`producerTape,
          ring`consumerTape
      modifies system`refusals, dataReady`refused
      ensures Base() && (r.Fatal? ==> Dead())
      ensures r.Fatal? ==> clients == old(clients) && ids == old(ids)
      ensures !r.Fatal? ==>
        && (r.Gone? <==> bad)
        && auto == old(auto).(pc := if pauseWanted then P.Pausing(rest) else if bad then P.Dispatch(rest)
            else P.Receiving(rest))
        && clients == (if bad then old(clients) - {fd} else old(clients))
            && ids == (if bad then old(ids) - {fd} else old(ids))
        && system.watched == if bad then old(system.watched) - {fd} else old(system.watched)
      ensures r.Continue? ==> ClientOk(clients[fd], received[id]) && system.sockets == old(system.sockets)
      ensures dataReady.refused == old(dataReady.refused) + if r.Fatal? then 1 else 0
      ensures system.refusals >= old(system.refusals)
    {
      hide Base, Rest, ClientOk, Handled;
      var ok := AnnounceReceive(published, bad, pauseWanted, rest);
      if !ok {
        return Fatal;
      }
      if bad {
        RemoveClient(fd);
        return Gone;
      }
      clients[fd].Compact();
      KeptClient(clients[fd], received[id]);
      return Continue;
    }

    /** One `recv` that returned bytes. */
    method ReceiveChunk(fd: nat, chunk: seq<Byte>, ghost id: nat, ghost rest: seq<P.Event>)
      returns (r: ReadResult, pauseWanted: bool)
      requires Consistent() && Room() && Answered() && Lasting(ids, system.finished)
      requires fd in clients && ids[fd] == id && id < |received|
      requires fd in system.connection && system.connection[fd] == id
      requires 0 < |chunk| <= READ_BUFFER_SIZE && system.arrived == received[id := received[id] + chunk]
      requires auto.pc == P.Receiving(rest)
      requires state.Running? && !ingressPaused
      modifies `auto, `acts, `clients, `ids, `received, `sources, clients[fd]
      modifies system`watched, system`sockets, system`refusals, dataReady`refused
      modifies ring`head, ring`tail, ring`world, ring`producerTape, ring`consumerTape, ring.layout
      ensures id < |old(received)| && received == old(received)[id := old(received)[id] + chunk]
      ensures Received(fd, r, pauseWanted, rest)
      ensures clients == if r.Gone? then old(clients) - {fd} else old(clients)
      ensures r.Continue? ==> system.sockets == old(system.sockets)
      ensures r.Gone? ==> Malformed(received[id])
      ensures dataReady.refused == old(dataReady.refused) + if r.Fatal? then 1 else 0
      ensures system.refusals >= old(system.refusals)
    {
      Parts();
      hide *;
      OneClient(clients, ids, received, fd);
      var published, bad;
      published, bad, pauseWanted := PublishPrefix(clients[fd], chunk, id, rest);
      OthersStay(fd);
      Parts();
      r := SettleReceive(fd, published, bad, pauseWanted, id, rest);
    }

    /** The rest of a receive, after the push. */
    method SettleReceive(fd: nat, published: bool, bad: bool, pauseWanted: bool, ghost id: nat,
        ghost rest: seq<P.Event>)
      returns (r: ReadResult)
      requires Base() && Handled() && fd in clients && OthersOk(clients, ids, received, fd)
      requires clients[fd].offset <= |clients[fd].data|
      requires id < |received| && bad == Malformed(received[id]) && clients[fd].Unread() == Rest(received[id])
      requires ids[fd] == id && fd in system.connection && system.connection[fd] == id
      requires auto.mode == state && auto.paused == ingressPaused && state.Running? && !ingressPaused
      requires EpollOk(state, ingressPaused, listening, clients.Keys, system.watched, system.listenWatched,
                   system.listenInput)
      requires Linked(ids, system.connection) && Lasting(ids, system.finished)
      requires (pauseWanted ==> published) && (pauseWanted || ring.world.head - ring.world.tail < Sizes().pause)
      requires auto.pc == if published then P.Announcing(rest, bad, pauseWanted, false) else P.Receiving(rest)
      modifies `auto, `acts, `clients, `ids, clients[fd], system`watched, system`sockets, ring`producerTape,
          ring`consumerTape
      modifies system`refusals, dataReady`refused
      ensures Received(fd, r, pauseWanted, rest)
      ensures clients == if r.Gone? then old(clients) - {fd} else old(clients)
      ensures r.Continue? ==> system.sockets == old(system.sockets)
      ensures r.Gone? ==> Malformed(received[id])
      ensures dataReady.refused == old(dataReady.refused) + if r.Fatal? then 1 else 0
      ensures system.refusals >= old(system.refusals)
    {
      hide *;
      SameKeys(clients, ids, received, fd);
      WithoutClient(ids, system.connection, system.finished, clients.Keys, system.watched, listening,
                    system.listenWatched, system.listenInput, fd);
      r := FinishReceive(fd, published, bad, pauseWanted, id, rest);
      if !r.Fatal? {
        OthersKept(fd);
      }
      Chunked(fd, r, pauseWanted, id, rest);
    }

    lemma Chunked(fd: nat, r: ReadResult, pauseWanted: bool, id: nat, rest: seq<P.Event>)
      requires r.Fatal? ==> Dead() && clients.Keys == ids.Keys
      requires !r.Fatal? ==>
        && Base() && Handled() && auto.mode == state && auto.paused == ingressPaused
        && ClientsOk(clients, ids, received)
        && EpollOk(state, ingressPaused, listening, clients.Keys, system.watched, system.listenWatched,
               system.listenInput)
        && Linked(ids, system.connection) && Lasting(ids, system.finished) && !ingressPaused
        && auto.pc == (if pauseWanted then P.Pausing(rest) else if r.Gone? then P.Dispatch(rest) else P.Receiving(rest))
        && (pauseWanted || ring.world.head - ring.world.tail < Sizes().pause)
      requires r.Continue? ==> fd in clients
      requires r.Gone? ==>
        fd !in clients && fd in system.connection && system.connection[fd] == id < |received| && Malformed(received[id])
      ensures Received(fd, r, pauseWanted, rest)
    {
      hide RingOk, Follows, History, ClientsOk, EpollOk, Linked, Lasting, Malformed, Sizes;
    }

    lemma Parts()
      ensures Consistent() <==>
        && Base() && auto.mode == state && auto.paused == ingressPaused && ClientsOk(clients, ids, received)
        && EpollOk(state, ingressPaused, listening, clients.Keys, system.watched, system.listenWatched,
               system.listenInput)
        && Linked(ids, system.connection)
      ensures Handled() <==> received == system.arrived && Answered()
      ensures Room() && state.Running? && !ingressPaused ==> ring.world.head - ring.world.tail < Sizes().pause
    {}

    /** A receive touches one buffer and the bytes of one connection. */
    twostate lemma OthersStay(fd: nat)
      requires old(ClientsOk(clients, ids, received)) && fd in old(clients)
      requires clients == old(clients) && ids == old(ids) && |received| == |old(received)|
      requires forall c :: 0 <= c < |received| && c != ids[fd] ==> received[c] == old(received[c])
      requires forall b :: b in clients.Values && b != clients[fd] ==> unchanged(b)
      ensures OthersOk(clients, ids, received, fd)
    {
      InjectiveRemove(clients, fd);
      InjectiveRemove(ids, fd);
      hide ClientOk, Injective;
      forall f | f in clients && f != fd
        ensures ids[f] < |received| && ClientOk(clients[f], received[ids[f]])
      {
        assert old(ClientOk(clients[f], received[ids[f]]));
        assert clients[f] in clients.Values;
        assert received[ids[f]] == old(received[ids[f]]);
      }
    }

    /** Then the client stays, in order, or goes. */
    twostate lemma OthersKept(fd: nat)
      requires old(OthersOk(clients, ids, received, fd)) && fd in old(clients) && received == old(received)
      requires (clients == old(clients) && ids == old(ids) && ids[fd] < |received|
                && ClientOk(clients[fd], received[ids[fd]]))
            || (clients == old(clients) - {fd} && ids == old(ids) - {fd})
      requires forall b :: b in old(clients.Values) && b != old(clients[fd]) ==> unchanged(b)
      ensures ClientsOk(clients, ids, received)
    {
      InjectiveRemove(old(clients), fd);
      InjectiveRemove(old(ids), fd);
      hide ClientOk, Injective;
      forall f | f in clients && f != fd
        ensures ids[f] < |received| && ClientOk(clients[f], received[ids[f]])
      {
        assert old(ClientOk(clients[f], received[ids[f]]));
        assert old(clients[f]) in old(clients.Values);
      }
    }

    /** The reasons to close a client that is read: it sent a malformed frame, or its connection ended. */
    ghost predicate Over(fd: nat)
      reads `received, system`connection, system`finished
    {
      && fd in system.connection && system.connection[fd] < |received|
      && (Malformed(received[system.connection[fd]]) || system.connection[fd] in system.finished)
    }

    lemma Present(fd: nat)
      requires Steady() && fd in clients
      ensures state.Running? && fd in system.sockets && fd in ids && ids[fd] < |received|
      ensures fd in system.connection && system.connection[fd] == ids[fd] && !Over(fd)
      ensures Lasting(ids - {fd}, system.finished + {ids[fd]})
      ensures Base() && auto.mode == state && auto.paused == ingressPaused
    {}

    /** A client leaves while ingress is open. */
    method DropClient(fd: nat)
      requires Consistent() && Handled() && Room() && Lasting(ids - {fd}, system.finished)
      requires fd in clients && !ingressPaused
      modifies `clients, `ids, system`watched, system`sockets
      modifies system`refusals
      ensures Valid() && clients == old(clients) - {fd}
      ensures system.refusals >= old(system.refusals)
    {
      hide Base, ClientOk, ClientsOk, OthersOk, Sizes;
      OneClient(clients, ids, received, fd);
      RemoveClient(fd);
      OthersKept(fd);
    }

    method RecvFrom(fd: nat, ghost id: nat) returns (r: Received)
      requires Base() && Handled() && fd in system.sockets
      requires fd in system.connection && system.connection[fd] == id && id < |received|
      modifies system`sockets, system`arrived, system`finished, system`blocked
      ensures Base() && fd in system.sockets && (!r.Bytes? ==> Handled() && system.sockets == old(system.sockets))
      ensures r.Bytes? ==> 0 < |r.bytes| <= READ_BUFFER_SIZE && |system.sockets[fd]| < old(|system.sockets[fd]|)
      ensures r.Bytes? ==> system.arrived == received[id := received[id] + r.bytes]
      ensures system.finished == old(system.finished) + if r.EndOfStream? || r.RecvFailed? then {id} else {}
      ensures r.WouldBlock? ==> id in system.blocked
    {
      hide RingOk, Follows, History;
      r := system.Recv(fd, READ_BUFFER_SIZE);
    }

    /** What a receive leaves: the client is kept unless it is over, and read on, after a whole receive
        without a pause, until `recv` has nothing more. */
    ghost predicate Received(fd: nat, r: ReadResult, pauseWanted: bool, rest: seq<P.Event>)
      reads this, ring, ring.layout, clients.Values
      reads system`sockets, system`watched, system`listenWatched, system`listenInput
      reads system`arrived, system`connection, system`finished, system`delivered, system`reports, system`blocked
    {
      match r
      case Fatal => Dead() && ClientsDescribed()
      case Continue =>
        && Steady() && fd in clients
        && (if pauseWanted then auto.pc == P.Pausing(rest)
            else Room() && auto.pc == P.Receiving(rest) && !ingressPaused && fd in system.sockets)
      case Gone =>
        && Steady() && (if pauseWanted then auto.pc == P.Pausing(rest) else Room() && auto.pc == P.Dispatch(rest))
        && (if fd in clients then fd in system.connection && system.connection[fd] in system.blocked else Over(fd))
    }

    /** One `recv` and what follows from it. */
    method ReceiveOnce(fd: nat, ghost rest: seq<P.Event>) returns (r: ReadResult, pauseWanted: bool)
      requires Valid() && fd in clients && auto.pc == P.Receiving(rest) && !ingressPaused && fd in system.sockets
      modifies `auto, `acts, `clients, `ids, `received, `sources, clients[fd]
      modifies system`watched, system`sockets, system`arrived, system`finished, system`blocked, system`refusals
      modifies ring`head, ring`tail, ring`world, ring`producerTape, ring`consumerTape, ring.layout, dataReady`refused
      ensures Received(fd, r, pauseWanted, rest)
      ensures clients == old(clients) || (r.Gone? && clients == old(clients) - {fd})
      ensures dataReady.refused == old(dataReady.refused) + if r.Fatal? then 1 else 0
      ensures r.Continue? && !pauseWanted ==>
        fd in system.sockets && |system.sockets[fd]| < old(|system.sockets[fd]|)
      ensures system.refusals >= old(system.refusals)
    {
      hide Reaches, Visible, LastCall, SignalsRead, EventsTaken, RingOk, History, ClientOk, ClientsOk, Sizes, Base;
      Present(fd);
      hide Linked, Lasting, EpollOk, Malformed, Over, Received, Dead, ClientsDescribed, Answered, Room;
      pauseWanted := false;
      var got := RecvFrom(fd, ids[fd]);
      match got {
        case Bytes(chunk) =>
          r, pauseWanted := ReceiveChunk(fd, chunk, ids[fd], rest);
        case EndOfStream =>
          EndClient(fd, rest);
          r := Gone;
        case WouldBlock =>
          LeaveClient(fd, rest);
          r := Gone;
        case RecvFailed =>
          EndClient(fd, rest);
          r := Gone;
      }
    }

    /** The connection has ended, or failed: the client goes. */
    method EndClient(fd: nat, ghost rest: seq<P.Event>)
      requires Consistent() && Handled() && Room() && Lasting(ids - {fd}, system.finished)
      requires fd in clients && !ingressPaused && auto.pc == P.Receiving(rest)
      requires fd in system.connection && system.connection[fd] in system.finished && system.connection[fd] < |received|
      modifies `auto, `acts, `clients, `ids, system`watched, system`sockets, system`refusals
      ensures Received(fd, Gone, false, rest) && clients == old(clients) - {fd}
      ensures system.refusals >= old(system.refusals)
    {
      hide Consistent, Handled, Room, Lasting;
      DropClient(fd);
      EndReceive(rest);
    }

    /** Nothing more is there yet: the client stays. */
    ghost method LeaveClient(fd: nat, rest: seq<P.Event>)
      requires Valid() && fd in clients && auto.pc == P.Receiving(rest)
      requires fd in system.connection && system.connection[fd] in system.blocked
      modifies `auto, `acts
      ensures Received(fd, Gone, false, rest)
    {
      hide Steady, Room;
      EndReceive(rest);
    }

    /** `readClient`: receives until there is nothing more, the client is gone, or ingress must pause. */
    method ReadClient(fd: nat, ghost kind: P.Event, ghost rest: seq<P.Event>) returns (ok: bool, pauseWanted: bool)
      requires Valid() && !ingressPaused
      requires auto.pc == P.Dispatch([kind] + rest) && (kind.ClientReady? || (kind.ListenReady? && fd !in clients))
      modifies `auto, `acts, `clients, `ids, `received, `sources, clients.Values
      modifies system`watched, system`sockets, system`arrived, system`finished, system`blocked, system`refusals
      modifies ring`head, ring`tail, ring`world, ring`producerTape, ring`consumerTape, ring.layout, dataReady`refused
      ensures if ok then Steady() else Dead() && ClientsDescribed()
      ensures clients == old(clients) || clients == old(clients) - {fd}
      ensures ok ==>
        if pauseWanted then state.Running? && auto.pc == P.Pausing(rest) else Room() && auto.pc == P.Dispatch(rest)
      ensures dataReady.refused == old(dataReady.refused) + if ok then 0 else 1
      ensures ok && fd in old(clients) ==> (fd !in clients <==> Over(fd))
      ensures ok && fd in clients && !pauseWanted ==> fd in system.connection && system.connection[fd] in system.blocked
      ensures system.refusals >= old(system.refusals)
    {
      hide Reaches, Visible, LastCall, SignalsRead, EventsTaken, RingOk, History, ClientOk, ClientsOk, Sizes, Base;
      hide Steady, Room, Over;
      ok, pauseWanted := true, false;
      assert ([kind] + rest)[1..] == rest;
      if fd !in clients {
        Advance(rest);
        return;
      }
      Present(fd);
      BeginReceive(rest);
      var r;
      r, pauseWanted := ReceiveAll(fd, rest);
      ok := !r.Fatal?;
      if ok && fd in clients {
        Present(fd);
      }
    }

    method ReceiveAll(fd: nat, ghost rest: seq<P.Event>) returns (r: ReadResult, pauseWanted: bool)
      requires Valid() && fd in clients && auto.pc == P.Receiving(rest) && !ingressPaused && fd in system.sockets
      modifies `auto, `acts, `clients, `ids, `received, `sources, clients.Values
      modifies system`watched, system`sockets, system`arrived, system`finished, system`blocked, system`refusals
      modifies ring`head, ring`tail, ring`world, ring`producerTape, ring`consumerTape, ring.layout, dataReady`refused
      ensures Received(fd, r, pauseWanted, rest) && (r.Continue? ==> pauseWanted)
      ensures clients == old(clients) || (r.Gone? && clients == old(clients) - {fd})
      ensures dataReady.refused == old(dataReady.refused) + if r.Fatal? then 1 else 0
      ensures system.refusals >= old(system.refusals)
    {
      hide Base, Steady, Room, Over, Dead;
      r, pauseWanted := Continue, false;
      while r.Continue? && !pauseWanted
        invariant Received(fd, r, pauseWanted, rest)
        invariant clients == old(clients) || (r.Gone? && clients == old(clients) - {fd})
        invariant dataReady.refused == old(dataReady.refused) + if r.Fatal? then 1 else 0
        invariant system.refusals >= old(system.refusals)
        decreases if r.Continue? && !pauseWanted then |system.sockets[fd]| + 1 else 0
      {
        r, pauseWanted := ReceiveOnce(fd, rest);
      }
    }

    // ----------------------------------------------------------- pause and resume

    /** `updateIngressInterest`: no ADD meets a client already in epoll, and no DEL one that is not
        there; only a refusal by the kernel makes it fail. */
    method UpdateIngressInterest(enabled: bool) returns (ok: bool)
      requires system.listenWatched && system.watched == if enabled then {} else clients.Keys
      modifies system`watched, system`listenInput, system`refusals
      ensures system.refusals == old(system.refusals) + if ok then 0 else 1
      ensures ok ==> system.watched == (if enabled then clients.Keys else {}) && system.listenInput == enabled
    {
      var r := system.ModifyListener(enabled);
      if !r.Done? {
        return false;
      }
      var left := clients.Keys;
      while left != {}
        invariant left <= clients.Keys && system.listenInput == enabled && system.refusals == old(system.refusals)
        invariant system.watched == if enabled then clients.Keys - left else left
      {
        var fd :| fd in left;
        if enabled {
          r := system.Add(fd);
        } else {
          r := system.Delete(fd);
        }
        if !r.Done? {
          return false;
        }
        left := left - {fd};
      }
      ok := true;
    }

    method PauseIngress(ghost rest: seq<P.Event>) returns (ok: bool)
      requires Steady() && state.Running? && !ingressPaused && auto.pc == P.Pausing(rest)
      modifies `auto, `acts, `ingressPaused, system`watched, system`listenInput, system`refusals
      ensures if ok then Valid() && auto.pc == P.Dispatch(rest) else Dead() && ClientsDescribed()
      ensures system.refusals == old(system.refusals) + if ok then 0 else 1
      ensures ok ==> ingressPaused
    {
      hide Sizes, Base, ClientsOk, Linked;
      OpenClients();
      ok := UpdateIngressInterest(false);
      InterestSet(ok, false, rest);
      if ok {
        ingressPaused := true;
      }
    }

    /** The automaton after a change of interest. */
    ghost method InterestSet(ok: bool, enabled: bool, rest: seq<P.Event>)
      requires Base() && auto.pc == if enabled then P.Resuming(rest) else P.Pausing(rest)
      modifies `auto, `acts
      ensures Base()
      ensures auto == old(auto).(pc := if ok then P.Dispatch(rest) else P.Stopped(false),
                                 paused := if ok then !enabled else auto.paused)
    {
      hide Reaches, Visible, LastCall, SignalsRead, EventsTaken, RingOk, History;
      if ok {
        Move(P.Quiet, auto.(pc := P.Dispatch(rest), paused := !enabled));
      } else {
        Fail();
      }
    }

    lemma OpenClients()
      requires Consistent()
      ensures clients.Keys == ids.Keys
    {}

    /** `pendingBytes()` after a space event. */
    method PendingForResume(ghost rest: seq<P.Event>) returns (size: nat)
      requires Base() && auto.pc == P.ResumeCheck(rest)
      modifies `acts, `auto, ring`tail, ring`world, ring`producerTape, ring`consumerTape
      ensures Base() && ring.world.head - ring.world.tail <= size
      ensures auto == old(auto).(pc := if size <= Sizes().resume then P.Resuming(rest) else P.Dispatch(rest))
      ensures ring.producerTape == old(ring.producerTape) + [Size(size)]
    {
      hide Reaches, Visible, LastCall, SignalsRead, EventsTaken, RingOk, History;
      Move(P.CallSize, auto);
      size := PendingFrames();
      Move(P.ReturnSize(size), auto.(pc := if size <= Sizes().resume then P.Resuming(rest) else P.Dispatch(rest)));
    }

    /** The reader has made room: if enough, all clients go back into epoll. */
    method ResumeIngress(ghost rest: seq<P.Event>) returns (ok: bool, ghost pending: nat)
      requires Valid() && state.Running? && ingressPaused && auto.pc == P.ResumeCheck(rest)
      modifies `auto, `acts, `ingressPaused, system`watched, system`listenInput, system`refusals
      modifies ring`tail, ring`world, ring`producerTape, ring`consumerTape
      ensures if ok then Valid() && auto.pc == P.Dispatch(rest) else Dead() && ClientsDescribed()
      ensures system.refusals == old(system.refusals) + if ok then 0 else 1
      ensures ring.producerTape == old(ring.producerTape) + [Size(pending)]
      ensures ok ==> (ingressPaused <==> pending * 32 > 1024 * 1024)
    {
      hide Reaches, Visible, LastCall, SignalsRead, EventsTaken, RingOk, History, ClientsOk, Follows;
      OpenClients();
      var size := PendingForResume(rest);
      pending := size;
      var pendingBytes := size * FRAME_SIZE;
      if pendingBytes > RESUME_INGRESS_BYTES {
        return true, pending;
      }
      ok := OpenIngress(rest);
    }

    method OpenIngress(ghost rest: seq<P.Event>) returns (ok: bool)
      requires Valid() && state.Running? && ingressPaused && auto.pc == P.Resuming(rest)
      requires ring.world.head - ring.world.tail <= Sizes().resume
      modifies `auto, `acts, `ingressPaused, system`watched, system`listenInput, system`refusals
      ensures if ok then Valid() && auto.pc == P.Dispatch(rest) else Dead() && ClientsDescribed()
      ensures system.refusals == old(system.refusals) + if ok then 0 else 1
      ensures ok ==> !ingressPaused
    {
      SizesAreGood();
      hide Sizes, Base, ClientsOk, Linked;
      OpenClients();
      ok := UpdateIngressInterest(true);
      InterestSet(ok, true, rest);
      if ok {
        ingressPaused := false;
      }
    }

    // ----------------------------------------------------------- accepting

    /** A new client: the connection accepted last, with an empty buffer. */
    method Register(fd: nat)
      requires clients.Keys == ids.Keys && fd !in clients && |received| > 0
      modifies `clients, `ids
      ensures fd in clients && fresh(clients[fd]) && clients == old(clients)[fd := clients[fd]]
      ensures clients[fd].data == [] && clients[fd].offset == 0
      ensures ids == old(ids)[fd := |received| - 1]
    {
      var buffer := new Buffer();
      clients := clients[fd := buffer];
      ids := ids[fd := |received| - 1];
    }

    /** A connection was accepted that is not yet a client, and may be in epoll already. */
    ghost predicate Offered(fd: nat, added: bool)
      reads this, ring, ring.layout, clients.Values
      reads system`sockets, system`watched, system`listenWatched, system`listenInput
      reads system`arrived, system`connection, system`finished, system`delivered, system`reports
    {
      && RingOk() && Follows() && History(ring.world.log, sources, received) && DescriptorsOk() && Wired()
      && fd !in clients && fd !in system.reserved && clients.Keys !! system.reserved
      && system.watched == (if added then clients.Keys + {fd} else clients.Keys)
      && system.sockets.Keys == clients.Keys + {fd}
      && state.Running? && !ingressPaused && auto.mode == state && auto.paused == ingressPaused
      && listening && system.listenWatched && system.listenInput
      && ClientsOk(clients, ids, received) && Room()
      && Handled() && Linked(ids, system.connection) && LastIsNew(ids, received)
      && fd in system.connection && system.connection[fd] == |received| - 1
      && Lasting(ids, system.finished) && |received| - 1 !in system.finished
    }

    /** A new descriptor is never in epoll already; one that epoll refuses is closed, any other becomes a
        client. */
    method Admit(fd: nat)
      requires Offered(fd, false)
      modifies `clients, `ids, system`watched, system`sockets, system`refusals
      ensures Valid() && old(system.refusals) <= system.refusals <= old(system.refusals) + 1
      ensures clients.Keys == old(clients.Keys) + if system.refusals == old(system.refusals) then {fd} else {}
      ensures fresh(clients.Values - old(clients.Values))
    {
      hide Valid, Sizes;
      var r := AddOffered(fd);
      if !r.Done? {
        Reject(fd);
      } else {
        Welcome(fd);
      }
    }

    method AddOffered(fd: nat) returns (r: EpollResult)
      requires Offered(fd, false)
      modifies system`watched, system`refusals
      ensures (r.Done? || r.Refused?) && Offered(fd, r.Done?)
      ensures system.refusals == old(system.refusals) + if r.Done? then 0 else 1
    {
      hide Reaches, Visible, LastCall, SignalsRead, EventsTaken, RingOk, History, Follows, Sizes;
      hide ClientsOk, LastIsNew, Linked, Handled;
      r := system.Add(fd);
    }

    method Reject(fd: nat)
      requires Offered(fd, false)
      modifies system`watched, system`sockets
      ensures Valid()
    {
      hide Reaches, Visible, LastCall, SignalsRead, EventsTaken, RingOk, History, Follows, Sizes;
      hide ClientsOk, LastIsNew, Linked, Handled;
      system.Close(fd);
      assert system.sockets.Keys == clients.Keys == system.watched;
    }

    method Welcome(fd: nat)
      requires Offered(fd, true)
      modifies `clients, `ids
      ensures Valid() && clients.Keys == old(clients.Keys) + {fd} && fresh(clients.Values - old(clients.Values))
    {
      hide Reaches, Visible, LastCall, SignalsRead, EventsTaken, RingOk, History, ClientsOk, Follows, Sizes;
      Enroll(fd);
    }

    method Enroll(fd: nat)
      requires ClientsOk(clients, ids, received) && LastIsNew(ids, received) && fd !in clients
      modifies `clients, `ids
      ensures ClientsOk(clients, ids, received) && ids == old(ids)[fd := |received| - 1]
      ensures clients.Keys == old(clients.Keys) + {fd} && fresh(clients.Values - old(clients.Values))
    {
      hide ClientOk, Injective;
      Register(fd);
      NoneTouched();
      WithNewcomer(old(clients), old(ids), received, fd, clients[fd]);
    }

    /** Nothing has been received on the connection accepted last. */
    ghost method MeetNewcomer()
      requires History(ring.world.log, sources, received) && ClientsOk(clients, ids, received)
      modifies `received
      ensures received == old(received) + [[]] && LastIsNew(ids, received)
      ensures History(ring.world.log, sources, received) && ClientsOk(clients, ids, received)
    {
      hide History, ClientOk, Injective;
      HistoryOfNewcomer(ring.world.log, sources, received);
      received := received + [[]];
    }

    /** `accept4`. */
    method Accept() returns (r: Accepted)
      requires Valid() && state.Running? && !ingressPaused
      modifies `received, system`sockets, system`waiting, system`backlog, system`arrived, system`connection
      modifies system`finished, system`faults
      ensures r.NewClient? ==> Offered(r.fd, false) && r.fd !in clients
      ensures !r.NewClient? ==> Valid()
      ensures system.waiting + system.backlog == old(system.waiting + system.backlog) - if r.NewClient? then 1 else 0
      ensures r.NoneWaiting? ==> system.waiting == 0
      ensures system.faults == old(system.faults) + if r.AcceptFailed? then 1 else 0
      ensures |received| == |old(received)| + if r.NewClient? then 1 else 0
    {
      hide Reaches, Visible, LastCall, SignalsRead, EventsTaken, RingOk, History, ClientOk, ClientsOk, Follows, Sizes;
      OpenClients();
      r := system.Accept();
      if r.NewClient? {
        MeetNewcomer();
      }
    }

    /** How many of the connections accepted since `before` are not clients: those that epoll refused. */
    ghost predicate AllAdmitted(clients0: set<nat>, received0: nat, refusals0: nat)
      reads `clients, `received, system`refusals
    {
      && clients0 <= clients.Keys && received0 <= |received| && refusals0 <= system.refusals
      && |clients.Keys| - |clients0| + system.refusals - refusals0 == |received| - received0
    }

    /** One round of `acceptClients`. */
    method AcceptOne() returns (r: Accepted)
      requires Valid() && state.Running? && !ingressPaused
      modifies `clients, `ids, `received, system`watched, system`sockets, system`waiting, system`backlog
      modifies system`arrived, system`connection, system`finished, system`refusals, system`faults
      ensures Valid() && fresh(clients.Values - old(clients.Values))
      ensures system.waiting + system.backlog
           == old(system.waiting + system.backlog) - if r.NewClient? then 1 else 0
      ensures r.NoneWaiting? ==> system.waiting == 0
      ensures system.faults == old(system.faults) + if r.AcceptFailed? then 1 else 0
      ensures AllAdmitted(old(clients.Keys), old(|received|), old(system.refusals))
      ensures if r.NewClient? then r.fd !in old(clients) && |received| == |old(received)| + 1
              else clients == old(clients) && |received| == |old(received)|
    {
      hide Valid, Offered;
      r := Accept();
      if r.NewClient? {
        Admit(r.fd);
      }
    }

    /** Clients whose buffers did not change are as they were. */
    twostate lemma NoneTouched()
      requires old(ClientsOk(clients, ids, received))
      requires forall b :: b in old(clients.Values) ==> unchanged(b)
      ensures ClientsOk(old(clients), old(ids), old(received))
    {
      hide ClientOk;
      forall f | f in old(clients)
        ensures ClientOk(old(clients[f]), old(received[ids[f]]))
      {
        assert old(clients[f]) in old(clients.Values);
        assert old(ClientOk(clients[f], received[ids[f]]));
      }
    }

    /** `acceptClients`: until no connection waits, or `accept4` fails.  Nobody is dropped, and every
        connection accepted becomes a client, unless epoll refuses it. */
    method AcceptClients() returns (ok: bool)
      requires Valid() && state.Running? && !ingressPaused
      modifies `clients, `ids, `received, system`watched, system`sockets, system`waiting, system`backlog
      modifies system`arrived, system`connection, system`finished, system`refusals, system`faults
      ensures Valid() && fresh(clients.Values - old(clients.Values))
      ensures system.faults == old(system.faults) + if ok then 0 else 1
      ensures ok ==> system.waiting == 0
      ensures AllAdmitted(old(clients.Keys), old(|received|), old(system.refusals))
    {
      hide Steady, Room;
      while true
        invariant Valid() && state.Running? && !ingressPaused
        invariant fresh(clients.Values - old(clients.Values)) && system.faults == old(system.faults)
        invariant AllAdmitted(old(clients.Keys), old(|received|), old(system.refusals))
        decreases system.waiting + system.backlog
      {
        var r := AcceptOne();
        if !r.NewClient? {
          return r.NoneWaiting?;
        }
      }
    }

    // ----------------------------------------------------------- events

    function KindOf(fd: nat): P.Event {
      if fd == signalFd then P.SignalReady
      else if fd == spaceReadyFd then P.SpaceReady
      else if fd == listener then P.ListenReady
      else P.ClientReady
    }

    /** An error event, or a failed call: the server gives up. */
    ghost method GiveUp()
      requires Base() && Handled() && auto.pc.Dispatch?
      modifies `auto, `acts
      ensures Dead()
    {
      hide Reaches, Visible, LastCall, SignalsRead, EventsTaken, RingOk, History;
      Fail();
    }

    method HandleListenEvent(e: EpollEvent, ghost rest: seq<P.Event>) returns (ok: bool)
      requires Valid() && listening && e.fd == listener && auto.pc == P.Dispatch([KindOf(e.fd)] + rest)
      modifies `auto, `acts, `clients, `ids, `received
      modifies system`watched, system`sockets, system`waiting, system`backlog, system`arrived, system`connection
      modifies system`finished, system`refusals, system`faults
      ensures if ok then Valid() && auto.pc == P.Dispatch(rest) else Dead() && ClientsDescribed()
      ensures fresh(clients.Values - old(clients.Values))
      ensures ok <==> system.faults == old(system.faults) && !e.hangup
      ensures system.faults >= old(system.faults)
      ensures e.input && !old(ingressPaused) && system.faults == old(system.faults) ==> system.waiting == 0
      ensures AllAdmitted(old(clients.Keys), old(|received|), old(system.refusals))
      ensures old(clients.Keys) <= clients.Keys && system.refusals >= old(system.refusals)
    {
      hide Steady, Room, Dead, AllAdmitted, Base, Handled, ClientsDescribed;
      assert ([KindOf(e.fd)] + rest)[1..] == rest;
      Listens();
      Advance(rest);
      ok := AcceptIfOpen(e.input);
      Admitted(old(clients.Keys), old(|received|), old(system.refusals));
      Listens();
      if !ok || e.hangup {
        GiveUp();
        ok := false;
      }
    }

    method AcceptIfOpen(input: bool) returns (ok: bool)
      requires Valid() && state.Running?
      modifies `clients, `ids, `received, system`watched, system`sockets, system`waiting, system`backlog
      modifies system`arrived, system`connection, system`finished, system`refusals, system`faults
      ensures Valid() && fresh(clients.Values - old(clients.Values))
      ensures system.faults == old(system.faults) + if ok then 0 else 1
      ensures ok && input && !ingressPaused ==> system.waiting == 0
      ensures AllAdmitted(old(clients.Keys), old(|received|), old(system.refusals))
    {
      hide Steady, Room, AllAdmitted;
      NobodyNew();
      ok := true;
      if !ingressPaused && input {
        ok := AcceptClients();
      }
    }

    lemma NobodyNew()
      ensures AllAdmitted(clients.Keys, |received|, system.refusals)
    {}

    lemma Admitted(clients0: set<nat>, received0: nat, refusals0: nat)
      requires AllAdmitted(clients0, received0, refusals0)
      ensures clients0 <= clients.Keys && refusals0 <= system.refusals
    {}

    lemma Listens()
      requires Steady()
      ensures Base() && Handled() && ClientsDescribed() && KindOf(listener) == P.ListenReady
      ensures listening ==> state.Running?
    {}

    /** `consumeEvent(spaceReadyFd)`. */
    method ConsumeSpace() returns (ok: bool)
      requires RingOk() && Wired()
      modifies ring`producerTape, ring`consumerTape
      modifies spaceReady`refused
      ensures RingOk() && ring.producerTape == old(ring.producerTape) + if ok then [Woken] else []
      ensures spaceReady.refused == old(spaceReady.refused) + if ok then 0 else 1
    {
      hide Spsc.Inv, Wrap, Published, Sizes;
      ok := spaceReady.Consume();
    }

    /** The same with the move of the automaton. */
    method TakeSpace(ghost rest: seq<P.Event>) returns (ok: bool)
      requires Base() && Handled() && auto.pc == P.Dispatch([P.SpaceReady] + rest)
      modifies `auto, `acts, ring`producerTape, ring`consumerTape
      modifies spaceReady`refused
      ensures if ok then Base() else Dead()
      ensures ok ==> auto == old(auto).(pc := if auto.mode.Running? && auto.paused then P.ResumeCheck(rest)
              else P.Dispatch(rest))
      ensures spaceReady.refused == old(spaceReady.refused) + if ok then 0 else 1
    {
      hide Reaches, Visible, LastCall, SignalsRead, EventsTaken, History;
      assert ([P.SpaceReady] + rest)[1..] == rest;
      ok := ConsumeSpace();
      if ok {
        Move(P.TakeSpace, auto.(pc := if auto.mode.Running? && auto.paused then P.ResumeCheck(rest)
            else P.Dispatch(rest)));
      } else {
        Fail();
      }
    }

    method HandleSpaceEvent(e: EpollEvent, ghost rest: seq<P.Event>) returns (ok: bool)
      requires Valid() && auto.pc == P.Dispatch([P.SpaceReady] + rest) && (e.input || e.hangup)
      modifies `auto, `acts, `ingressPaused, system`watched, system`listenInput, ring`producerTape,
          ring`consumerTape, ring`tail, ring`world
      modifies spaceReady`refused, system`refusals
      ensures if ok then Valid() && auto.pc == P.Dispatch(rest) else Dead() && ClientsDescribed()
      ensures spaceReady.refused >= old(spaceReady.refused) && system.refusals >= old(system.refusals)
      ensures ok <==>
        spaceReady.refused == old(spaceReady.refused) && system.refusals == old(system.refusals) && !e.hangup
      ensures clients == old(clients)
    {
      hide Steady, Room, Dead, Base, Handled, ClientsDescribed;
      ok := true;
      if e.input {
        ok := TakeSpaceAndResume(rest);
        if !ok {
          return;
        }
      }
      Listens();
      if e.hangup {
        GiveUp();
        ok := false;
      }
    }

    method TakeSpaceAndResume(ghost rest: seq<P.Event>) returns (ok: bool)
      requires Valid() && auto.pc == P.Dispatch([P.SpaceReady] + rest)
      modifies `auto, `acts, `ingressPaused, system`watched, system`listenInput, ring`producerTape,
          ring`consumerTape, ring`tail, ring`world
      modifies spaceReady`refused, system`refusals
      ensures if ok then Valid() && auto.pc == P.Dispatch(rest) else Dead() && ClientsDescribed()
      ensures spaceReady.refused >= old(spaceReady.refused) && system.refusals >= old(system.refusals)
      ensures ok <==> spaceReady.refused == old(spaceReady.refused) && system.refusals == old(system.refusals)
    {
      hide Base, ClientsOk, EpollOk, Linked, Lasting, Handled, Room;
      OpenClients();
      ok := TakeSpace(rest);
      if ok && state.Running? && ingressPaused {
        ghost var pending;
        ok, pending := ResumeIngress(rest);
      }
    }

    /** A client is read, and ingress paused if the ring has filled up. */
    method ReadEvent(fd: nat, ghost rest: seq<P.Event>) returns (ok: bool)
      requires Valid() && !ingressPaused && auto.pc == P.Dispatch([KindOf(fd)] + rest)
      requires fd != spaceReadyFd && fd != signalFd && (fd == listener ==> !listening)
      modifies `auto, `acts, `clients, `ids, `received, `sources, `ingressPaused, clients.Values
      modifies system`watched, system`sockets, system`arrived, system`listenInput
      modifies ring`head, ring`tail, ring`world, ring`producerTape, ring`consumerTape, ring.layout
      modifies system`finished, system`blocked, system`refusals, dataReady`refused
      ensures if ok then Valid() && auto.pc == P.Dispatch(rest) else Dead() && ClientsDescribed()
      ensures dataReady.refused >= old(dataReady.refused) && system.refusals >= old(system.refusals)
      ensures !ok ==> dataReady.refused > old(dataReady.refused) || system.refusals > old(system.refusals)
      ensures dataReady.refused > old(dataReady.refused) ==> !ok
      ensures clients == old(clients) || clients == old(clients) - {fd}
      ensures ok && fd in old(clients) ==> (fd !in clients <==> Over(fd))
      ensures ok && !ingressPaused && fd in clients ==>
        fd in system.connection && system.connection[fd] in system.blocked
    {
      hide Steady, Room, Over, Dead, Base;
      assert Base() by { Grounded(); }
      ListenerIsNoClient();
      var pauseRequested;
      ok, pauseRequested := ReadClient(fd, KindOf(fd), rest);
      if ok && pauseRequested {
        ok := PauseIngress(rest);
      }
    }

    /** Anything else is a client, perhaps one that is gone.  While ingress is paused, nothing is read
        and nobody is disconnected, whatever a stale event says; otherwise a client is closed exactly if
        it broke the protocol, its connection ended, or a hangup was reported. */
    method HandleClientEvent(e: EpollEvent, ghost rest: seq<P.Event>) returns (ok: bool)
      requires Valid() && auto.pc == P.Dispatch([KindOf(e.fd)] + rest)
      requires e.fd != spaceReadyFd && e.fd != signalFd && (e.fd == listener ==> !listening)
      modifies `auto, `acts, `clients, `ids, `received, `sources, `ingressPaused, clients.Values
      modifies system`watched, system`sockets, system`arrived, system`listenInput
      modifies ring`head, ring`tail, ring`world, ring`producerTape, ring`consumerTape, ring.layout
      modifies system`finished, system`blocked, system`refusals, dataReady`refused
      ensures if ok then Valid() && auto.pc == P.Dispatch(rest) else Dead() && ClientsDescribed()
      ensures old(ingressPaused) ==> ok && clients == old(clients) && ingressPaused
      ensures dataReady.refused >= old(dataReady.refused) && system.refusals >= old(system.refusals)
      ensures !ok ==> dataReady.refused > old(dataReady.refused) || system.refusals > old(system.refusals)
      ensures dataReady.refused > old(dataReady.refused) ==> !ok
      ensures clients == old(clients) || clients == old(clients) - {e.fd}
      ensures ok && !old(ingressPaused) && e.fd in old(clients) ==>
        (e.fd !in clients <==> Over(e.fd) || (e.hangup && !ingressPaused))
      ensures ok && !old(ingressPaused) && e.input && !ingressPaused && e.fd in clients ==>
        e.fd in system.connection && system.connection[e.fd] in system.blocked
      ensures clients.Values <= old(clients.Values)
    {
      hide Room, Over, Dead, Base, ClientsOk, EpollOk, Linked, Lasting;
      assert ([KindOf(e.fd)] + rest)[1..] == rest;
      ok := true;
      if !ingressPaused && e.input {
        ok := ReadEvent(e.fd, rest);
        if !ok {
          return;
        }
      } else {
        if e.fd in clients {
          Present(e.fd);
        }
        Advance(rest);
      }
      if ingressPaused {
        return;
      }
      if e.hangup && e.fd in clients {
        DropHungUp(e.fd);
      }
    }

    /** A hangup was reported for the client. */
    method DropHungUp(fd: nat)
      requires Valid() && fd in clients && !ingressPaused
      modifies `clients, `ids, system`watched, system`sockets, system`refusals
      ensures Valid() && clients == old(clients) - {fd} && system.refusals >= old(system.refusals)
    {
      hide Consistent, Handled, Room;
      DropClient(fd);
    }

    lemma Grounded()
      requires Steady()
      ensures Base()
    {}

    lemma ListenerIsNoClient()
      requires Base()
      ensures listener !in clients
    {}

    // ----------------------------------------------------------- signals and draining

    /** Some of the signals say that process `pid` exited, was killed or dumped core. */
    ghost predicate EndOf(pid: nat, infos: seq<SignalInfo>) {
      SigChld(pid, ChildExited) in infos || SigChld(pid, ChildKilled) in infos || SigChld(pid, ChildDumped) in infos
    }

    /** What one delivered signal means to the server; a child counts only if it is the reader, and only
        if it ended. */
    function Classify(info: SignalInfo): P.Signal {
      match info
      case SigInt => P.Shutdown
      case SigTerm => P.Shutdown
      case SigChld(pid, code) =>
        if pid == readerPid && (code.ChildExited? || code.ChildKilled? || code.ChildDumped?) then P.ReaderGone
        else P.OtherSignal
      case OtherSignalInfo => P.OtherSignal
    }

    function Classified(infos: seq<SignalInfo>): (r: seq<P.Signal>)
      ensures |r| == |infos|
    {
      seq(|infos|, i requires 0 <= i < |infos| => Classify(infos[i]))
    }

    /** `handleSignalFd`: reads signals, those that were pending and those that arrive meanwhile, until
        none is left; their order does not matter. */
    method HandleSignalFd() returns (ok: bool, shutdownRequested: bool, readerTerminated: bool,
        ghost handled: seq<SignalInfo>)
      modifies system`pendingSignals, system`laterSignals, system`delivered, system`faults
      ensures system.delivered == old(system.delivered) + handled
      ensures system.faults == old(system.faults) + if ok then 0 else 1
      ensures ok ==> (shutdownRequested <==> SigInt in handled || SigTerm in handled)
      ensures ok ==> (readerTerminated <==> EndOf(readerPid, handled))
      ensures ok ==>
        && handled + system.laterSignals == old(system.pendingSignals + system.laterSignals)
            && system.pendingSignals == []
        && (shutdownRequested <==> P.Shutdown in Classified(handled))
        && (readerTerminated <==> P.ReaderGone in Classified(handled))
    {
      hide Classified;
      ok, shutdownRequested, readerTerminated, handled := true, false, false, [];
      assert [] + (system.pendingSignals + system.laterSignals) == system.pendingSignals + system.laterSignals;
      while true
        invariant old(system.pendingSignals + system.laterSignals)
                  == handled + (system.pendingSignals + system.laterSignals)
        invariant system.delivered == old(system.delivered) + handled
        invariant system.faults == old(system.faults)
        invariant shutdownRequested <==> SigInt in handled || SigTerm in handled
        invariant readerTerminated <==> EndOf(readerPid, handled)
        decreases |system.pendingSignals + system.laterSignals|
      {
        ghost var left := system.pendingSignals + system.laterSignals;
        var r := system.ReadSignal();
        match r {
          case Info(info) =>
            assert handled + left == handled + [info] + (system.pendingSignals + system.laterSignals);
            handled := handled + [info];
            if info.SigInt? || info.SigTerm? {
              shutdownRequested := true;
            } else if info.SigChld? && info.pid == readerPid
                      && (info.code.ChildExited? || info.code.ChildKilled? || info.code.ChildDumped?) {
              readerTerminated := true;
            }
          case NoSignal =>
            assert [] + system.laterSignals == system.laterSignals;
            ClassifiedMeans(handled);
            return;
          case ReadFailed =>
            ok := false;
            return;
        }
      }
    }

    /** What the signals mean, one by one. */
    lemma ClassifiedMeans(infos: seq<SignalInfo>)
      ensures P.Shutdown in Classified(infos) <==> SigInt in infos || SigTerm in infos
      ensures P.ReaderGone in Classified(infos) <==> EndOf(readerPid, infos)
    {
      var signals := Classified(infos);
      forall i | 0 <= i < |infos|
        ensures signals[i] == Classify(infos[i]) && signals[i] in signals && infos[i] in infos
      {}
      if P.Shutdown in signals {
        var i :| 0 <= i < |signals| && signals[i] == P.Shutdown;
        assert infos[i] in infos;
      }
      if P.ReaderGone in signals {
        var i :| 0 <= i < |signals| && signals[i] == P.ReaderGone;
        assert infos[i] in infos;
      }
    }

    /** `removeAllClients`: none of them need be in epoll. */
    method RemoveAllClients()
      requires clients.Keys == ids.Keys
      modifies `clients, `ids, system`watched, system`sockets
      modifies system`refusals
      ensures clients == map[] && ids == map[]
      ensures system.watched == old(system.watched) - old(clients.Keys)
      ensures system.sockets.Keys == old(system.sockets.Keys) - old(clients.Keys)
      ensures system.refusals >= old(system.refusals)
    {
      ghost var gone: set<nat> := {};
      while clients.Keys != {}
        invariant clients.Keys == ids.Keys && gone + clients.Keys == old(clients.Keys)
        invariant system.watched == old(system.watched) - gone
        invariant system.sockets.Keys == old(system.sockets.Keys) - gone
        invariant system.refusals >= old(system.refusals)
        decreases clients.Keys
      {
        var fd :| fd in clients.Keys;
        ghost var keys, watched, sockets := clients.Keys, system.watched, system.sockets.Keys;
        RemoveClient(fd);
        assert clients.Keys == keys - {fd} && system.sockets.Keys == sockets - {fd};
        OneGone(old(system.watched), gone, fd);
        OneGone(old(system.sockets.Keys), gone, fd);
        gone := gone + {fd};
      }
      assert clients == map[] && ids == map[];
    }

    /** `beginDraining`: nothing is accepted or read any more. */
    method BeginDraining()
      requires Base() && state.Running? && ClientsOk(clients, ids, received)
      requires EpollOk(state, ingressPaused, listening, clients.Keys, system.watched, system.listenWatched,
               system.listenInput)
      modifies `listening, `clients, `ids, system`watched, system`sockets, system`listenWatched
      modifies system`refusals
      ensures Base() && clients == map[] && ids == map[] && ClientsOk(clients, ids, received)
      ensures EpollOk(P.Draining, ingressPaused, listening, clients.Keys, system.watched, system.listenWatched,
                      system.listenInput)
      ensures system.refusals >= old(system.refusals)
    {
      hide Reaches, Visible, LastCall, SignalsRead, EventsTaken, RingOk, History, ClientOk;
      if listening {
        system.CloseListener();
        listening := false;
      }
      RemoveAllClients();
    }

    /** The signals read take effect: reader termination outranks a shutdown request. */
    method ActOnSignals(shutdownRequested: bool, readerTerminated: bool, ghost signals: seq<P.Signal>,
        ghost rest: seq<P.Event>)
      returns (ok: bool)
      requires Consistent() && Room() && Lasting(ids, system.finished) && Unanswered(signals)
      requires auto.pc == P.Dispatch([P.SignalReady] + rest)
      requires shutdownRequested <==> P.Shutdown in signals
      requires readerTerminated <==> P.ReaderGone in signals
      modifies `auto, `acts, `heard, `state, `listening, `clients, `ids
      modifies system`watched, system`sockets, system`listenWatched
      modifies system`refusals
      ensures if ok then Valid() && auto.pc == P.Dispatch(rest) else Dead() && ClientsDescribed()
      ensures ok <==> !readerTerminated
      ensures ok ==> state == if shutdownRequested then P.Draining else old(state)
      ensures clients.Values <= old(clients.Values)
      ensures system.refusals >= old(system.refusals)
      ensures ok && state.Running? ==> clients == old(clients)
    {
      hide Reaches, Visible, LastCall, SignalsRead, EventsTaken, RingOk, History, ClientsOk, Follows, Sizes, Base;
      OpenClients();
      Signalled(signals, rest);
      if readerTerminated {
        return false;
      }
      if shutdownRequested && state.Running? {
        BeginDraining();
        state := P.Draining;
      }
      ok := true;
    }

    /** Everything is handled but these signals, the last delivered. */
    ghost predicate Unanswered(signals: seq<P.Signal>)
      reads `received, `heard, `taken, system`arrived, system`delivered, system`reports
    {
      && received == system.arrived && heard + signals == Classified(system.delivered)
      && taken == Kinds(system.reports)
    }

    ghost method Signalled(signals: seq<P.Signal>, rest: seq<P.Event>)
      requires Base() && Unanswered(signals) && auto.pc == P.Dispatch([P.SignalReady] + rest)
      modifies `auto, `acts, `heard
      ensures Base() && Handled() && auto == P.AfterSignals(old(auto), rest, signals)
    {
      hide Reaches, Visible, LastCall, SignalsRead, EventsTaken, RingOk, History, Classified;
      assert ([P.SignalReady] + rest)[1..] == rest;
      Move(P.ReadSignals(signals), P.AfterSignals(auto, rest, signals));
      heard := heard + signals;
    }

    /** The signalfd failed after these signals. */
    ghost method SignalsFailed(signals: seq<P.Signal>, rest: seq<P.Event>)
      requires Base() && Unanswered(signals) && auto.pc == P.Dispatch([P.SignalReady] + rest)
      modifies `auto, `acts, `heard
      ensures Dead()
    {
      hide Base;
      if signals != [] {
        Signalled(signals, rest);
      } else {
        assert heard + [] == heard;
      }
      hide Handled, Unanswered;
      if auto.pc.Dispatch? {
        GiveUp();
      }
    }

    /** `handleSignalFd`, with the signals still to be acted on. */
    method ReadSignals() returns (ok: bool, shutdownRequested: bool, readerTerminated: bool,
        ghost handled: seq<SignalInfo>)
      requires Handled()
      modifies system`pendingSignals, system`laterSignals, system`delivered, system`faults
      ensures Unanswered(Classified(handled))
      ensures system.faults == old(system.faults) + if ok then 0 else 1
      ensures system.delivered == old(system.delivered) + handled
      ensures ok ==> (shutdownRequested <==> SigInt in handled || SigTerm in handled)
      ensures ok ==> (readerTerminated <==> EndOf(readerPid, handled))
      ensures ok ==>
        && handled + system.laterSignals == old(system.pendingSignals + system.laterSignals)
            && system.pendingSignals == []
        && (shutdownRequested <==> P.Shutdown in Classified(handled))
        && (readerTerminated <==> P.ReaderGone in Classified(handled))
    {
      ok, shutdownRequested, readerTerminated, handled := HandleSignalFd();
      assert Classified(old(system.delivered) + handled) == Classified(old(system.delivered)) + Classified(handled);
    }

    method HandleSignalEvent(e: EpollEvent, ghost rest: seq<P.Event>) returns (ok: bool, ghost handled: seq<SignalInfo>)
      requires Valid() && auto.pc == P.Dispatch([P.SignalReady] + rest) && (e.input || e.hangup)
      modifies `auto, `acts, `heard, `state, `listening, `clients, `ids
      modifies system`watched, system`sockets, system`listenWatched, system`pendingSignals, system`laterSignals,
          system`delivered, system`faults
      modifies system`refusals
      ensures if ok then Valid() && auto.pc == P.Dispatch(rest) else Dead() && ClientsDescribed()
      ensures ok && e.input ==>
        && handled + system.laterSignals == old(system.pendingSignals + system.laterSignals)
            && system.pendingSignals == []
        && P.ReaderGone !in Classified(handled)
        && state == if P.Shutdown in Classified(handled) then P.Draining else old(state)
      ensures clients.Values <= old(clients.Values)
      ensures system.delivered == old(system.delivered) + handled && system.faults >= old(system.faults)
      ensures ok <==> system.faults == old(system.faults) && !e.hangup && !EndOf(readerPid, handled)
      ensures ok && (SigInt in handled || SigTerm in handled) ==> state.Draining?
      ensures ok && state != old(state) ==> SigInt in handled || SigTerm in handled
      ensures system.refusals >= old(system.refusals)
      ensures ok && state.Running? ==> clients == old(clients)
    {
      hide Steady, Room, Dead, Base, Handled, ClientsDescribed, Classified;
      assert !EndOf(readerPid, []) && system.delivered + [] == system.delivered;
      ok, handled := true, [];
      if e.input {
        ok, handled := TakeSignals(rest);
        if !ok {
          return;
        }
      }
      Listens();
      if e.hangup {
        GiveUp();
        ok := false;
      }
    }

    /** The signals are read, and acted on. */
    method TakeSignals(ghost rest: seq<P.Event>) returns (ok: bool, ghost handled: seq<SignalInfo>)
      requires Valid() && auto.pc == P.Dispatch([P.SignalReady] + rest)
      modifies `auto, `acts, `heard, `state, `listening, `clients, `ids
      modifies system`watched, system`sockets, system`listenWatched, system`pendingSignals, system`laterSignals,
          system`delivered, system`faults
      modifies system`refusals
      ensures if ok then Valid() && auto.pc == P.Dispatch(rest) else Dead() && ClientsDescribed()
      ensures ok ==>
        && handled + system.laterSignals == old(system.pendingSignals + system.laterSignals)
            && system.pendingSignals == []
        && P.ReaderGone !in Classified(handled)
        && state == if P.Shutdown in Classified(handled) then P.Draining else old(state)
      ensures clients.Values <= old(clients.Values)
      ensures system.delivered == old(system.delivered) + handled && system.faults >= old(system.faults)
      ensures ok <==> system.faults == old(system.faults) && !EndOf(readerPid, handled)
      ensures ok && (SigInt in handled || SigTerm in handled) ==> state.Draining?
      ensures ok && state != old(state) ==> SigInt in handled || SigTerm in handled
      ensures system.refusals >= old(system.refusals)
      ensures ok && state.Running? ==> clients == old(clients)
    {
      hide Base, ClientsOk, EpollOk, Linked, Lasting, Room, EndOf, Dead, Classified, Kinds;
      OpenClients();
      var shutdownRequested, readerTerminated;
      ok, shutdownRequested, readerTerminated, handled := ReadSignals();
      if !ok {
        SignalsFailed(Classified(handled), rest);
        return;
      }
      ok := ActOnSignals(shutdownRequested, readerTerminated, Classified(handled), rest);
    }

    function Kinds(events: seq<EpollEvent>): seq<P.Event> {
      if events == [] then [] else [KindOf(events[0].fd)] + Kinds(events[1..])
    }

    lemma NextKind(events: seq<EpollEvent>, i: nat)
      requires i < |events|
      ensures Kinds(events[i..]) == [KindOf(events[i].fd)] + Kinds(events[i + 1..])
    {
      assert events[i..][1..] == events[i + 1..];
    }

    /** An error is reported of a descriptor of the server's own. */
    predicate IsError(e: EpollEvent) {
      e.hangup && (e.fd == listener || e.fd == spaceReadyFd || e.fd == signalFd)
    }

    ghost predicate SomeError(events: seq<EpollEvent>) { exists e :: e in events && IsError(e) }

    /** Why the server may give up: a call failed since `before` had, an error was reported, or the end of
        the reader was delivered. */
    ghost predicate Troubled(before: nat, error: bool)
      reads dataReady`refused, spaceReady`refused, system`refusals, system`faults, system`delivered
    {
      Faults() > before || error || EndOf(readerPid, system.delivered)
    }

    lemma TroubledBefore(before: nat, later: nat, error: bool)
      requires Troubled(later, error) && before <= later
      ensures Troubled(before, error)
    {}

    lemma EndDelivered(before: seq<SignalInfo>, handled: seq<SignalInfo>)
      requires EndOf(readerPid, handled)
      ensures EndOf(readerPid, before + handled)
    {}

    /** `handleEvent` and the test for the signal descriptor before it. */
    method HandleEvent(e: EpollEvent, ghost rest: seq<P.Event>) returns (ok: bool)
      requires Valid() && auto.pc == P.Dispatch([KindOf(e.fd)] + rest) && (e.input || e.hangup)
      modifies this, clients.Values, ring`head, ring`tail, ring`world, ring`producerTape, ring`consumerTape, ring.layout
      modifies system`watched, system`sockets, system`listenWatched, system`listenInput, system`pendingSignals
      modifies system`laterSignals, system`waiting, system`backlog, system`arrived, system`connection, system`finished
      modifies system`blocked, system`refusals, system`faults, system`delivered, dataReady`refused, spaceReady`refused
      ensures if ok then Valid() && auto.pc == P.Dispatch(rest) else Dead() && ClientsDescribed()
      ensures fresh(clients.Values - old(clients.Values))
      ensures Faults() >= old(Faults()) && (!ok ==> Troubled(old(Faults()), IsError(e)))
      ensures ok && state.Running? ==> forall f :: f in old(clients) && f != e.fd ==> f in clients
      ensures ok && old(state).Draining? ==> state.Draining?
      ensures dataReady.refused >= old(dataReady.refused)
    {
      hide Valid, Dead, Sizes, EndOf, AllAdmitted, Classified, Over;
      if e.fd == signalFd {
        ghost var handled;
        ok, handled := HandleSignalEvent(e, rest);
        if EndOf(readerPid, handled) {
          EndDelivered(old(system.delivered), handled);
        }
      } else if listening && e.fd == listener {
        ok := HandleListenEvent(e, rest);
      } else if e.fd == spaceReadyFd {
        ok := HandleSpaceEvent(e, rest);
      } else {
        ok := HandleClientEvent(e, rest);
      }
    }

    /** The events of one wait, in the order reported. */
    method HandleEvents(events: seq<EpollEvent>) returns (ok: bool)
      requires Valid() && auto.pc == P.Dispatch(Kinds(events))
      requires forall i :: 0 <= i < |events| ==> events[i].input || events[i].hangup
      modifies this, clients.Values, ring`head, ring`tail, ring`world, ring`producerTape, ring`consumerTape, ring.layout
      modifies system`watched, system`sockets, system`listenWatched, system`listenInput, system`pendingSignals
      modifies system`laterSignals, system`waiting, system`backlog, system`arrived, system`connection, system`finished
      modifies system`blocked, system`refusals, system`faults, system`delivered, dataReady`refused, spaceReady`refused
      ensures if ok then Valid() && auto.pc == P.Dispatch([]) else Dead() && ClientsDescribed()
      ensures fresh(clients.Values - old(clients.Values))
      ensures Faults() >= old(Faults()) && (!ok ==> Troubled(old(Faults()), SomeError(events)))
      ensures ok && state.Running? ==>
        forall f :: f in old(clients) && (forall e :: e in events ==> e.fd != f) ==> f in clients
      ensures dataReady.refused >= old(dataReady.refused)
    {
      hide Valid, Dead, Kinds, KindOf, IsError, Faults, Troubled;
      ok := true;
      var i := 0;
      assert events[0..] == events;
      while i < |events|
        invariant i <= |events| && Valid() && auto.pc == P.Dispatch(Kinds(events[i..]))
        invariant dataReady.refused >= old(dataReady.refused)
        invariant Faults() >= old(Faults())
        invariant state.Running? ==>
          forall f :: f in old(clients) && (forall e :: e in events ==> e.fd != f) ==> f in clients
        invariant fresh(clients.Values - old(clients.Values))
      {
        NextKind(events, i);
        ghost var before := Faults();
        ok := HandleEvent(events[i], Kinds(events[i + 1..]));
        if !ok {
          OneError(old(Faults()), before, events, i);
          return;
        }
        assert events[i] in events;
        i := i + 1;
      }
      NoKinds(events[i..]);
    }

    lemma OneError(before: nat, later: nat, events: seq<EpollEvent>, i: nat)
      requires i < |events| && Troubled(later, IsError(events[i])) && before <= later
      ensures Troubled(before, SomeError(events))
    {
      assert events[i] in events;
    }

    lemma ErrorReported(before: nat, reports: seq<EpollEvent>, events: seq<EpollEvent>)
      requires Troubled(before, SomeError(events))
      ensures Troubled(before, SomeError(reports + events))
    {
      if e :| e in events && IsError(e) {
        assert e in reports + events;
      }
    }

    lemma NoKinds(events: seq<EpollEvent>)
      requires events == []
      ensures Kinds(events) == []
    {}

    /** The empty check of a draining server. */
    method EmptyCheck() returns (empty: bool, ghost pending: nat)
      requires Base() && auto.pc.Top? && auto.mode.Draining?
      modifies `auto, `acts, ring`tail, ring`world, ring`producerTape, ring`consumerTape
      ensures Base() && auto == old(auto).(pc := if empty then P.Stopped(true) else P.Waiting)
      ensures empty ==> ring.world.head <= ring.world.tail
      ensures ring.producerTape == old(ring.producerTape) + [Size(pending)] && (empty <==> pending == 0)
    {
      hide Reaches, Visible, LastCall, SignalsRead, EventsTaken, RingOk, History, Sizes;
      Move(P.Quiet, auto.(pc := P.EmptyCheck));
      Move(P.CallSize, auto);
      var size := PendingFrames();
      pending := size;
      empty := size == 0;
      Move(P.ReturnSize(size), auto.(pc := if size == 0 then P.Stopped(true) else P.Waiting));
    }

    /** A server that is not draining goes straight to `epoll_wait`. */
    method BeforeWait() returns (finished: bool)
      requires Valid() && auto.pc.Top?
      modifies `auto, `acts, ring`tail, ring`world, ring`producerTape, ring`consumerTape
      ensures finished ==> Base() && Handled() && ClientsDescribed() && auto.pc == P.Stopped(true) && state.Draining?
      ensures finished ==> ring.world.head <= ring.world.tail
      ensures !finished ==> Valid() && auto.pc.Waiting?
    {
      OpenClients();
      hide Base, ClientsOk, EpollOk, Linked, Handled, Lasting, Room;
      if !state.Draining? {
        StartWaiting();
        return false;
      }
      ghost var pending;
      finished, pending := EmptyCheck();
    }

    ghost method StartWaiting()
      requires Valid() && auto.pc.Top? && auto.mode.Running?
      modifies `auto, `acts
      ensures Valid() && auto == old(auto).(pc := P.Waiting)
    {
      hide Reaches, Visible, LastCall, SignalsRead, EventsTaken, RingOk, History, ClientsOk, EpollOk, Sizes;
      Move(P.Quiet, auto.(pc := P.Waiting));
    }

    ghost method WokenBy(events: seq<EpollEvent>)
      requires Base() && auto.pc.Waiting? && events != []
      modifies `auto, `acts, `taken
      ensures Base() && auto == old(auto).(pc := P.Dispatch(Kinds(events))) && taken == old(taken) + Kinds(events)
    {
      hide Reaches, Visible, LastCall, SignalsRead, EventsTaken, RingOk, History, Sizes;
      Move(P.Wake(Kinds(events)), auto.(pc := P.Dispatch(Kinds(events))));
      taken := taken + Kinds(events);
    }

    ghost method RoundOver()
      requires Valid() && auto.pc == P.Dispatch([])
      modifies `auto, `acts
      ensures Valid() && auto == old(auto).(pc := P.Top)
    {
      hide Reaches, Visible, LastCall, SignalsRead, EventsTaken, RingOk, History, ClientsOk, EpollOk, Sizes;
      Move(P.Quiet, auto.(pc := P.Top));
    }

    ghost method WaitFails()
      requires Valid() && auto.pc.Waiting?
      modifies `auto, `acts
      ensures Dead() && ClientsDescribed()
    {
      hide Reaches, Visible, LastCall, SignalsRead, EventsTaken, RingOk, History, EpollOk, Sizes;
      OpenClients();
      hide ClientsOk;
      Fail();
    }

    /** `epoll_wait`: all events that it returns are taken up. */
    method Await() returns (r: Wait)
      requires Valid() && auto.pc.Waiting?
      modifies `auto, `acts, `taken
      modifies system`waits, system`pendingSignals, system`laterSignals, system`reports, system`faults
      ensures Valid() && system.reports == old(system.reports) + if r.Ready? then r.events else []
      ensures Faults() == old(Faults()) + if r.WaitFailed? then 1 else 0
      ensures auto.pc == if r.Ready? then P.Dispatch(Kinds(r.events)) else P.Waiting
      ensures r.Ready? ==>
        && system.waits < old(system.waits) && r.events != []
        && forall i :: 0 <= i < |r.events| ==> r.events[i].input || r.events[i].hangup
    {
      hide Base, ClientsOk, EpollOk, Linked, Lasting, Room, Kinds, Classified;
      r := system.WaitForEvents();
      if r.Ready? {
        WokenBy(r.events);
        KindsJoin(old(system.reports), r.events);
      } else {
        assert old(system.reports) + [] == old(system.reports);
      }
    }

    lemma {:induction false} KindsJoin(a: seq<EpollEvent>, b: seq<EpollEvent>)
      ensures Kinds(a + b) == Kinds(a) + Kinds(b)
    {
      if a == [] {
        assert a + b == b && [] + Kinds(b) == Kinds(b);
      } else {
        KindsJoin(a[1..], b);
        assert (a + b)[1..] == a[1..] + b && (a + b)[0] == a[0];
        var first := [KindOf(a[0].fd)];
        assert Kinds(a + b) == first + Kinds((a + b)[1..]) && Kinds(a) == first + Kinds(a[1..]);
        hide Kinds, KindOf;
        assert first + (Kinds(a[1..]) + Kinds(b)) == first + Kinds(a[1..]) + Kinds(b);
      }
    }

    lemma DeadMeans()
      requires Dead()
      ensures Base() && Handled() && auto.pc == P.Stopped(false)
    {}

    lemma FaultTroubles(before: nat, error: bool)
      requires Faults() > before
      ensures Troubled(before, error)
    {}

    /** One round of the event loop. */
    method Round() returns (running: bool, success: bool)
      requires Valid() && auto.pc.Top?
      modifies this, clients.Values, ring`head, ring`tail, ring`world, ring`producerTape, ring`consumerTape, ring.layout
      modifies system`watched, system`sockets, system`listenWatched, system`listenInput, system`pendingSignals
      modifies system`laterSignals, system`waiting, system`backlog, system`arrived, system`connection, system`finished
      modifies system`blocked, system`refusals, system`faults, system`delivered, dataReady`refused, spaceReady`refused
      modifies system`waits, system`reports
      ensures fresh(clients.Values - old(clients.Values))
      ensures running ==> Valid() && auto.pc.Top? && system.waits < old(system.waits)
      ensures !running ==> Base() && Handled() && ClientsDescribed() && auto.pc == P.Stopped(success)
      ensures !running && success ==> state.Draining? && ring.world.head <= ring.world.tail
      ensures Faults() >= old(Faults()) && (!running && !success ==> Troubled(old(Faults()), SomeError(system.reports)))
      ensures dataReady.refused >= old(dataReady.refused)
    {
      hide *;
      var finished := BeforeWait();
      if finished {
        return false, true;
      }
      running := HandleOneWait();
      success := false;
    }

    method HandleOneWait() returns (running: bool)
      requires Valid() && auto.pc.Waiting?
      modifies this, clients.Values, ring`head, ring`tail, ring`world, ring`producerTape, ring`consumerTape, ring.layout
      modifies system`watched, system`sockets, system`listenWatched, system`listenInput, system`pendingSignals
      modifies system`laterSignals, system`waiting, system`backlog, system`arrived, system`connection, system`finished
      modifies system`blocked, system`refusals, system`faults, system`delivered, dataReady`refused, spaceReady`refused
      modifies system`waits, system`reports
      ensures fresh(clients.Values - old(clients.Values))
      ensures running ==> Valid() && auto.pc.Top? && system.waits < old(system.waits)
      ensures !running ==> Base() && Handled() && ClientsDescribed() && auto.pc == P.Stopped(false)
      ensures Faults() >= old(Faults()) && (!running ==> Troubled(old(Faults()), SomeError(system.reports)))
      ensures dataReady.refused >= old(dataReady.refused)
    {
      hide *;
      ghost var reports := system.reports;
      var r := Await();
      if r.WaitFailed? {
        FaultTroubles(old(Faults()), SomeError(system.reports));
        WaitFails();
        DeadMeans();
        return false;
      }
      running := HandleEvents(r.events);
      if running {
        RoundOver();
      } else {
        DeadMeans();
        ErrorReported(old(Faults()), reports, r.events);
      }
    }

    /** What `run` borrows: an empty ring of the built size, and a system without clients. */
    ghost predicate Ready()
      reads this, ring, ring.layout, system
    {
      && RingOk() && DescriptorsOk() && Spsc.Init(Sizes().cap, ring.world)
      && clients == map[] && ids == map[] && received == [] && sources == [] && acts == [] && auto == Start()
      && system.sockets == map[] && system.watched == {} && system.arrived == []
      && heard == [] && system.delivered == [] && taken == [] && system.reports == []
      && ring.producerTape == [] && Wired()
    }

    /** Listener, eventfd and signalfd are put into epoll, or the run ends before it began. */
    method Listen() returns (ok: bool)
      requires Ready()
      modifies `listening, `state, `ingressPaused, system`listenInput, system`listenWatched, system`ownWatched
      modifies system`refusals
      ensures Base() && Handled() && ClientsDescribed() && if ok then Valid() && auto.pc.Top? else auto == Start()
      ensures ok ==> spaceReadyFd in system.ownWatched && signalFd in system.ownWatched
      ensures system.refusals == old(system.refusals) + if ok then 0 else 1
      ensures Faults() >= old(Faults()) && (ok || forall error :: Troubled(old(Faults()), error))
    {
      hide Reaches, Visible, LastCall, SignalsRead, EventsTaken, RingOk, Sizes, Kinds, Classified;
      Started();
      hide Follows, History, ClientsOk, Handled, Lasting, Linked;
      ok := WatchOwn();
      if ok {
        listening, state, ingressPaused := true, P.Running, false;
      }
    }

    method WatchOwn() returns (ok: bool)
      modifies system`listenInput, system`listenWatched, system`ownWatched, system`refusals
      ensures ok ==> spaceReadyFd in system.ownWatched && signalFd in system.ownWatched
      ensures ok ==> system.listenWatched && system.listenInput
      ensures system.refusals == old(system.refusals) + if ok then 0 else 1
    {
      var added := system.AddListener();
      if !added.Done? {
        return false;
      }
      added := system.AddOwn(spaceReadyFd);
      if !added.Done? {
        return false;
      }
      added := system.AddOwn(signalFd);
      ok := added.Done?;
    }

    method EventLoop() returns (success: bool)
      requires Valid() && auto.pc.Top?
      modifies this, clients.Values, ring`head, ring`tail, ring`world, ring`producerTape, ring`consumerTape, ring.layout
      modifies system`watched, system`sockets, system`listenWatched, system`listenInput, system`pendingSignals
      modifies system`laterSignals, system`waiting, system`backlog, system`arrived, system`connection, system`finished
      modifies system`blocked, system`refusals, system`faults, system`delivered, dataReady`refused, spaceReady`refused
      modifies system`waits, system`reports
      ensures Base() && Handled() && ClientsDescribed() && auto.pc == P.Stopped(success)
      ensures success ==> state.Draining? && ring.world.head <= ring.world.tail
      ensures Faults() >= old(Faults()) && (!success ==> Troubled(old(Faults()), SomeError(system.reports)))
      ensures dataReady.refused >= old(dataReady.refused)
    {
      hide Valid, Base;
      success := false;
      var running := true;
      while running
        invariant running ==> Valid() && auto.pc.Top?
        invariant !running ==> Base() && Handled() && ClientsDescribed() && auto.pc == P.Stopped(success)
        invariant !running && success ==> state.Draining? && ring.world.head <= ring.world.tail
        invariant fresh(clients.Values - old(clients.Values))
        invariant dataReady.refused >= old(dataReady.refused)
        invariant Faults() >= old(Faults())
        invariant !running && !success ==> Troubled(old(Faults()), SomeError(system.reports))
        decreases running, system.waits
      {
        running, success := Round();
      }
    }

    /** What a run leaves, if it got as far as its loop: success means that SIGINT or SIGTERM was
        delivered and no end of the reader was, and that the ring had been emptied; either way the
        frames of each connection in the ring are the maximal valid prefix of all it sent. */
    ghost predicate Ended(success: bool)
      reads `auto, `state, `sources, ring`world, system`arrived, system`delivered
    {
      && History(ring.world.log, sources, system.arrived)
      && (if success then
            && auto.pc == P.Stopped(true) && state.Draining? && ring.world.head <= ring.world.tail
            && (SigInt in system.delivered || SigTerm in system.delivered)
            && !EndOf(readerPid, system.delivered)
          else auto == Start() || auto.pc == P.Stopped(false))
    }

    /** `run`. */
    method Run() returns (success: bool)
      requires Ready()
      modifies this, ring`head, ring`tail, ring`world, ring`producerTape, ring`consumerTape, ring.layout, system
      modifies dataReady`refused, spaceReady`refused
      ensures Base() && clients == map[] && !listening && !system.listenWatched && Ended(success)
      ensures success || Troubled(old(Faults()), SomeError(system.reports))
      ensures dataReady.refused >= old(dataReady.refused)
      ensures Faults() >= old(Faults())
    {
      hide *;
      success := Serve();
      Finish();
    }

    /** `run`, up to the closing of what is left over. */
    method Serve() returns (success: bool)
      requires Ready()
      modifies this, ring`head, ring`tail, ring`world, ring`producerTape, ring`consumerTape, ring.layout, system
      modifies dataReady`refused, spaceReady`refused
      ensures Base() && ClientsDescribed() && Ended(success)
      ensures success || Troubled(old(Faults()), SomeError(system.reports))
      ensures dataReady.refused >= old(dataReady.refused)
      ensures Faults() >= old(Faults())
    {
      NoBuffers();
      hide *;
      success := Listen();
      if success {
        ghost var later := Faults();
        success := EventLoop();
        WhyItEnds(success);
        if !success {
          TroubledBefore(old(Faults()), later, SomeError(system.reports));
        }
      } else {
        NotBegun();
      }
    }

    lemma WhyItEnds(success: bool)
      requires Base() && Handled() && auto.pc == P.Stopped(success)
      requires success ==> state.Draining? && ring.world.head <= ring.world.tail
      ensures Ended(success)
    {
      hide Reaches, Visible, LastCall, SignalsRead, EventsTaken, RingOk, History;
      SignalsDecide(acts, auto);
      if success {
        ClassifiedMeans(system.delivered);
      }
    }

    lemma NotBegun()
      requires Base() && Handled() && auto == Start()
      ensures Ended(false)
    {}

    lemma NoBuffers()
      requires Ready()
      ensures clients.Values == {}
    {}

    lemma Started()
      requires Ready()
      ensures Handled() && Lasting(ids, system.finished) && ids == map[] && Linked(ids, system.connection)
      ensures Base() && ClientsOk(clients, ids, received) && ring.world.head == ring.world.tail == 0
              && Sizes().pause > 0
    {}

    /** The clients left over are closed. */
    method Finish()
      requires Base() && ClientsDescribed()
      modifies `clients, `ids, system`watched, system`sockets, `listening, system`listenWatched
      modifies system`refusals
      ensures Base() && clients == map[] && !listening && !system.listenWatched
      ensures forall before, error :: old(Troubled(before, error)) ==> Troubled(before, error)
      ensures Faults() >= old(Faults())
    {
      hide Reaches, Visible, LastCall, SignalsRead, EventsTaken, RingOk, History;
      RemoveAllClients();
      system.CloseListener();
      listening := false;
    }
  }

  lemma OneGone(all: set<nat>, gone: set<nat>, fd: nat)
    ensures all - gone - {fd} == all - (gone + {fd})
  {}

  /** The last connection has no client yet, and has sent nothing. */
  ghost predicate LastIsNew(ids: map<nat, nat>, received: seq<seq<Byte>>) {
    |received| > 0 && received[|received| - 1] == [] && forall f :: f in ids ==> ids[f] < |received| - 1
  }

  lemma WithNewcomer(clients: map<nat, Buffer>, ids: map<nat, nat>, received: seq<seq<Byte>>, fd: nat, b: Buffer)
    requires ClientsOk(clients, ids, received) && LastIsNew(ids, received)
    requires fd !in clients && b !in clients.Values && b.data == [] && b.offset == 0
    ensures ClientsOk(clients[fd := b], ids[fd := |received| - 1], received)
  {
    assert ClientOk(b, []);
    InjectiveAdd(clients, fd, b);
    InjectiveAdd(ids, fd, |received| - 1);
    hide ClientOk, Injective;
  }

  lemma OneClient(clients: map<nat, Buffer>, ids: map<nat, nat>, received: seq<seq<Byte>>, fd: nat)
    requires ClientsOk(clients, ids, received) && fd in clients
    ensures clients.Keys == ids.Keys && ids[fd] < |received| && ClientOk(clients[fd], received[ids[fd]])
    ensures clients[fd].offset <= |clients[fd].data| && OthersOk(clients, ids, received, fd)
  {}

  lemma SameKeys(clients: map<nat, Buffer>, ids: map<nat, nat>, received: seq<seq<Byte>>, fd: nat)
    requires OthersOk(clients, ids, received, fd)
    ensures clients.Keys == ids.Keys
  {}

  lemma WithoutClient(ids: map<nat, nat>, connection: map<nat, nat>, finished: set<nat>, clients: set<nat>,
                      watched: set<nat>, listening: bool, listenWatched: bool, listenInput: bool, fd: nat)
    ensures Linked(ids, connection) ==> Linked(ids - {fd}, connection)
    ensures Lasting(ids, finished) ==> Lasting(ids - {fd}, finished)
    ensures EpollOk(P.Running, false, listening, clients, watched, listenWatched, listenInput) ==>
      EpollOk(P.Running, false, listening, clients - {fd}, watched - {fd}, listenWatched, listenInput)
  {}

  lemma KeptClient(b: Buffer, bytes: seq<Byte>)
    requires b.Unread() == Rest(bytes) && b.offset <= |b.data|
    ensures !Malformed(bytes) && |b.data| < 4096 + |b.Unread()| ==> ClientOk(b, bytes)
  {}
}