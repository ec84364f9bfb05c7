/** The system calls of Server and Reader: sockets, epoll, signalfd and eventfds.  Which events, bytes,
    connections and signals turn up is open; so is whether a call is refused.  What will ever arrive
    during one run is finite, but not bounded. */
module Kernel {
  import opened Codec
  import opened SharedRing

  datatype Received = Bytes(bytes: seq<Byte>) | EndOfStream | WouldBlock | RecvFailed
  datatype Accepted = NewClient(fd: nat) | NoneWaiting | AcceptFailed
  datatype EpollResult = Done | AlreadyPresent | NotPresent | Refused

  /** One entry of `epoll_wait`: EPOLLIN, and any of EPOLLRDHUP, EPOLLHUP and EPOLLERR. */
  datatype EpollEvent = EpollEvent(fd: nat, input: bool, hangup: bool)
  datatype Wait = Ready(events: seq<EpollEvent>) | WaitFailed

  datatype ChildCode = ChildExited | ChildKilled | ChildDumped | ChildStopped | ChildContinued | OtherCode
  datatype SignalInfo = SigInt | SigTerm | SigChld(pid: nat, code: ChildCode) | OtherSignalInfo
  datatype SignalRead = Info(info: SignalInfo) | NoSignal | ReadFailed

  /** An eventfd: a counter that `notifyEvent` increments and `consumeEvent` resets.  The counter itself
      is part of `Pipeline.Sys`; here each call that succeeds is put on the tape of the process that
      made it, among what that process does on the ring. */
  class EventFd {
    ghost const ring: SharedRingBuffer<Frame>
    ghost const ofProducer: bool          // notified by the producer, consumed by the consumer
    ghost var refused: nat                // the calls so far that failed

    constructor (ghost ring: SharedRingBuffer<Frame>, ghost ofProducer: bool)
      ensures this.ring == ring && this.ofProducer == ofProducer && refused == 0
    {
      this.ring, this.ofProducer, refused := ring, ofProducer, 0;
    }

    method Notify() returns (ok: bool)
      requires ring.Valid()
      modifies `refused, ring`producerTape, ring`consumerTape
      ensures ring.Valid() && refused == old(refused) + if ok then 0 else 1
      ensures ring.producerTape == old(ring.producerTape) + if ok && ofProducer then [Notice] else []
      ensures ring.consumerTape == old(ring.consumerTape) + if ok && !ofProducer then [Notice] else []
    {
      hide SharedRingBuffer.Valid;
      ok := *;
      if ok {
        Recorded(Notice, ofProducer);
      } else {
        refused := refused + 1;
      }
    }

    method Consume() returns (ok: bool)
      requires ring.Valid()
      modifies `refused, ring`producerTape, ring`consumerTape
      ensures ring.Valid() && refused == old(refused) + if ok then 0 else 1
      ensures ring.producerTape == old(ring.producerTape) + if ok && !ofProducer then [Woken] else []
      ensures ring.consumerTape == old(ring.consumerTape) + if ok && ofProducer then [Woken] else []
    {
      hide SharedRingBuffer.Valid;
      ok := *;
      if ok {
        Recorded(Woken, !ofProducer);
      } else {
        refused := refused + 1;
      }
    }

    ghost method Recorded(e: RingEvent<Frame>, byProducer: bool)
      requires ring.Valid() && !e.Push?
      modifies ring`producerTape, ring`consumerTape
      ensures ring.Valid()
      ensures ring.producerTape == old(ring.producerTape) + if byProducer then [e] else []
      ensures ring.consumerTape == old(ring.consumerTape) + if byProducer then [] else [e]
    {
      hide SharedRingBuffer.Valid;
      if byProducer {
        ring.RecordProducer(e);
      } else {
        ring.RecordConsumer(e);
      }
    }
  }

  class System {
    const reserved: set<nat>              // the listener, the eventfds, the signalfd
    var watched: set<nat>                 // client descriptors in epoll
    var listenInput: bool                 // EPOLLIN set for the listener
    var listenWatched: bool
    var ownWatched: set<nat>              // the eventfd and the signalfd, once in epoll
    var sockets: map<nat, seq<Byte>>      // open clients, and the bytes still to come from each
    var waiting: nat                      // connections that wait to be accepted
    var backlog: nat                      // connections still to come
    var pendingSignals: seq<SignalInfo>
    var laterSignals: seq<SignalInfo>     // signals still to come
    var waits: nat                        // returns of epoll_wait still to come
    ghost var delivered: seq<SignalInfo>  // what reads of the signalfd have returned, in order
    ghost var arrived: seq<seq<Byte>>     // what recv has returned, by connection in the order accepted
    ghost var connection: map<nat, nat>   // the connection of each descriptor ever accepted
    ghost var finished: set<nat>          // connections of which recv has answered the end, or an error
    ghost var blocked: set<nat>           // connections of which it last answered that nothing is there yet
    ghost var reports: seq<EpollEvent>    // all that epoll_wait has returned
    ghost var refusals: nat               // the calls of epoll_ctl that were refused
    ghost var faults: nat                 // the calls of accept4, epoll_wait and read that failed

    constructor (reserved: set<nat>)
      ensures this.reserved == reserved && watched == {} && !listenWatched && sockets == map[] && arrived == []
      ensures ownWatched == finished == blocked == {} && delivered == [] && reports == [] && refusals == faults == 0
    {
      this.reserved, watched, listenInput, listenWatched, sockets := reserved, {}, false, false, map[];
      ownWatched := {};
      waiting, backlog, pendingSignals, laterSignals, waits := *, *, *, *, *;
      delivered, arrived, connection := [], [], map[];
      finished, blocked, reports, refusals, faults := {}, {}, [], 0, 0;
    }

    method Add(fd: nat) returns (r: EpollResult)
      modifies `watched, `refusals
      ensures refusals == old(refusals) + if r.Refused? then 1 else 0
      ensures fd in old(watched) <==> r.AlreadyPresent?
      ensures !r.NotPresent?
      ensures watched == if r.Done? then old(watched) + {fd} else old(watched)
    {
      if fd in watched {
        return AlreadyPresent;
      }
      var refused := *;
      if refused {
        refusals := refusals + 1;
        return Refused;
      }
      watched := watched + {fd};
      return Done;
    }

    method Delete(fd: nat) returns (r: EpollResult)
      modifies `watched, `refusals
      ensures refusals == old(refusals) + if r.Refused? then 1 else 0
      ensures fd !in old(watched) <==> r.NotPresent?
      ensures !r.AlreadyPresent?
      ensures watched == if r.Done? then old(watched) - {fd} else old(watched)
    {
      if fd !in watched {
        return NotPresent;
      }
      var refused := *;
      if refused {
        refusals := refusals + 1;
        return Refused;
      }
      watched := watched - {fd};
      return Done;
    }

    method ModifyListener(input: bool) returns (r: EpollResult)
      modifies `listenInput, `refusals
      ensures refusals == old(refusals) + if r.Refused? then 1 else 0
      ensures !listenWatched <==> r.NotPresent?
      ensures !r.AlreadyPresent?
      ensures listenInput == if r.Done? then input else old(listenInput)
    {
      if !listenWatched {
        return NotPresent;
      }
      var refused := *;
      if refused {
        refusals := refusals + 1;
        return Refused;
      }
      listenInput := input;
      return Done;
    }

    method AddListener() returns (r: EpollResult)
      modifies `listenInput, `listenWatched, `refusals
      ensures refusals == old(refusals) + if r.Refused? then 1 else 0
      ensures if r.Done? then listenInput && listenWatched else r.Refused?
    {
      var refused := *;
      if refused || listenWatched {
        refusals := refusals + 1;
        return Refused;
      }
      listenInput, listenWatched := true, true;
      return Done;
    }

    /** ADD of the eventfd or the signalfd. */
    method AddOwn(fd: nat) returns (r: EpollResult)
      modifies `ownWatched, `refusals
      ensures refusals == old(refusals) + if r.Refused? then 1 else 0
      ensures if r.Done? then ownWatched == old(ownWatched) + {fd} else r.Refused? && ownWatched == old(ownWatched)
    {
      var refused := *;
      if refused || fd in ownWatched {
        refusals := refusals + 1;
        return Refused;
      }
      ownWatched := ownWatched + {fd};
      return Done;
    }

    method CloseListener()
      modifies `listenWatched
      ensures !listenWatched
    {
      listenWatched := false;
    }

    /** Closing the last descriptor of a socket takes it out of epoll. */
    method Close(fd: nat)
      modifies `sockets, `watched
      ensures sockets == old(sockets) - {fd} && watched == old(watched) - {fd}
    {
      sockets := sockets - {fd};
      watched := watched - {fd};
    }

    method Recv(fd: nat, limit: nat) returns (r: Received)
      requires fd in sockets && limit > 0
      requires fd in connection && connection[fd] < |arrived|
      modifies `sockets, `arrived, `finished, `blocked
      ensures var c := connection[fd];
              && finished == old(finished) + (if r.EndOfStream? || r.RecvFailed? then {c} else {})
              && blocked == if r.WouldBlock? then old(blocked) + {c} else old(blocked) - {c}
      ensures r.Bytes? ==>
        && 0 < |r.bytes| <= limit && r.bytes <= old(sockets)[fd]
        && sockets == old(sockets)[fd := old(sockets)[fd][|r.bytes|..]]
        && arrived == old(arrived)[connection[fd] := old(arrived)[connection[fd]] + r.bytes]
      ensures !r.Bytes? ==> sockets == old(sockets) && arrived == old(arrived)
    {
      var n: nat, choice: nat := *, *;
      if 0 < n <= limit && n <= |sockets[fd]| {
        r := Bytes(sockets[fd][..n]);
        sockets := sockets[fd := sockets[fd][n..]];
        arrived := arrived[connection[fd] := arrived[connection[fd]] + r.bytes];
      } else {
        r := if choice == 0 then EndOfStream else if choice == 1 then WouldBlock else RecvFailed;
      }
      ghost var c := connection[fd];
      blocked := if r.WouldBlock? then blocked + {c} else blocked - {c};
      finished := if r.EndOfStream? || r.RecvFailed? then finished + {c} else finished;
    }

    /** Any number of connections may arrive before the call.  A new descriptor is one that is not in
        use, and none waits only if the queue is empty. */
    method Accept() returns (r: Accepted)
      modifies `sockets, `waiting, `backlog, `arrived, `connection, `finished, `faults
      ensures faults == old(faults) + if r.AcceptFailed? then 1 else 0
      ensures r.NoneWaiting? ==> waiting == 0
      ensures waiting + backlog == old(waiting + backlog) - if r.NewClient? then 1 else 0
      ensures r.NewClient? ==>
        && connection == old(connection)[r.fd := |old(arrived)|] && arrived == old(arrived) + [[]]
        && finished == old(finished) - {|old(arrived)|}
        && r.fd !in old(sockets) && r.fd !in reserved
        && sockets.Keys == old(sockets).Keys + {r.fd} && forall fd :: fd in old(sockets) ==>
            sockets[fd] == old(sockets)[fd]
      ensures !r.NewClient? ==>
        sockets == old(sockets) && arrived == old(arrived) && connection == old(connection) && finished == old(finished)
    {
      var n: nat, fd: nat, bytes: seq<Byte>, fails: bool := *, *, *, *;
      if 0 <= n <= backlog {
        waiting, backlog := waiting + n, backlog - n;
      }
      if fails || (waiting > 0 && (fd in sockets || fd in reserved || fd < 0)) {
        faults := faults + 1;
        r := AcceptFailed;
      } else if waiting == 0 {
        r := NoneWaiting;
      } else {
        waiting := waiting - 1;
        sockets := sockets[fd := bytes];
        connection := connection[fd := |arrived|];
        finished := finished - {|arrived|};
        arrived := arrived + [[]];
        r := NewClient(fd);
      }
    }

    /** Any number of signals may arrive before the read. */
    method ReadSignal() returns (r: SignalRead)
      modifies `pendingSignals, `laterSignals, `delivered, `faults
      ensures faults == old(faults) + if r.ReadFailed? then 1 else 0
      ensures delivered == old(delivered) + if r.Info? then [r.info] else []
      ensures r.Info? ==> old(pendingSignals + laterSignals) == [r.info] + pendingSignals + laterSignals
      ensures r.Info? && old(pendingSignals) != [] ==> r.info == old(pendingSignals)[0]
      ensures r.NoSignal? ==> old(pendingSignals) == [] == pendingSignals && laterSignals == old(laterSignals)
      ensures |laterSignals| <= old(|laterSignals|)
    {
      SignalsArrive();
      var fails := *;
      if fails {
        faults := faults + 1;
        r := ReadFailed;
      } else if pendingSignals == [] {
        assert [] + laterSignals == laterSignals && [] + old(laterSignals) == old(laterSignals);
        r := NoSignal;
      } else {
        r := Info(pendingSignals[0]);
        delivered := delivered + [pendingSignals[0]];
        pendingSignals := pendingSignals[1..];
      }
    }

    method SignalsArrive()
      modifies `pendingSignals, `laterSignals
      ensures old(pendingSignals) <= pendingSignals
              && pendingSignals + laterSignals == old(pendingSignals + laterSignals)
    {
      var n: nat := *;
      if 0 <= n <= |laterSignals| {
        pendingSignals := pendingSignals + laterSignals[..n];
        laterSignals := laterSignals[n..];
      }
    }

    /** `epoll_wait` without a timeout: at least one event, at most one for each descriptor. */
    method WaitForEvents() returns (r: Wait)
      modifies `waits, `pendingSignals, `laterSignals, `reports, `faults
      ensures reports == old(reports) + if r.Ready? then r.events else []
      ensures faults == old(faults) + if r.WaitFailed? then 1 else 0
      ensures old(pendingSignals) <= pendingSignals
              && pendingSignals + laterSignals == old(pendingSignals + laterSignals)
      ensures r.Ready? ==>
        && waits < old(waits) && r.events != []
        && (forall i, j :: 0 <= i < j < |r.events| ==> r.events[i].fd != r.events[j].fd)
        && (forall i :: 0 <= i < |r.events| ==> r.events[i].input || r.events[i].hangup)
    {
      var events: seq<EpollEvent> := *;
      SignalsArrive();
      if waits == 0 || events == []
         || !(forall i, j | 0 <= i < j < |events| :: events[i].fd != events[j].fd)
         || !(forall i | 0 <= i < |events| :: events[i].input || events[i].hangup)
      {
        faults := faults + 1;
        return WaitFailed;
      }
      waits := waits - 1;
      reports := reports + events;
      return Ready(events);
    }
  }
}
