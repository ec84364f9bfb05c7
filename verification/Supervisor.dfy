/** The end of `main`: close the producer, wake the reader or kill it, wait for it, combine results. */
module Supervisor {
  import opened Codec
  import opened Spsc
  import opened SharedRing
  import opened Kernel

  datatype ChildStatus = ExitedWith(code: nat) | KilledBySignal | EndedOtherwise | WaitPidFailed

  class Child {
    var killed: bool
    ghost var waited: bool
    const status: ChildStatus      // what waitpid will answer

    constructor (status: ChildStatus)
      ensures this.status == status && !killed && !waited
    {
      this.status := status;
      killed, waited := false, false;
    }

    method Kill()
      modifies `killed
      ensures killed
    {
      killed := true;
    }

    /** `waitpid`. */
    method Wait() returns (s: ChildStatus)
      modifies `waited
      ensures waited && s == status
    {
      waited := true;
      s := status;
    }
  }

  /** The producer's tape shows the close before the notice, so a reader that is woken finds the producer
      closed.  Exit code zero needs the server's success, the notice, and the reader's exit code 0. */
  method Shutdown(ring: SharedRingBuffer<Frame>, dataReady: EventFd, reader: Child, serverOk: bool)
    returns (exitOk: bool, ghost notified: bool)
    requires ring.Valid() && ring.layout != null && !ProducerBusy(ring.world)
    requires dataReady.ring == ring && dataReady.ofProducer
    modifies ring`closedFlag, ring`world, ring`producerTape, ring`consumerTape, reader, dataReady`refused
    ensures ring.Valid() && ring.world == old(ring.world).(closed := true, p := PIdle)
    ensures ring.producerTape == old(ring.producerTape) + [Close] + if notified then [Notice] else []
    ensures dataReady.refused == old(dataReady.refused) + if notified then 0 else 1
    ensures reader.killed == (old(reader.killed) || !notified)
    ensures reader.waited && (exitOk <==> serverOk && notified && reader.status == ExitedWith(0))
  {
    hide *;
    ring.CloseProducer();
    var serverResult := serverOk;
    var ok := dataReady.Notify();
    if !ok {
      serverResult := false;
      reader.Kill();
    }
    notified := ok;
    var status := reader.Wait();
    match status {
      case WaitPidFailed => exitOk := false;
      case KilledBySignal => exitOk := false;
      case EndedOtherwise => exitOk := false;
      case ExitedWith(code) => exitOk := code == 0 && serverResult;
    }
  }
}
