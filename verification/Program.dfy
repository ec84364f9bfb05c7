/** The theorems for the program as it is built: 131072 frames, pause at 98304, resume at 32768, at most
    128 frames per receive, and the telemetry codec; and the processes put together. */
module Program {
  import opened Codec
  import opened Sequences
  import opened Spsc
  import opened Interleaving
  import opened Pipeline
  import opened PipelineTheorems
  import opened PipelineProgress
  import opened PipelineDrain
  import opened BuiltSizes
  import opened SharedRing
  import opened Paths
  import opened Composition
  import Ingress
  import StorageReader
  import opened Supervisor
  import opened Kernel
  import opened Directory
  import opened FileStorage
  import M = StoreModel
  import R = Reassembly

  // ------------------------------------------------------------- every run

  /** Every frame in the ring, in any state of any run, decodes, and re-encodes to itself: the reader's
      "invalid IPC frame" exit cannot be taken. */
  lemma RingFramesDecode(run: seq<Sys<Frame>>, i: nat)
    requires IsSystemRun(Sizes(), run) && i < |run|
    ensures forall f <- run[i].ring.log :: Decode(f).Decoded? && Encoded(Decode(f).record) == f
  {
    SizesAreGood();
    StoredIsAlwaysPrefix(Sizes(), run, i);
    hide IsSystemRun, Decode, Encoded;
    forall f | f in run[i].ring.log
      ensures Decode(f).Decoded? && Encoded(Decode(f).record) == f
    {
      assert WellFormed(f);
      EncodeDecoded(f);
    }
  }

  /** The ring of the built size never overflows, and "shared ring full" cannot happen. */
  lemma RingNeverFull(run: seq<Sys<Frame>>, i: nat)
    requires IsSystemRun(Sizes(), run) && i < |run|
    ensures run[i].ring.tail <= run[i].ring.head <= run[i].ring.tail + 131072
    ensures run[i].server.pc.Pushing? && run[i].ring.p.PushReturn? ==> run[i].ring.p.pushed == |run[i].server.pc.frames|
  {
    SizesAreGood();
    hide IsSystemRun;
    PushesAreNeverCut(Sizes(), run, i);
  }

  /** With the built sizes no reachable state is stuck with work left. */
  lemma ProgramNeverStuck(run: seq<Sys<Frame>>, i: nat)
    requires IsSystemRun(Sizes(), run) && i < |run|
    requires run[i].server.pc != Stopped(false) && run[i].reader.pc != Exited(false) && ReaderGone !in run[i].signals
    ensures var s := run[i];
            || s.main.MainExit?
            || (ReaderAsleep(s) && ServerAsleep(s) && s.server.mode.Running? && !s.server.paused
                && s.reader.stored == s.ring.log)
            || exists s' :: WorkStep(Sizes(), s, s')
  {
    SizesAreGood();
    hide IsSystemRun, WorkStep;
    NeverStuck(Sizes(), run, i);
  }

  /** With the built sizes a shutdown ends with everything stored. */
  lemma ProgramEnds(run: nat -> Sys<Frame>, left: nat -> nat, i: nat) returns (j: nat)
    requires Closing(Sizes(), run(i))
    requires forall k: nat :: k >= i && !run(k).main.MainExit? ==> Proceeds(Sizes(), run, left, k)
    ensures j >= i && run(j).main.MainExit?
    ensures run(j).reader.stored == run(j).ring.log && run(j).reader.synced == |run(j).ring.log|
  {
    SizesAreGood();
    hide Closing, Proceeds;
    j := ShutdownEnds(Sizes(), run, left, i);
  }

  // ------------------------------------------------------------- the processes together

  /** The parent process: it serves, closes the producer, wakes the reader and waits for it.  Exit code
      zero needs SIGINT or SIGTERM delivered to it, and no news that the reader ended while it served. */
  method Parent(server: Ingress.Server, child: Child) returns (exitOk: bool)
    requires server.Ready()
    modifies server, server.ring`head, server.ring`tail, server.ring`closedFlag, server.ring`world
    modifies server.ring`producerTape, server.ring`consumerTape, server.ring.layout, server.system, child
    modifies server.dataReady`refused, server.spaceReady`refused
    ensures server.ring.Valid() && server.ring.world.closed && Served(server)
    ensures exitOk ==>
      && server.auto.pc == Stopped(true) && child.status == ExitedWith(0)
      && Requested(server.system.delivered, server.readerPid)
    ensures exitOk || child.status != ExitedWith(0)
            || server.Troubled(old(server.Faults()), server.SomeError(server.system.reports))
    ensures child.waited
    ensures server.dataReady.refused == old(server.dataReady.refused) ==> child.killed == old(child.killed)
  {
    ServerParts(server);
    hide *;
    var serverOk := server.Run();
    EndedParts(server, serverOk);
    exitOk := EndChild(server, child, serverOk);
  }

  /** After serving: the close, the notice and the wait. */
  method EndChild(server: Ingress.Server, child: Child, serverOk: bool) returns (exitOk: bool)
    requires server.ring.Valid() && server.ring.layout != null && !ProducerBusy(server.ring.world)
    requires server.Wired()
    modifies server.ring`closedFlag, server.ring`world, server.ring`producerTape, server.ring`consumerTape, child
    modifies server.dataReady`refused
    ensures server.ring.Valid() && server.ring.world == old(server.ring.world).(closed := true, p := PIdle)
    ensures exitOk ==> serverOk && child.status == ExitedWith(0)
    ensures exitOk || !serverOk || child.status != ExitedWith(0)
            || server.dataReady.refused > old(server.dataReady.refused)
    ensures server.Faults() == old(server.Faults()) + server.dataReady.refused - old(server.dataReady.refused)
    ensures child.waited
    ensures child.killed == (old(child.killed) || server.dataReady.refused > old(server.dataReady.refused))
    ensures server.dataReady.refused >= old(server.dataReady.refused)
  {
    hide SharedRingBuffer.Valid, Spsc.Init;
    ghost var notified;
    exitOk, notified := Supervisor.Shutdown(server.ring, server.dataReady, child, serverOk);
  }

  /** Of the signals delivered, one asked for a shutdown and none said that the reader had ended. */
  ghost predicate Requested(delivered: seq<SignalInfo>, readerPid: nat) {
    && (SigInt in delivered || SigTerm in delivered)
    && forall code :: SigChld(readerPid, code) in delivered ==>
      code != ChildExited && code != ChildKilled && code != ChildDumped
  }

  /** What the parent leaves: the frames of each connection in the ring's history are the maximal valid
      prefix of what arrived on it, and the history is what the path of the server's automaton pushed. */
  ghost predicate Served(server: Ingress.Server)
    reads server, server.ring, server.system
  {
    && History(server.ring.world.log, server.sources, server.system.arrived)
    && Ingress.Reaches(server.acts, server.auto)
    && server.ring.world.log == Published(Ingress.Visible(server.acts))
  }

  lemma ServerParts(server: Ingress.Server)
    requires server.Ready()
    ensures server.ring.layout != null
  {}

  lemma EndedParts(server: Ingress.Server, ok: bool)
    requires server.Base() && server.Ended(ok)
    ensures server.ring.Valid() && server.ring.layout != null && !ProducerBusy(server.ring.world)
    ensures server.Wired()
    ensures Served(server)
    ensures ok ==> server.auto.pc == Stopped(true) && Requested(server.system.delivered, server.readerPid)
  {
    hide Ingress.Reaches, History;
  }

  /** From the sockets to the disk.  When the parent is done and the reader has succeeded on a ring with
      the same history, the bytes stored after what was there can be cut into frames in one way, and the
      frames of each connection among them are exactly the maximal valid prefix of what it sent.  All of
      it is durable, and unless a rename replaced a file, it is all that the directory holds. */
  lemma EndToEnd(server: Ingress.Server, reader: StorageReader.Reader)
    requires server.ring.world.log == reader.ring.world.log && reader.Ended(StorageReader.Success) && Served(server)
    ensures var stream := M.Stream(reader.store.view);
            && stream == reader.base + Flatten(server.ring.world.log)
            && (var stored := R.Frames(stream[|reader.base|..]);
                && |stored| == |server.sources|
                && forall c :: 0 <= c < |server.system.arrived| ==>
                     Select(stored, server.sources, c) == R.Frames(server.system.arrived[c]))
    ensures AllDurable(reader)
  {
    reader.CompleteStream();
    var log := server.ring.world.log;
    HistoryIsReadable(log, server.sources, server.system.arrived);
    var stream := M.Stream(reader.store.view);
    hide M.Stream, Flatten, R.Frames;
    assert stream[|reader.base|..] == Flatten(log);
  }

  /** The last fdatasync of the active file covered all of it; and unless a rename replaced a file, the
      directory holds the store's stream, and every archive of the run is durable to its last byte. */
  ghost predicate AllDurable(reader: StorageReader.Reader)
    reads reader, reader.store, reader.store.disk
  {
    var disk := reader.store.disk;
    && FileDurable(disk.Now(), disk.durable, reader.file)
    && (!disk.clobbered ==>
         && Raw(disk.Now(), reader.file) == M.Stream(reader.store.view)
         && ArchivesDurable(disk.Now(), disk.durable, reader.archived))
  }

  // ------------------------------------------------------------- two objects, one system

  /** In the middle of a push, the frames published that the server does not know of yet. */
  ghost function Unreturned(p: Producer<Frame>, called: seq<Frame>): seq<Frame> {
    if p.PushReturn? && p.pushed <= |called| then called[..p.pushed] else []
  }

  /** The ring's history is what the server's actions so far pushed. */
  ghost predicate InStep(ring: State<Frame>, acts: seq<Ingress.Act>) {
    && ring.log == Published(Ingress.Visible(acts)) + Unreturned(ring.p, Ingress.LastCall(acts))
    && (match ring.p
        case PushClosed(fs) => fs == Ingress.LastCall(acts)
        case PushHead(fs) => fs == Ingress.LastCall(acts)
        case PushTail(fs, _) => fs == Ingress.LastCall(acts)
        case PushCopy(fs, _, count, _) => fs == Ingress.LastCall(acts) && count <= |fs|
        case PushReturn(n) => n <= |Ingress.LastCall(acts)|
        case _ => true)
  }

  /** What one more action publishes. */
  lemma PublishedBy(acts: seq<Ingress.Act>, a: Ingress.Act)
    requires a.ReturnPush? ==> a.pushed <= |Ingress.LastCall(acts)|
    ensures Ingress.LastCall(acts + [a]) == if a.CallPush? then a.frames else Ingress.LastCall(acts)
    ensures Published(Ingress.Visible(acts + [a]))
         == Published(Ingress.Visible(acts)) + if a.ReturnPush? then Ingress.LastCall(acts)[..a.pushed] else []
  {
    assert Earlier(acts + [a]) == acts;
    var tape, called := Ingress.Visible(acts), Ingress.LastCall(acts);
    var shown := Ingress.Shown(called, a);
    assert Ingress.Visible(acts + [a]) == tape + shown;
    hide Published, Ingress.Visible, Ingress.LastCall;
    if shown == [] {
      assert tape + shown == tape;
    } else {
      PublishedNext(tape, shown[0]);
    }
    assert Published(tape) + [] == Published(tape);
  }

  lemma ServerTurnInStep(s: Sys<Frame>, acts: seq<Ingress.Act>, a: Ingress.Act, s': Sys<Frame>)
    requires InStep(s.ring, acts) && ServerEffect(s, a, s')
    ensures InStep(s'.ring, acts + [a])
  {
    hide Published, Ingress.Visible, Ingress.LastCall;
    PublishedBy(acts, a);
    var published := Published(Ingress.Visible(acts));
    assert published + [] == published;
  }

  lemma OtherTurnInStep(s: Sys<Frame>, acts: seq<Ingress.Act>, t: Turn<Frame>, s': Sys<Frame>)
    requires InStep(s.ring, acts) && Effect(Sizes(), s, t, s') && !t.ServerTurn?
    ensures InStep(s'.ring, acts)
  {
    hide Sizes, Published;
    var published := Published(Ingress.Visible(acts));
    assert published + [] == published;
  }

  /** In every schedule the ring's history is what the server's part of it pushed. */
  lemma {:induction false} ScheduleInStep(turns: seq<Turn<Frame>>, world: seq<Sys<Frame>>)
    requires Schedule(Sizes(), turns, world)
    ensures InStep(world[|turns|].ring, ServerActs(turns))
    decreases |turns|
  {
    if turns != [] {
      var n := |turns| - 1;
      EarlierSchedule(Sizes(), turns, world);
      ScheduleInStep(Earlier(turns), Earlier(world));
      hide InStep, Effect, Sizes;
      var acts := ServerActs(Earlier(turns));
      if turns[n].ServerTurn? {
        ServerTurnInStep(world[n], acts, turns[n].sa, world[n + 1]);
      } else {
        OtherTurnInStep(world[n], acts, turns[n], world[n + 1]);
        assert acts + [] == acts;
      }
    }
  }

  /** The server and the reader have done their parts of this schedule. */
  ghost predicate Scheduled(server: Ingress.Server, reader: StorageReader.Reader, turns: seq<Turn<Frame>>,
                            world: seq<Sys<Frame>>)
    reads server, reader
  {
    && Schedule(Sizes(), turns, world) && Agrees(turns, server.auto, reader.auto)
    && ServerActs(turns) == server.acts && ReaderActs(turns) == reader.acts
  }

  /** The two objects are a run of the system, whatever the order in which they took their turns. */
  lemma ObjectsJoin(server: Ingress.Server, reader: StorageReader.Reader, turns: seq<Turn<Frame>>,
                    world: seq<Sys<Frame>>)
    returns (run: seq<Sys<Frame>>)
    requires Scheduled(server, reader, turns, world) && Served(server) && reader.Base()
    ensures IsSystemRun(Sizes(), run) && |run| == |world|
    ensures run[|turns|] == At(world[|turns|], server.auto, Finally(turns, reader.auto))
  {
    hide Sizes, IsPath, Schedule;
    run := Join(Sizes(), turns, world, server.auto, reader.auto);
  }

  /** Exit code zero, of the two objects in any order of their turns: one shutdown was requested, no end
      of the reader read, and what each connection sent, up to its first malformed frame, is stored after
      what was there, in order, durably, and nothing else. */
  lemma ExitZero(server: Ingress.Server, reader: StorageReader.Reader, exit: StorageReader.Exit,
                 turns: seq<Turn<Frame>>, world: seq<Sys<Frame>>)
    requires Scheduled(server, reader, turns, world) && world[|turns|].main == MainExit(true)
    requires Served(server) && reader.Ended(exit) && !exit.StillRunning?
    ensures Shutdown in world[|turns|].processed && ReaderGone !in world[|turns|].processed
    ensures var stream := M.Stream(reader.store.view);
            && stream == reader.base + Flatten(server.ring.world.log)
            && (var stored := R.Frames(stream[|reader.base|..]);
                && |stored| == |server.sources|
                && forall c :: 0 <= c < |server.system.arrived| ==>
                     Select(stored, server.sources, c) == R.Frames(server.system.arrived[c]))
    ensures AllDurable(reader)
  {
    var n := |turns|;
    ReaderParts(reader, exit);
    ScheduleInStep(turns, world);
    var run := ObjectsJoin(server, reader, turns, world);
    SizesAreGood();
    SuccessMeansEverythingStored(Sizes(), run, n);
    StoppedIsIdle(run, n);
    hide *;
    HistoryInStep(server, world[n].ring);
    ReaderSucceeded(reader, exit);
    EndToEnd(server, reader);
  }

  lemma ReaderParts(reader: StorageReader.Reader, exit: StorageReader.Exit)
    requires reader.Ended(exit)
    ensures reader.Base()
  {}

  lemma StoppedIsIdle(run: seq<Sys<Frame>>, i: nat)
    requires IsSystemRun(Sizes(), run) && i < |run| && run[i].server.pc.Stopped?
    ensures run[i].ring.p.PIdle?
  {
    SizesAreGood();
    hide IsSystemRun;
    RunKeeps(Sizes(), run, i);
  }

  lemma HistoryInStep(server: Ingress.Server, ring: State<Frame>)
    requires InStep(ring, server.acts) && ring.p.PIdle? && Served(server)
    ensures server.ring.world.log == ring.log
  {
    hide Published, History, Ingress.Reaches;
  }

  lemma ReaderSucceeded(reader: StorageReader.Reader, exit: StorageReader.Exit)
    requires reader.Ended(exit) && !exit.StillRunning? && reader.auto.pc == Exited(true)
    ensures exit.Success? && reader.auto.stored == reader.ring.world.log
  {}
}
