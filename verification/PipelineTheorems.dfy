/** What holds in every run: nothing lost, nothing stuck, and what the exit codes mean. */
module PipelineTheorems {
  import opened RingCounters
  import opened Spsc
  import opened Pipeline
  import opened PipelineSafety

  lemma StepKeeps<F(!new)>(L: Limits<F>, s: Sys<F>, s': Sys<F>)
    requires Good(L) && SysInv(L, s) && Step(L, s, s')
    ensures SysInv(L, s')
  {
    hide SysInv, Good;
    if ServerInRing(L, s, s') {
      ServerInRingKeeps(L, s, s');
    } else if a :| ServerDoes(L, s, a, s') {
      ServerDoesKeeps(L, s, a, s');
    } else if ReaderInRing(L, s, s') {
      ReaderInRingKeeps(L, s, s');
    } else if a :| ReaderDoes(L, s, a, s') {
      ReaderDoesKeeps(L, s, a, s');
    } else if MainDoes(s, s') {
      MainDoesKeeps(L, s, s');
    } else {
      SignalArrivesKeeps(L, s, s');
    }
  }

  lemma ServerDoesKeeps<F>(L: Limits<F>, s: Sys<F>, a: ServerAct<F>, s': Sys<F>)
    requires Good(L) && SysInv(L, s) && ServerDoes(L, s, a, s')
    ensures SysInv(L, s')
  {
    hide SysInv, Good, ServerDoes;
    match a {
      case Quiet => ServerQuietKeeps(L, s, s');
      case Wake(events) => ServerWakeKeeps(L, s, events, s');
      case ReadSignals(signals) => ServerSignalsKeeps(L, s, signals, s');
      case TakeSpace => ServerTakesKeeps(L, s, s');
      case ReturnSize(size) => ServerReturnsSizeKeeps(L, s, size, s');
      case AnnounceData => ServerAnnounceKeeps(L, s, s');
      case _ => ServerCallsKeeps(L, s, a, s');
    }
  }

  lemma ReaderDoesKeeps<F>(L: Limits<F>, s: Sys<F>, a: ReaderAct<F>, s': Sys<F>)
    requires Good(L) && SysInv(L, s) && ReaderDoes(L, s, a, s')
    ensures SysInv(L, s')
  {
    hide SysInv, Good, ReaderDoes;
    match a {
      case Inside => ReaderInsideKeeps(L, s, s');
      case ReturnPop(frames) => ReaderPopsKeeps(L, s, frames, s');
      case ReturnClosed(_) => ReaderChecksKeeps(L, s, a, s');
      case ReturnLastSize(_) => ReaderChecksKeeps(L, s, a, s');
      case _ => ReaderCallsKeeps(L, s, a, s');
    }
  }

  lemma {:induction false} RunKeeps<F(!new)>(L: Limits<F>, run: seq<Sys<F>>, i: nat)
    requires Good(L) && IsSystemRun(L, run) && i < |run|
    ensures SysInv(L, run[i])
  {
    hide SysInv, Step, Good;
    if i == 0 {
      InitKeeps(L, run[0]);
    } else {
      RunKeeps(L, run, i - 1);
      assert SystemStepAt(L, run, i);
      StepKeeps(L, run[i - 1], run[i]);
    }
  }

  // ------------------------------------------------------------- nothing lost

  /** Without a storage error, at every moment: frames pushed so far = stored ++ staged ++ in hand ++
      in the ring, in order. */
  lemma EveryFrameInOnePlace<F(!new)>(L: Limits<F>, run: seq<Sys<F>>, i: nat)
    requires Good(L) && IsSystemRun(L, run) && i < |run| && run[i].reader.pc != Exited(false)
    ensures var s := run[i];
            s.ring.tail <= s.ring.head == |s.ring.log|
            && s.ring.log == s.reader.stored + s.reader.batch + InHand(s.reader, s.ring.c) + Contents(s.ring)
  {
    hide IsSystemRun, Step, Good, Readable;
    RunKeeps(L, run, i);
    var s := run[i];
    assert s.ring.log == s.ring.log[..s.ring.tail] + s.ring.log[s.ring.tail..];
  }

  /** Even with storage errors, what is stored is a prefix of what was pushed, and every pushed frame is
      one the codec accepts. */
  lemma StoredIsAlwaysPrefix<F(!new)>(L: Limits<F>, run: seq<Sys<F>>, i: nat)
    requires Good(L) && IsSystemRun(L, run) && i < |run|
    ensures run[i].reader.stored <= run[i].ring.log
    ensures forall f <- run[i].ring.log :: L.valid(f)
  {
    hide IsSystemRun, Step, Good, Readable;
    RunKeeps(L, run, i);
  }

  /** Every frame the reader handles is well-formed: its "invalid IPC frame" exit is dead code here. */
  lemma NoInvalidFrame<F(!new)>(L: Limits<F>, run: seq<Sys<F>>, i: nat)
    requires Good(L) && IsSystemRun(L, run) && i < |run| && run[i].reader.pc.Processing?
    ensures forall f <- run[i].reader.ipc :: L.valid(f)
  {
    hide IsSystemRun, Step, Good, Readable;
    RunKeeps(L, run, i);
    var s := run[i];
    var kept := s.reader.stored + s.reader.batch;
    forall f | f in s.reader.ipc
      ensures L.valid(f)
    {
      assert f in s.ring.log[..s.ring.tail] by {
        assert f in kept + s.reader.ipc;
      }
    }
  }

  /** The ring never refuses part of a push, so the server's "ring full" failure cannot happen. */
  lemma PushesAreNeverCut<F(!new)>(L: Limits<F>, run: seq<Sys<F>>, i: nat)
    requires Good(L) && IsSystemRun(L, run) && i < |run|
    ensures var s := run[i];
            && s.ring.tail <= s.ring.head <= s.ring.tail + L.cap
            && (s.server.pc.Pushing? && s.ring.p.PushReturn? ==> s.ring.p.pushed == |s.server.pc.frames|)
            && (s.server.pc.Announcing? ==> !s.server.pc.fatal)
  {
    hide IsSystemRun, Step, Good, Readable;
    RunKeeps(L, run, i);
  }

  // ------------------------------------------------------------- nothing stuck

  ghost predicate ReaderAsleep<F>(s: Sys<F>) { s.reader.pc.Sleeping? && s.data == 0 }
  ghost predicate ServerAsleep<F>(s: Sys<F>) { s.main.Serving? && s.server.pc.Waiting? && s.space == 0 }

  /** Both processes sleep only when there is nothing to do: the server takes input, and every frame
      pushed is already stored. */
  lemma BothAsleepMeansIdle<F(!new)>(L: Limits<F>, run: seq<Sys<F>>, i: nat)
    requires Good(L) && IsSystemRun(L, run) && i < |run| && ReaderAsleep(run[i]) && ServerAsleep(run[i])
    ensures run[i].server.mode.Running? && !run[i].server.paused
    ensures run[i].ring.head == run[i].ring.tail && run[i].reader.stored == run[i].ring.log
  {
    hide IsSystemRun, Step, Readable;
    RunKeeps(L, run, i);
    var s := run[i];
    assert s.ring.log[..s.ring.tail] == s.ring.log;
    assert s.reader.stored + [] + [] == s.reader.stored;
  }

  /** Once main has notified the reader of the close, the reader is never left asleep. */
  lemma ReaderHearsTheClose<F(!new)>(L: Limits<F>, run: seq<Sys<F>>, i: nat)
    requires Good(L) && IsSystemRun(L, run) && i < |run| && run[i].main.Joining?
    ensures !ReaderAsleep(run[i])
  {
    hide IsSystemRun, Step, Good, Readable;
    RunKeeps(L, run, i);
  }

  // ------------------------------------------------------------- exit codes

  /** The reader's success means that nothing more can come and everything that came is stored and
      durable, for every interleaving with the last push and the close. */
  lemma ReaderSuccessMeansAllStored<F(!new)>(L: Limits<F>, run: seq<Sys<F>>, i: nat, j: nat)
    requires Good(L) && IsSystemRun(L, run) && i <= j < |run| && run[i].reader.pc == Exited(true)
    ensures run[j].ring.log == run[i].ring.log == run[i].reader.stored
    ensures run[i].reader.synced == |run[i].ring.log|
    decreases j
  {
    hide IsSystemRun, Step, Good, Readable;
    RunKeeps(L, run, i);
    SuccessMeansStored(L, run[i]);
    ClosedForGood(L, run, i, j);
  }

  lemma SuccessMeansStored<F>(L: Limits<F>, s: Sys<F>)
    requires SysInv(L, s) && s.reader.pc == Exited(true)
    ensures s.reader.stored == s.ring.log && s.reader.synced == |s.ring.log| && s.ring.closed
  {
    hide Readable;
    assert s.ring.log[..s.ring.tail] == s.ring.log;
    assert s.reader.stored + [] + [] == s.reader.stored;
  }

  lemma {:induction false} ClosedForGood<F(!new)>(L: Limits<F>, run: seq<Sys<F>>, i: nat, j: nat)
    requires Good(L) && IsSystemRun(L, run) && i <= j < |run| && run[i].ring.closed
    ensures run[j].ring.closed && run[j].ring.log == run[i].ring.log
    decreases j
  {
    if i < j {
      ClosedForGood(L, run, i, j - 1);
      RunKeeps(L, run, j - 1);
      var s, s' := run[j - 1], run[j];
      assert SystemStepAt(L, run, j);
      ClosedStep(L, s, s');
    }
  }

  lemma ClosedStep<F(!new)>(L: Limits<F>, s: Sys<F>, s': Sys<F>)
    requires SysInv(L, s) && Step(L, s, s') && s.ring.closed
    ensures s'.ring.closed && s'.ring.log == s.ring.log
  {
    hide Readable, Slot, FramesKept, ReaderMove, ServerMove;
  }

  /** Exit code zero: the shutdown was asked for, the reader did not die, the ring drained, and the
      stored and synced stream is exactly everything pushed. */
  lemma SuccessMeansEverythingStored<F(!new)>(L: Limits<F>, run: seq<Sys<F>>, i: nat)
    requires Good(L) && IsSystemRun(L, run) && i < |run| && run[i].main == MainExit(true)
    ensures var s := run[i];
            && s.server.pc == Stopped(true) && s.reader.pc == Exited(true)
            && Shutdown in s.processed && ReaderGone !in s.processed
            && s.ring.head == s.ring.tail
            && s.reader.stored == s.ring.log && s.reader.synced == |s.ring.log|
  {
    hide IsSystemRun, Step, Good, Readable;
    RunKeeps(L, run, i);
    ReaderSuccessMeansAllStored(L, run, i, i);
  }

  /** The server's own success: a delivered shutdown request, no delivered reader termination in any
      batch processed, in whatever order, and an empty ring. */
  lemma ServerSuccess<F(!new)>(L: Limits<F>, run: seq<Sys<F>>, i: nat)
    requires Good(L) && IsSystemRun(L, run) && i < |run| && run[i].server.pc == Stopped(true)
    ensures Shutdown in run[i].processed && ReaderGone !in run[i].processed
    ensures run[i].ring.head == run[i].ring.tail
  {
    hide IsSystemRun, Step, Good, Readable;
    RunKeeps(L, run, i);
  }
}
