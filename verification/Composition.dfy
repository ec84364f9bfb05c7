/** The processes put together: a path of the server's automaton and a path of the reader's, taken in
    turns that what they share allows, are a run of the whole system. */
module Composition {
  import opened Spsc
  import opened Pipeline
  import opened Paths

  /** What happens next, and to whom. */
  datatype Turn<F> =
    | ServerTurn(sa: ServerAct<F>)
    | ServerRingTurn                     // one atomic step inside a ring method
    | ReaderTurn(ra: ReaderAct<F>)
    | ReaderRingTurn
    | SignalTurn(signal: Signal)
    | CloseTurn(serverOk: bool)          // main closes the producer, knowing the server's result
    | NoticeTurn                         // and notifies the reader
    | KillTurn                           // or kills it, if that fails
    | ExitTurn(readerOk: bool)           // and has waited for it

  /** What a turn needs of the ring, the eventfds, the signalfd and main, and does to them, whatever the
      state of the server and of the reader. */
  ghost predicate Effect<F>(L: Limits<F>, s: Sys<F>, t: Turn<F>, s': Sys<F>) {
    match t
    case ServerTurn(a) => ServerEffect(s, a, s')
    case ServerRingTurn => ServerInRing(L, s, s')
    case ReaderTurn(a) => !s.main.MainExit? && ReaderEffect(L, s, a, s')
    case ReaderRingTurn =>
      Defined(L.cap, s.ring) && ConsumerBusy(s.ring) && s' == s.(ring := ConsumerNext(L.cap, s.ring))
    case SignalTurn(signal) => s' == s.(signals := s.signals + [signal])
    case CloseTurn(ok) =>
      s.main.Serving? && s.ring.p.PIdle? && s' == s.(ring := s.ring.(closed := true), main := NotifyReader(ok))
    case NoticeTurn => s.main.NotifyReader? && s' == s.(data := s.data + 1, main := Joining(s.main.serverOk))
    case KillTurn => s.main.NotifyReader? && s' == s.(main := Joining(false))
    case ExitTurn(ok) => s.main.Joining? && s' == s.(main := MainExit(s.main.serverOk && ok))
  }

  ghost predicate IsKilled<F>(turns: seq<Turn<F>>) { KillTurn in turns }

  /** `world` is what the processes share, turn by turn; its server and reader stand still.  A reader
      that was killed has no more turns. */
  ghost predicate Schedule<F>(L: Limits<F>, turns: seq<Turn<F>>, world: seq<Sys<F>>) {
    && |world| == |turns| + 1 && SystemInit(L, world[0])
    && (forall i {:trigger turns[i]} :: 0 <= i < |turns| && (turns[i].ReaderTurn? || turns[i].ReaderRingTurn?) ==>
          !IsKilled(turns[..i]))
    && forall i {:trigger turns[i]} :: 0 <= i < |turns| ==> Effect(L, world[i], turns[i], world[i + 1])
  }

  /** The server's part of a schedule. */
  ghost function ServerActs<F>(turns: seq<Turn<F>>): seq<ServerAct<F>> {
    if turns == [] then []
    else
      var t := turns[|turns| - 1];
      ServerActs(Earlier(turns)) + if t.ServerTurn? then [t.sa] else []
  }

  /** The reader's part. */
  ghost function ReaderActs<F>(turns: seq<Turn<F>>): seq<ReaderAct<F>> {
    if turns == [] then []
    else
      var t := turns[|turns| - 1];
      ReaderActs(Earlier(turns)) + if t.ReaderTurn? then [t.ra] else []
  }

  function Killed<F>(r: Reader<F>): Reader<F> { if r.pc.Exited? then r else r.(pc := Exited(false)) }

  /** Where the reader is, when `r` is the end of its path. */
  ghost function Finally<F>(turns: seq<Turn<F>>, r: Reader<F>): Reader<F> { if IsKilled(turns) then Killed(r) else r }

  /** Main knows how the server and the reader ended. */
  ghost predicate Agrees<F>(turns: seq<Turn<F>>, v: Server<F>, r: Reader<F>) {
    forall t <- turns ::
      && (t.CloseTurn? ==> v.pc == Stopped(t.serverOk))
      && (t.ExitTurn? ==> Finally(turns, r).pc == Exited(t.readerOk))
  }

  lemma EarlierSchedule<F>(L: Limits<F>, turns: seq<Turn<F>>, world: seq<Sys<F>>)
    requires Schedule(L, turns, world) && turns != []
    ensures Schedule(L, Earlier(turns), Earlier(world))
    ensures var t := turns[|turns| - 1];
            && Effect(L, world[|turns| - 1], t, world[|turns|])
            && (t.ReaderTurn? || t.ReaderRingTurn? ==> !IsKilled(Earlier(turns)))
  {
    hide Effect, SystemInit, IsKilled;
    var n := |turns| - 1;
    assert forall i :: 0 <= i < n ==> Earlier(turns)[i] == turns[i] && Earlier(turns)[..i] == turns[..i];
  }

  lemma MainMoves<F>(L: Limits<F>, s: Sys<F>, t: Turn<F>, s': Sys<F>)
    requires Effect(L, s, t, s')
    ensures s'.main.Serving? ==> s.main.Serving? && !t.CloseTurn?
    ensures !s'.main.MainExit? ==> !s.main.MainExit? && !t.ExitTurn?
  {}

  /** Before main closes the producer it has not used the server's result, nor before the exit the
      reader's. */
  lemma {:induction false} NotYet<F>(L: Limits<F>, turns: seq<Turn<F>>, world: seq<Sys<F>>)
    requires Schedule(L, turns, world)
    ensures world[|turns|].main.Serving? ==> forall t <- turns :: !t.CloseTurn?
    ensures !world[|turns|].main.MainExit? ==> forall t <- turns :: !t.ExitTurn?
    decreases |turns|
  {
    if turns != [] {
      var n := |turns| - 1;
      EarlierSchedule(L, turns, world);
      hide Schedule;
      NotYet(L, Earlier(turns), Earlier(world));
      LastOf(turns);
      MainMoves(L, world[n], turns[n], world[n + 1]);
      hide Effect;
    }
  }

  lemma LastOf<F>(turns: seq<Turn<F>>)
    requires turns != []
    ensures forall t :: t in turns <==> t in Earlier(turns) || t == turns[|turns| - 1]
  {
    assert turns == Earlier(turns) + [turns[|turns| - 1]];
  }

  /** The processes at their places in a shared state. */
  ghost function At<F>(s: Sys<F>, v: Server<F>, r: Reader<F>): Sys<F> { s.(server := v, reader := r) }

  /** One turn, taken by processes that may take it, is a step of the system. */
  lemma TurnIsStep<F(!new)>(L: Limits<F>, s: Sys<F>, v: Server<F>, r: Reader<F>, t: Turn<F>, s': Sys<F>,
                            v': Server<F>, r': Reader<F>)
    requires Effect(L, s, t, s') && s'.server == s.server && s'.reader == s.reader
    requires if t.ServerTurn? then ServerMove(L, v, t.sa, v') else v' == v
    requires if t.ReaderTurn? then ReaderMove(L, r, t.ra, r') else r' == if t.KillTurn? then Killed(r) else r
    requires t.CloseTurn? ==> v.pc == Stopped(t.serverOk)
    requires t.ExitTurn? ==> r.pc == Exited(t.readerOk)
    requires r.pc.Exited? && t.ReaderRingTurn? ==> s.ring.c.CIdle?
    ensures Step(L, At(s, v, r), At(s', v', r'))
  {
    hide ServerMove, ReaderMove;
    var a, b := At(s, v, r), At(s', v', r');
    match t {
      case ServerTurn(act) => assert ServerDoes(L, a, act, b);
      case ReaderTurn(act) => assert ReaderDoes(L, a, act, b);
      case ServerRingTurn => assert ServerInRing(L, a, b);
      case ReaderRingTurn => assert ReaderInRing(L, a, b);
      case SignalTurn(_) => assert SignalArrives(a, b);
      case _ => assert MainDoes(a, b);
    }
  }

  /** A reader that exits of itself is not inside a ring method. */
  lemma ExitedIsIdle<F>(L: Limits<F>, s: Sys<F>, t: Turn<F>, s': Sys<F>, r: Reader<F>, r': Reader<F>)
    requires Effect(L, s, t, s') && if t.ReaderTurn? then ReaderMove(L, r, t.ra, r') else r' == r
    requires r.pc.Exited? ==> s.ring.c.CIdle?
    ensures r'.pc.Exited? ==> s'.ring.c.CIdle?
  {}

  ghost predicate ServerPath<F(!new)>(L: Limits<F>, turns: seq<Turn<F>>, v: Server<F>) {
    IsPath(ServerMoves(L), ServerStart(), ServerActs(turns), v)
  }

  ghost predicate ReaderPath<F(!new)>(L: Limits<F>, turns: seq<Turn<F>>, r: Reader<F>) {
    IsPath(ReaderMoves(L), ReaderStart(), ReaderActs(turns), r)
  }

  lemma ServerBefore<F(!new)>(L: Limits<F>, turns: seq<Turn<F>>, v: Server<F>) returns (u: Server<F>)
    requires ServerPath(L, turns, v) && turns != []
    ensures ServerPath(L, Earlier(turns), u)
    ensures var t := turns[|turns| - 1];
            if t.ServerTurn? then ServerMove(L, u, t.sa, v) else u == v
  {
    hide ServerMove;
    u := v;
    if turns[|turns| - 1].ServerTurn? {
      assert Earlier(ServerActs(turns)) == ServerActs(Earlier(turns));
      u := LastMove(ServerMoves(L), ServerStart(), ServerActs(turns), v);
    } else {
      assert ServerActs(turns) == ServerActs(Earlier(turns));
    }
  }

  lemma ReaderBefore<F(!new)>(L: Limits<F>, turns: seq<Turn<F>>, r: Reader<F>) returns (q: Reader<F>)
    requires ReaderPath(L, turns, r) && turns != []
    ensures ReaderPath(L, Earlier(turns), q)
    ensures var t := turns[|turns| - 1];
            if t.ReaderTurn? then ReaderMove(L, q, t.ra, r) else q == r
  {
    hide ReaderMove;
    q := r;
    if turns[|turns| - 1].ReaderTurn? {
      assert Earlier(ReaderActs(turns)) == ReaderActs(Earlier(turns));
      q := LastMove(ReaderMoves(L), ReaderStart(), ReaderActs(turns), r);
    } else {
      assert ReaderActs(turns) == ReaderActs(Earlier(turns));
    }
  }

  /** The run is the schedule with the processes at work in it. */
  ghost predicate Follows<F>(run: seq<Sys<F>>, world: seq<Sys<F>>) {
    && |run| == |world|
    && forall i {:trigger run[i]} :: 0 <= i < |run| ==> run[i] == At(world[i], run[i].server, run[i].reader)
  }

  lemma OneMore<F(!new)>(L: Limits<F>, run: seq<Sys<F>>, world: seq<Sys<F>>, s: Sys<F>)
    requires world != [] && Follows(run, Earlier(world)) && IsSystemRun(L, run)
    requires s == At(world[|world| - 1], s.server, s.reader) && Step(L, run[|run| - 1], s)
    ensures Follows(run + [s], world) && IsSystemRun(L, run + [s])
  {
    hide Step, SystemInit;
    forall i | 0 < i < |run + [s]|
      ensures SystemStepAt(L, run + [s], i)
    {
      assert i < |run| ==> SystemStepAt(L, run, i);
    }
  }

  /** Going back one turn: main knew no more then, and a reader that is killed has taken its turns. */
  lemma BeforeLast<F>(L: Limits<F>, turns: seq<Turn<F>>, world: seq<Sys<F>>, u: Server<F>, v: Server<F>, q: Reader<F>,
                      r: Reader<F>)
    requires Schedule(L, turns, world) && turns != [] && Agrees(turns, v, r)
    requires var t := turns[|turns| - 1];
             (t.ServerTurn? || u == v) && (t.ReaderTurn? || q == r)
    ensures Agrees(Earlier(turns), u, q)
    ensures IsKilled(Earlier(turns)) ==> IsKilled(turns)
    ensures var t, before, after := turns[|turns| - 1], Finally(Earlier(turns), q), Finally(turns, r);
            && (t.ReaderTurn? ==> before == q && after == r)
            && (t.ReaderRingTurn? ==> before == q && !IsKilled(turns))
            && (!t.ReaderTurn? ==> after == if t.KillTurn? then Killed(before) else before)
            && (t.CloseTurn? ==> v.pc == Stopped(t.serverOk))
            && (t.ExitTurn? ==> before.pc == Exited(t.readerOk))
  {
    var n := |turns| - 1;
    EarlierSchedule(L, turns, world);
    NotYet(L, Earlier(turns), Earlier(world));
    LastOf(turns);
    EffectElsewhere(L, world[n], turns[n], world[n + 1]);
    assert |world| == n + 2;
    hide Schedule, Effect;
  }

  /** Any two paths taken in turns that the shared state allows are a run of the system in which the
      processes end where their paths do, unless the reader is killed on the way. */
  lemma {:induction false} Join<F(!new)>(L: Limits<F>, turns: seq<Turn<F>>, world: seq<Sys<F>>, v: Server<F>,
                                        r: Reader<F>)
    returns (run: seq<Sys<F>>)
    requires Schedule(L, turns, world) && Agrees(turns, v, r)
    requires ServerPath(L, turns, v) && ReaderPath(L, turns, r)
    ensures IsSystemRun(L, run) && Follows(run, world) && run[|turns|] == At(world[|turns|], v, Finally(turns, r))
    ensures world[|turns|].server == ServerStart() && world[|turns|].reader == ReaderStart()
    ensures !IsKilled(turns) && r.pc.Exited? ==> world[|turns|].ring.c.CIdle?
    decreases |turns|
  {
    if turns == [] {
      return [world[0]];
    }
    var n := |turns| - 1;
    var t := turns[n];
    var u := ServerBefore(L, turns, v);
    var q := ReaderBefore(L, turns, r);
    BeforeLast(L, turns, world, u, v, q, r);
    EarlierSchedule(L, turns, world);
    EffectElsewhere(L, world[n], t, world[n + 1]);
    assert |world| == n + 2;
    hide *;
    run := Join(L, Earlier(turns), Earlier(world), u, q);
    if !IsKilled(turns) {
      ExitedIsIdle(L, world[n], t, world[n + 1], q, r);
    }
    var s' := At(world[n + 1], v, Finally(turns, r));
    TurnIsStep(L, world[n], u, Finally(Earlier(turns), q), t, world[n + 1], v, Finally(turns, r));
    AtIsAt(world[n + 1], v, Finally(turns, r));
    OneMore(L, run, world, s');
    run := run + [s'];
  }

  lemma AtIsAt<F>(s: Sys<F>, v: Server<F>, r: Reader<F>)
    ensures At(s, v, r).server == v && At(s, v, r).reader == r
  {}

  /** No turn of the schedule moves its server and reader; the server acts before the close, the reader
      before the exit. */
  lemma EffectElsewhere<F>(L: Limits<F>, s: Sys<F>, t: Turn<F>, s': Sys<F>)
    requires Effect(L, s, t, s')
    ensures s'.server == s.server && s'.reader == s.reader
    ensures t.ServerTurn? ==> s.main.Serving?
    ensures t.ReaderTurn? || t.KillTurn? ==> !s.main.MainExit?
  {}
}
