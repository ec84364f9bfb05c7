/** Paths of an automaton: what a method does to its ghost automaton, action by action. */
module Paths {
  ghost function Earlier<A>(acts: seq<A>): (r: seq<A>)
    requires acts != []
    ensures |r| == |acts| - 1
  {
    acts[..|acts| - 1]
  }

  /** The automaton gets from `start` to `v` by `acts`. */
  ghost predicate IsPath<V(!new), A>(moves: (V, A, V) -> bool, start: V, acts: seq<A>, v: V) {
    if acts == [] then v == start
    else exists u :: IsPath(moves, start, Earlier(acts), u) && moves(u, acts[|acts| - 1], v)
  }

  lemma PathNext<V(!new), A>(moves: (V, A, V) -> bool, start: V, acts: seq<A>, u: V, a: A, v: V)
    requires IsPath(moves, start, acts, u) && moves(u, a, v)
    ensures IsPath(moves, start, acts + [a], v)
  {
    assert Earlier(acts + [a]) == acts;
  }

  lemma LastMove<V(!new), A>(moves: (V, A, V) -> bool, start: V, acts: seq<A>, v: V) returns (u: V)
    requires IsPath(moves, start, acts, v) && acts != []
    ensures IsPath(moves, start, Earlier(acts), u) && moves(u, acts[|acts| - 1], v)
  {
    u :| IsPath(moves, start, Earlier(acts), u) && moves(u, acts[|acts| - 1], v);
  }
}
