/** Runs of a state machine given by its first state and its moves. */
module Transitions {
  import opened Sequences

  ghost predicate Runs<S(!new), E>(init: S, moves: (S, E, S) -> bool, events: seq<E>, st: S)
  {
    if |events| == 0 then st == init
    else exists before :: Runs(init, moves, AllButLast(events), before) && moves(before, Last(events), st)
  }

  ghost predicate Reachable<S(!new), E(!new)>(init: S, moves: (S, E, S) -> bool, st: S)
  {
    exists events :: Runs(init, moves, events, st)
  }

  lemma StartReachable<S(!new), E(!new)>(init: S, moves: (S, E, S) -> bool)
    ensures Reachable(init, moves, init)
  {
    assert Runs(init, moves, [], init);
  }

  lemma MoveReachable<S(!new), E(!new)>(init: S, moves: (S, E, S) -> bool, st: S, ev: E, next: S)
    requires Reachable(init, moves, st) && moves(st, ev, next)
    ensures Reachable(init, moves, next)
  {
    var events :| Runs(init, moves, events, st);
    var all := events + [ev];
    assert AllButLast(all) == events;
    assert Runs(init, moves, all, next);
  }

  /** What holds at first and is kept by every move holds after every run. */
  lemma {:induction false} Invariance<S(!new), E(!new)>(init: S, moves: (S, E, S) -> bool, inv: S -> bool, events: seq<E>, st: S)
    requires inv(init)
    requires forall s, ev, t :: inv(s) && moves(s, ev, t) ==> inv(t)
    requires Runs(init, moves, events, st)
    ensures inv(st)
  {
    if |events| > 0 {
      var before :| Runs(init, moves, AllButLast(events), before) && moves(before, Last(events), st);
      Invariance(init, moves, inv, AllButLast(events), before);
    }
  }
}
