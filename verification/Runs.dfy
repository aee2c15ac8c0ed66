/** Whole runs of a state machine: a call that fails leaves the state as it was,
    so a run is a fold of a total step function over the calls. */
module Runs {
  function Run<S, C>(step: (S, C) -> S, s: S, calls: seq<C>): S {
    if calls == [] then s
    else step(Run(step, s, calls[..|calls| - 1]), calls[|calls| - 1])
  }

  /** What every step keeps, every run keeps. */
  lemma {:induction false} RunKeeps<S(!new), C(!new)>(step: (S, C) -> S, inv: S -> bool, s: S, calls: seq<C>)
    requires inv(s)
    requires forall x, c :: inv(x) ==> inv(step(x, c))
    ensures inv(Run(step, s, calls))
  {
    if calls != [] {
      RunKeeps(step, inv, s, calls[..|calls| - 1]);
    }
  }
}
