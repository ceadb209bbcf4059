/** Runs of a transition system, and the one induction every protocol module shares. */
module Runs {

  datatype Option<+T> = None | Some(value: T) {
    function GetOr(default: T): T { if None? then default else value }
  }

  /** A finite run: it starts in an initial state and every consecutive pair is a step. */
  ghost predicate IsRun<S(!new)>(init: S -> bool, step: (S, S) -> bool, run: seq<S>)
  {
    && 0 < |run|
    && init(run[0])
    && IsPath(step, run)
  }

  /** A sequence of states in which every consecutive pair is a step. */
  ghost predicate IsPath<S(!new)>(step: (S, S) -> bool, path: seq<S>)
  {
    forall i, j :: 0 <= i && j == i + 1 < |path| ==> step(path[i], path[j])
  }

  /** A property kept by every step holds at every later state once it holds at one. */
  lemma {:induction false} Stable<S(!new)>(step: (S, S) -> bool, inv: S -> bool, path: seq<S>, i: nat, j: nat)
    requires IsPath(step, path)
    requires forall s, t :: inv(s) && step(s, t) ==> inv(t)
    requires i <= j < |path| && inv(path[i])
    ensures inv(path[j])
  {
    if i < j {
      Stable(step, inv, path, i, j - 1);
      assert step(path[j - 1], path[j]);
    }
  }
}
