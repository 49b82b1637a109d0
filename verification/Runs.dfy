/** Induction along the worlds of a run. */
module Runs {

  /** What a run has somewhere and no step takes away, it has from there on. */
  lemma {:induction false} Stays<W>(run: seq<W>, i: nat, j: nat, holds: W -> bool)
    requires i <= j < |run| && holds(run[i])
    requires forall k, m :: i <= k && m == k + 1 <= j && holds(run[k]) ==> holds(run[m])
    ensures holds(run[j])
    decreases j - i
  {
    if i < j {
      Stays(run, i, j - 1, holds);
    }
  }
}
