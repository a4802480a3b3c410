/** How far a procedure of several steps gets. */
module Fates {
  /** It runs to its end, or after so many steps a call fails or the process dies. */
  datatype Fate = Finishes | FailsAfter(steps: nat) | DiesAfter(steps: nat)

  predicate Reaches(fate: Fate, step: nat) { fate.Finishes? || fate.steps >= step }
}
