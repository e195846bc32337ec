/** Keeping a large invariant out of proofs that only carry it along. */
module Sealing {
  /** Holds of every number. An invariant written `forall k :: Opened(k) ==> Inv()` means just `Inv()`,
      but a proof gets to use `Inv()` only if it mentions `Opened`. */
  ghost predicate Opened(k: int) {
    true
  }
}
