/** A trigger for facts that are kept out of sight. */
module Hiding {

  /** A predicate defined as `forall k: int :: Look(k) ==> P` says P, but the verifier sees P
      only in proofs that mention `Look`. */
  ghost predicate Look(k: int) { true }
}
