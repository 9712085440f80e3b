/** What the proofs assume of a hash function, where a statement says so. */
module Hashing {

  ghost predicate CollisionFree<X(!new), D>(hash: X -> D) {
    forall x, y :: hash(x) == hash(y) ==> x == y
  }
}
