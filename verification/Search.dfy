/** The first time something happens. */
module Search {

  lemma Least(happens: nat -> bool, bound: nat) returns (first: nat)
    requires happens(bound)
    ensures happens(first) && forall n: nat | n < first :: !happens(n)
  {
    first := 0;
    while !happens(first)
      invariant first <= bound && forall n: nat | n < first :: !happens(n)
      decreases bound - first
    {
      first := first + 1;
    }
  }
}
