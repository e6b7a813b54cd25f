/** A disk on which any access may fail. */
module Faults {
  class FaultyDisk {
    const fails: nat -> bool   // by the number of the access
    var accesses: nat

    constructor (fails: nat -> bool)
      ensures this.fails == fails && accesses == 0
    {
      this.fails := fails;
      accesses := 0;
    }

    /** No access since number `from` failed. */
    ghost predicate Clean(from: nat)
      reads this
    {
      forall n | from <= n < accesses :: !fails(n)
    }

    method Access() returns (ok: bool)
      modifies this
      ensures accesses == old(accesses) + 1 && (ok <==> Clean(old(accesses)))
    {
      ok := !fails(accesses);
      accesses := accesses + 1;
    }
  }
}
