/** The box domain the search runs over: one closed interval [lb[i], ub[i]] per
    dimension. The StoGO library that defines it is not part of this model; its
    feasibility test is given the meaning the front end relies on (inclusive
    bounds in every dimension). */
module StogoBox {

  /** x lies in the box spanned by lo and hi: same dimension, and
      lo[i] <= x[i] <= hi[i] in every dimension i. */
  predicate Inside(lo: seq<real>, hi: seq<real>, x: seq<real>)
  {
    |lo| == |hi| == |x| &&
    forall i :: 0 <= i < |x| ==> lo[i] <= x[i] <= hi[i]
  }

  /** The library's box object: two bound vectors of the dimension given at
      construction, filled in place by the caller. */
  class TBox {
    const lb: array<real>
    const ub: array<real>

    ghost predicate Valid()
      reads this
    {
      lb.Length == ub.Length && lb != ub
    }

    /** A box of dimension n with all bounds zero. */
    constructor (n: nat)
      ensures Valid() && fresh(lb) && fresh(ub)
      ensures lb.Length == n && ub.Length == n
    {
      lb := new real[n](_ => 0.0);
      ub := new real[n](_ => 0.0);
    }

    function GetDim(): nat
      reads this
    {
      lb.Length
    }

    /** The feasibility test used by the best-point tracker. */
    predicate InsideBox(x: seq<real>)
      reads this, lb, ub
    {
      Inside(lb[..], ub[..], x)
    }
  }
}
