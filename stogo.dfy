/** The C-callable front end to StoGO: the objective adapter MyGlobal, which
    forwards every evaluation to the caller's objective and keeps the best
    point seen inside the box, and stogo_minimize, which sets up the box and
    the parameters, runs the search and copies the record out. */
module Stogo {
  import opened StogoBox
  import opened StogoTracker

  /** The call made to the caller's objective: the dimension, the point, and
      whether a gradient buffer is passed (true) or NULL (false). */
  datatype Request = Request(n: nat, x: seq<real>, withGradient: bool)

  /** The engine's configuration: randomised and deterministic sample counts,
      clustering tolerance, local-search shift and local-minimisation
      threshold. The stopping configuration is not part of this model. */
  datatype GlobalParams = GlobalParams(rndPnts: int, detPnts: int, epsCl: real, rshift: real, mu: real)

  /** The parameters stogo_minimize hands the engine: nrandom randomised
      points, and deterministic points making up the rest of 2n + 1. */
  function MakeParams(n: nat, nrandom: int): (p: GlobalParams)
    ensures p.rndPnts == nrandom
    ensures p.rndPnts + p.detPnts == 2 * n + 1
  {
    GlobalParams(nrandom, 2 * n + 1 - nrandom, 0.1, 0.3, 0.0001)
  }

  /** Element-by-element copy, as the vector library's copy and the result
      loop of stogo_minimize do it: the first |src| entries of dst take the
      contents of src, and the rest of dst is left alone. */
  method Copy(src: seq<real>, dst: array<real>)
    requires |src| <= dst.Length
    modifies dst
    ensures dst[..|src|] == src && dst[|src|..] == old(dst[|src|..])
  {
    for i := 0 to |src|
      invariant dst[..i] == src[..i] && dst[i..] == old(dst[i..])
    {
      dst[i] := src[i];
    }
  }

  /** The objective adapter. The caller's objective function and its opaque
      data are not part of the model: each evaluation is given the value the
      objective returned, and reports the call it made. */
  class MyGlobal {
    const Domain: TBox
    const params: GlobalParams
    var numeval: nat
    var minf: real
    const bestx: array<real>

    /** The record never exceeds the sentinel, and once it is below it the
        recorded point lies in the box. */
    ghost predicate Valid()
      reads this, Domain, Domain.lb, Domain.ub, bestx
    {
      Domain.Valid() && bestx.Length == Domain.GetDim() &&
      bestx != Domain.lb && bestx != Domain.ub &&
      minf <= DBL_MAX &&
      (minf < DBL_MAX ==> Domain.InsideBox(bestx[..]))
    }

    /** The best-point record as a value. */
    ghost function Record(): Best
      reads this, bestx
    {
      Best(minf, bestx[..])
    }

    ghost function Lo(): seq<real>
      reads this, Domain, Domain.lb
    {
      Domain.lb[..]
    }

    ghost function Hi(): seq<real>
      reads this, Domain, Domain.ub
    {
      Domain.ub[..]
    }

    constructor (D: TBox, P: GlobalParams)
      requires D.Valid()
      ensures Valid() && Domain == D && params == P && numeval == 0
      ensures fresh(bestx) && Record() == Initial(D.GetDim())
    {
      Domain := D;
      params := P;
      numeval := 0;
      minf := DBL_MAX;
      bestx := new real[D.GetDim()](_ => 0.0);
    }

    /** One evaluation requested by the engine at point xy in mode which;
        reply is what the caller's objective returned for the call reported
        in `call`. */
    method ObjectiveGradient(xy: seq<real>, which: WhichO, reply: real) returns (val: real, call: Request)
      requires Valid() && |xy| == Domain.GetDim()
      modifies this`numeval, this`minf, bestx
      ensures Valid()
      ensures numeval == old(numeval) + 1
      ensures call == Request(|xy|, xy, which != ObjectiveOnly)
      ensures val == reply
      ensures Record() == Step(Lo(), Hi(), old(Record()), Probe(xy, which, reply))
      ensures Record() != old(Record()) <==> Domain.InsideBox(xy) && reply < old(minf)
      ensures Record() != old(Record()) ==> minf == reply && bestx[..] == xy
      ensures minf <= old(minf)
      ensures Domain.InsideBox(xy) ==> minf <= reply
    {
      numeval := numeval + 1;
      match which {
        case GradientOnly | ObjectiveAndGradient =>
          call := Request(|xy|, xy, true);
        case ObjectiveOnly =>
          call := Request(|xy|, xy, false);
      }
      val := reply;
      if Domain.InsideBox(xy) && val < minf {
        minf := val;
        Copy(xy, bestx);
        assert bestx[..] == bestx[..|xy|];
      }
    }

    /** True when nothing has been recorded: no evaluation in the box has
        returned a value below DBL_MAX. */
    function NoMinimizers(): (none: bool)
      requires Valid()
      reads this, Domain, Domain.lb, Domain.ub, bestx
      ensures none <==> minf == DBL_MAX
      ensures !none ==> Domain.InsideBox(bestx[..])
    {
      minf >= DBL_MAX
    }

    /** Copies the recorded point into x and returns the recorded value. */
    method OneMinimizer(x: array<real>) returns (v: real)
      requires Valid() && x.Length == bestx.Length
      requires x != bestx && x != Domain.lb && x != Domain.ub
      modifies x
      ensures Valid() && Record() == old(Record())
      ensures v == minf && x[..] == old(bestx[..])
    {
      Copy(bestx[..], x);
      assert x[..] == x[..bestx.Length];
      v := minf;
    }

    /** The search engine, seen from the adapter: some finite sequence of
        evaluations, each made through ObjectiveGradient. */
    method Search(probes: seq<Probe>) returns (calls: seq<Request>)
      requires Valid()
      requires forall k :: 0 <= k < |probes| ==> |probes[k].x| == Domain.GetDim()
      modifies this`numeval, this`minf, bestx
      ensures Valid()
      ensures numeval == old(numeval) + |probes|
      ensures |calls| == |probes|
      ensures forall k :: 0 <= k < |probes| ==>
        calls[k] == Request(|probes[k].x|, probes[k].x, probes[k].which != ObjectiveOnly)
      ensures Record() == Run(Lo(), Hi(), old(Record()), probes)
    {
      calls := [];
      for i := 0 to |probes|
        invariant Valid()
        invariant numeval == old(numeval) + i
        invariant |calls| == i
        invariant forall k :: 0 <= k < i ==>
          calls[k] == Request(|probes[k].x|, probes[k].x, probes[k].which != ObjectiveOnly)
        invariant Record() == Run(Lo(), Hi(), old(Record()), probes[..i])
      {
        var p := probes[i];
        var _, call := ObjectiveGradient(p.x, p.which, p.value);
        calls := calls + [call];
        assert probes[..i + 1][..i] == probes[..i];
      }
      assert probes[..|probes|] == probes;
    }
  }

  /** The box setup of stogo_minimize: a box of dimension n whose bounds are
      the first n entries of l and u. */
  method MakeBox(n: nat, l: array<real>, u: array<real>) returns (D: TBox)
    requires l.Length >= n && u.Length >= n
    ensures fresh(D) && fresh(D.lb) && fresh(D.ub) && D.Valid()
    ensures D.lb[..] == l[..n] && D.ub[..] == u[..n]
  {
    D := new TBox(n);
    for i := 0 to n
      invariant D.lb[..i] == l[..i] && D.ub[..i] == u[..i]
    {
      D.lb[i] := l[i];
      D.ub[i] := u[i];
    }
  }

  /** The entry point. x and the one-element array minf are the caller's
      output slots; l and u the bounds; probes the evaluations the engine
      makes; calls are the calls made to the caller's objective, one per
      probe. Returns 1 and the first feasible probe reaching the feasible
      minimum when some probe in the box returned a value below DBL_MAX, and
      0 with both outputs untouched otherwise. */
  method StogoMinimize(n: nat, x: array<real>, minf: array<real>, l: array<real>, u: array<real>,
                       nrandom: int, probes: seq<Probe>) returns (ret: int, calls: seq<Request>)
    requires x.Length >= n && minf.Length == 1 && l.Length >= n && u.Length >= n
    requires minf != x
    requires forall k :: 0 <= k < |probes| ==> |probes[k].x| == n
    modifies x, minf
    ensures ret == 0 || ret == 1
    ensures |calls| == |probes|
    ensures forall k :: 0 <= k < |probes| ==>
      calls[k] == Request(n, probes[k].x, probes[k].which != ObjectiveOnly)
    ensures ret == 0 <==>
      forall k :: 0 <= k < |probes| && Inside(old(l[..n]), old(u[..n]), probes[k].x) ==> probes[k].value >= DBL_MAX
    ensures ret == 0 ==> x[..] == old(x[..]) && minf[..] == old(minf[..])
    ensures ret == 1 ==> Best(minf[0], x[..n]) == Run(old(l[..n]), old(u[..n]), Initial(n), probes)
    ensures ret == 1 ==> x[n..] == old(x[n..]) && Inside(old(l[..n]), old(u[..n]), x[..n])
    ensures ret == 1 ==> exists k :: (FirstMinimizer(old(l[..n]), old(u[..n]), Initial(n), probes, k) &&
                                      minf[0] == probes[k].value && x[..n] == probes[k].x)
  {
    ghost var lo, hi := l[..n], u[..n];
    var params := MakeParams(n, nrandom);
    var D := MakeBox(n, l, u);
    var problem := new MyGlobal(D, params);
    var dummyvec := new real[n](_ => 0.0);
    calls := problem.Search(probes);
    SearchOutcome(lo, hi, probes);
    ghost var r := Run(lo, hi, Initial(n), probes);
    assert problem.Record() == r;

    if problem.NoMinimizers() {
      assert r.minf >= DBL_MAX;
      ret := 0;
      return;
    }
    assert r.minf < DBL_MAX && Inside(lo, hi, r.x);

    minf[0] := problem.OneMinimizer(dummyvec);
    Copy(dummyvec[..], x);
    ret := 1;
  }
}
