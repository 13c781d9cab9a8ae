/** The best-point record that the StoGO front end keeps beside the search,
    stated over values: one evaluation is a Step, a whole search is the Run of
    the steps over the probes the engine made, in order. The class MyGlobal in
    module Stogo is proved to keep exactly this record. */
module StogoTracker {
  import opened StogoBox

  /** The largest finite double, 2^1024 - 2^971: the record's initial value,
      meaning that nothing has been recorded yet. */
  const DBL_MAX: real := 179769313486231570814527423731704356798070567525844996598917476803157260780028538760589558632766878171540458953514382464234321326889464182768467546703537516986049910576551282076245490090389328944075868508455133942304583236903222948165808559332123348274797826204144723168738177180919299881250404026184124858368.0

  /** What the engine asks of one evaluation. */
  datatype WhichO = ObjectiveOnly | GradientOnly | ObjectiveAndGradient

  /** One evaluation made by the engine: the point, the mode, and the value
      the caller's objective returned for it. */
  datatype Probe = Probe(x: seq<real>, which: WhichO, value: real)

  /** The best-point record: the best value seen and where it was seen. */
  datatype Best = Best(minf: real, x: seq<real>)

  /** The record of a fresh tracker in dimension n: the sentinel value and a
      zero vector. */
  function Initial(n: nat): Best
  {
    Best(DBL_MAX, seq(n, _ => 0.0))
  }

  /** One evaluation: the record takes the probe only when the point is in the
      box and its value is strictly below the recorded one. */
  function Step(lo: seq<real>, hi: seq<real>, b: Best, p: Probe): Best
  {
    if Inside(lo, hi, p.x) && p.value < b.minf then Best(p.value, p.x) else b
  }

  /** The record after the probes ps, starting from b. */
  function Run(lo: seq<real>, hi: seq<real>, b: Best, ps: seq<Probe>): Best
    decreases |ps|
  {
    if ps == [] then b else Step(lo, hi, Run(lo, hi, b, ps[..|ps| - 1]), ps[|ps| - 1])
  }

  /** Probe k lies in the box and beats the starting record b0. */
  predicate Improves(lo: seq<real>, hi: seq<real>, b0: Best, ps: seq<Probe>, k: int)
  {
    0 <= k < |ps| && Inside(lo, hi, ps[k].x) && ps[k].value < b0.minf
  }

  /** Probe k improves on b0, no probe in the box has a lower value, and every
      probe in the box before k has a strictly higher one: k is the first
      feasible probe that reaches the feasible minimum. */
  predicate FirstMinimizer(lo: seq<real>, hi: seq<real>, b0: Best, ps: seq<Probe>, k: int)
  {
    Improves(lo, hi, b0, ps, k) &&
    (forall j :: 0 <= j < |ps| && Inside(lo, hi, ps[j].x) ==> ps[k].value <= ps[j].value) &&
    (forall j :: 0 <= j < k && Inside(lo, hi, ps[j].x) ==> ps[k].value < ps[j].value)
  }

  /** The recorded value never exceeds the starting one, nor the value of any
      probe that lay in the box. */
  lemma {:induction false} RunLowerBound(lo: seq<real>, hi: seq<real>, b0: Best, ps: seq<Probe>)
    ensures Run(lo, hi, b0, ps).minf <= b0.minf
    ensures forall j :: 0 <= j < |ps| && Inside(lo, hi, ps[j].x) ==> Run(lo, hi, b0, ps).minf <= ps[j].value
  {
    if ps != [] {
      var qs := ps[..|ps| - 1];
      RunLowerBound(lo, hi, b0, qs);
      forall j | 0 <= j < |ps| - 1
        ensures ps[j] == qs[j]
      {
      }
    }
  }

  /** The recorded value never increases as more probes are made. */
  lemma {:induction false} RunPrefixMonotone(lo: seq<real>, hi: seq<real>, b0: Best, ps: seq<Probe>, i: nat, j: nat)
    requires i <= j <= |ps|
    ensures Run(lo, hi, b0, ps[..j]).minf <= Run(lo, hi, b0, ps[..i]).minf
    decreases j - i
  {
    if i < j {
      assert ps[..j][..j - 1] == ps[..j - 1];
      RunPrefixMonotone(lo, hi, b0, ps, i, j - 1);
    }
  }

  /** The record is left as it started exactly when no probe improved on it;
      otherwise it holds the first feasible probe reaching the feasible
      minimum. Infeasible probes and ties never take the record. */
  lemma {:induction false} RunSelectsFirstMinimizer(lo: seq<real>, hi: seq<real>, b0: Best, ps: seq<Probe>)
    ensures (forall k :: !Improves(lo, hi, b0, ps, k)) ==> Run(lo, hi, b0, ps) == b0
    ensures (exists k :: Improves(lo, hi, b0, ps, k)) ==>
      exists k :: FirstMinimizer(lo, hi, b0, ps, k) && Run(lo, hi, b0, ps) == Best(ps[k].value, ps[k].x)
  {
    if ps != [] {
      var n := |ps| - 1;
      var qs, p := ps[..n], ps[n];
      var r' := Run(lo, hi, b0, qs);
      RunLowerBound(lo, hi, b0, qs);
      RunSelectsFirstMinimizer(lo, hi, b0, qs);
      assert forall j :: 0 <= j < n ==> ps[j] == qs[j];
      if Inside(lo, hi, p.x) && p.value < r'.minf {
        assert FirstMinimizer(lo, hi, b0, ps, n);
      } else if exists k :: Improves(lo, hi, b0, ps, k) {
        var k :| Improves(lo, hi, b0, ps, k);
        assert exists k' :: Improves(lo, hi, b0, qs, k') by {
          if k < n {
            assert Improves(lo, hi, b0, qs, k);
          } else {
            assert r'.minf < b0.minf;
          }
        }
        var w :| FirstMinimizer(lo, hi, b0, qs, w) && r' == Best(qs[w].value, qs[w].x);
        assert FirstMinimizer(lo, hi, b0, ps, w);
      } else {
        assert forall k :: 0 <= k < n ==> !Improves(lo, hi, b0, qs, k) by {
          forall k | 0 <= k < n ensures !Improves(lo, hi, b0, qs, k) {
            assert !Improves(lo, hi, b0, ps, k);
          }
        }
      }
    }
  }

  /** What the front end reports after a search from a fresh tracker: a
      result exactly when some probe in the box returned a value below
      DBL_MAX, and then the result lies in the box and is the first feasible
      probe reaching the feasible minimum. The record never exceeds DBL_MAX. */
  lemma {:induction false} SearchOutcome(lo: seq<real>, hi: seq<real>, ps: seq<Probe>)
    ensures Run(lo, hi, Initial(|lo|), ps).minf <= DBL_MAX
    ensures Run(lo, hi, Initial(|lo|), ps).minf >= DBL_MAX <==>
      forall k :: 0 <= k < |ps| && Inside(lo, hi, ps[k].x) ==> ps[k].value >= DBL_MAX
    ensures var r := Run(lo, hi, Initial(|lo|), ps);
      r.minf < DBL_MAX ==>
        Inside(lo, hi, r.x) &&
        exists k :: FirstMinimizer(lo, hi, Initial(|lo|), ps, k) && r == Best(ps[k].value, ps[k].x)
  {
    var b0 := Initial(|lo|);
    RunLowerBound(lo, hi, b0, ps);
    RunSelectsFirstMinimizer(lo, hi, b0, ps);
  }

  /** When a probe in the box reaches the lowest value among the probes in the
      box, and that value is below DBL_MAX, the search reports exactly that
      value, however low the values outside the box were. */
  lemma {:induction false} RunIsFeasibleMinimum(lo: seq<real>, hi: seq<real>, ps: seq<Probe>, k: int)
    requires 0 <= k < |ps| && Inside(lo, hi, ps[k].x) && ps[k].value < DBL_MAX
    requires forall j :: 0 <= j < |ps| && Inside(lo, hi, ps[j].x) ==> ps[k].value <= ps[j].value
    ensures Run(lo, hi, Initial(|lo|), ps).minf == ps[k].value
  {
    var b0 := Initial(|lo|);
    RunLowerBound(lo, hi, b0, ps);
    assert Improves(lo, hi, b0, ps, k);
    RunSelectsFirstMinimizer(lo, hi, b0, ps);
  }

  /** A box whose lower and upper bounds coincide holds one point; once that
      point is probed with a value below DBL_MAX, it is the result. */
  lemma {:induction false} SinglePointBox(pt: seq<real>, ps: seq<Probe>, k: int)
    requires 0 <= k < |ps| && ps[k].x == pt && ps[k].value < DBL_MAX
    ensures Run(pt, pt, Initial(|pt|), ps).minf < DBL_MAX
    ensures Run(pt, pt, Initial(|pt|), ps).x == pt
  {
    var b0 := Initial(|pt|);
    assert Improves(pt, pt, b0, ps, k);
    RunLowerBound(pt, pt, b0, ps);
    RunSelectsFirstMinimizer(pt, pt, b0, ps);
    var w :| FirstMinimizer(pt, pt, b0, ps, w) && Run(pt, pt, b0, ps) == Best(ps[w].value, ps[w].x);
    assert ps[w].x == pt;
  }
}
