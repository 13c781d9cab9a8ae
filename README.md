# StoGO front end: the feasibility-gated best-point tracker

This project models the C-callable front end to the StoGO global optimiser
(`src/algs/stogo/stogo.cc` in NLopt) and proves what it promises its callers.

The front end has two parts:

- **`MyGlobal`** is the objective adapter the StoGO engine calls back into.
  Each evaluation does four things. It counts itself in `numeval`. It forwards
  the point to the caller's `objective_func`, with a gradient buffer only in the
  two gradient modes. It hands the value back to the engine unchanged. It
  records the point and the value in `minf`/`bestx` only when the point lies in
  the box and the value is strictly below the current `minf`, which starts at
  `DBL_MAX`. `NoMinimizers` says whether anything was recorded, and
  `OneMinimizer` copies the record out.
- **`stogo_minimize`** fills a box from the caller's `l`/`u` arrays and derives
  the engine's parameters. It runs the search and then either returns 0 and
  leaves `*minf` and `x` alone, or returns 1 and copies out the recorded value
  and point.

The project has three modules:

- `box.dfy`, module `StogoBox`: the box domain (`TBox`, with bound arrays
  `lb`/`ub`) and its feasibility test `Inside`/`InsideBox`. The test means
  inclusive bounds in every dimension. The StoGO library that defines it is not
  part of this model.
- `tracker.dfy`, module `StogoTracker`: the record as a value.
  - `Step` is one evaluation.
  - `Run` is a whole search: `Step` applied to the engine's probes in order.
  - `Improves` and `FirstMinimizer` give an independent, declarative
    description of the result.
  - The lemmas connect `Run` to that description.
- `stogo.dfy`, module `Stogo`: the class `MyGlobal`, with fields `Domain`,
  `params`, `numeval`, `minf` and `bestx` (an array updated in place). Its
  methods are proved to keep exactly the record that `Run` describes.
  `StogoMinimize` is the entry point. It writes to the caller's output arrays
  `x` and `minf`, where `minf` is a one-element array standing for the `double *`
  slot.

The StoGO engine is outside the model. It is represented by an arbitrary finite
sequence of probes. Each probe is a point, a mode, and the value the caller's
objective returned for that call. `MyGlobal.Search` feeds the probes through
`ObjectiveGradient` one at a time. The objective is therefore any callback,
stateful or not: its answers are data. Because `Run` is a function, two searches
with the same probes give the same result.

The sentinel is `DBL_MAX`, the largest finite double, written out exactly as
2^1024 - 2^971. The code tests `minf >= DBL_MAX`, so a feasible value equal to
`DBL_MAX` is never recorded and never reported.

## Model

| member | source | states |
|---|---|---|
| `StogoBox.TBox.constructor` | src/algs/stogo/stogo.cc:75 | a fresh box of dimension n: two fresh, distinct bound arrays of length n |
| `StogoTracker.RunLowerBound` | src/algs/stogo/stogo.cc:35-38 | after any sequence of evaluations, the recorded value is at most the starting value and at most the value of every probe that lay in the box (the record is a running minimum over feasible probes) |
| `StogoTracker.RunPrefixMonotone` | src/algs/stogo/stogo.cc:35-38 | `minf` never increases as the search goes on: the record after a longer prefix of probes is no higher than after a shorter one |
| `StogoTracker.RunSelectsFirstMinimizer` | src/algs/stogo/stogo.cc:35-39 | the record stays as it started when no probe is both in the box and strictly below it; otherwise it holds the value and the point of the first feasible probe that reaches the feasible minimum, so ties and infeasible probes never take the record |
| `StogoTracker.SearchOutcome` | src/algs/stogo/stogo.cc:35-45 | from a fresh tracker, `minf >= DBL_MAX` after the search (no minimiser) exactly when no probe in the box returned less than `DBL_MAX`; otherwise the recorded point lies in the box and is the first feasible probe reaching the feasible minimum; the record never exceeds `DBL_MAX` |
| `StogoTracker.RunIsFeasibleMinimum` | src/algs/stogo/stogo.cc:35-39 | a feasible probe below `DBL_MAX` whose value is lowest among the feasible probes fixes the reported value, however low the values of infeasible probes were |
| `StogoTracker.SinglePointBox` | src/algs/stogo/stogo.cc:35-39 | in a box whose lower and upper bounds coincide, probing that point with a value below `DBL_MAX` makes it the result |
| `Stogo.MakeParams` | src/algs/stogo/stogo.cc:69-72 | the engine gets `nrandom` randomised points and deterministic points making up the rest of `2*n + 1` |
| `Stogo.Copy` | src/algs/stogo/stogo.cc:89 | element-by-element copy: the first entries of the destination take the source, the rest is untouched |
| `Stogo.MyGlobal.constructor` | src/algs/stogo/stogo.cc:14-19 | a fresh adapter on box D: `numeval` is 0, `minf` is `DBL_MAX`, `bestx` is a fresh vector of the box's dimension, and the object invariant holds |
| `Stogo.MyGlobal.ObjectiveGradient` | src/algs/stogo/stogo.cc:21-41 | `numeval` grows by exactly one in every mode; the objective is called with a gradient buffer exactly in the two gradient modes; the objective's value is returned unchanged; the record changes exactly when the point is in the box and the value is strictly below the old `minf`, and then becomes that value and point; `minf` never increases and ends at most the value of a feasible point; the invariant (record at most `DBL_MAX`, recorded point in the box) is kept |
| `Stogo.MyGlobal.NoMinimizers` | src/algs/stogo/stogo.cc:43-45 | "no minimiser" holds exactly when `minf` is still the sentinel `DBL_MAX`; when it does not hold, the recorded point lies in the box |
| `Stogo.MyGlobal.OneMinimizer` | src/algs/stogo/stogo.cc:47-50 | copies the recorded point into the given vector and returns the recorded value, leaving the record and the invariant intact |
| `Stogo.MyGlobal.Search` | src/algs/stogo/stogo.cc:83 | any finite sequence of evaluations: `numeval` grows by their number, one objective call per evaluation with the gradient buffer as the mode says, and the record becomes `Run` of the probes |
| `Stogo.MakeBox` | src/algs/stogo/stogo.cc:75-79 | the box passed to the search has `lb(i) = l[i]` and `ub(i) = u[i]` for every `i < n` |
| `Stogo.StogoMinimize` | src/algs/stogo/stogo.cc:55-91 | makes one objective call per probe, with a gradient buffer exactly in the two gradient modes; returns 0 exactly when no probe in the box returned a value below `DBL_MAX`, and then writes neither `*minf` nor `x`; otherwise returns 1, and `*minf` and `x[0..n)` hold the first feasible probe reaching the feasible minimum, which lies in the box `[l, u]`; `x` beyond `n` is untouched |

## Left out

- The StoGO search algorithm (`Global::Search`: branching, sampling, local refinement, stopping rules) is an external library. It is represented only by the finite sequence of evaluations it makes. The engine's own use of the returned values is not modelled.
- The caller's `objective_func` and its opaque `data` pointer are foreign code. Each call's returned value is an input to the model. The `data` pointer is passed through unchanged and is not modelled.
- `Stogo.MyGlobal.ObjectiveGradient` does not model what the objective writes into the gradient buffer. That write is the callback's own effect. The model records only whether a buffer or NULL was passed.
- The stopping configuration (`nlopt_stopping`, or `maxeval`/`maxtime` in the other build variant) is only passed through and involves wall-clock time, so it is not modelled. The tuning constants `eps_cl`, `rshift` and `mu` are carried in `GlobalParams` but not interpreted.
- Floating point is modelled as `real`. Rounding, infinities and NaN are not modelled. In the source a NaN value never compares below `minf`, so it is never recorded.
- `Stogo.MakeParams` uses unbounded integers, so `2*n + 1` cannot overflow as C `int` arithmetic could for very large `n`.
- The meaning of `InsideBox` (inclusive bounds) and the starting values of `numeval` (0) and `bestx` (zeros) come from the StoGO library, which is not part of this model. They are assumptions. The initial `bestx` is never observable.
- Dimension mismatches are undefined in the source. The model requires every probe to have the box's dimension, and `Inside` is false for a point of another length.
- `Stogo.StogoMinimize` requires the `*minf` slot and the array `x` to be distinct outputs. It does not model a caller whose `minf` pointer aliases an entry of `x`.
- `RVector`/`TBox` internals and the `raw_data` pointer plumbing are not modelled.
