# Line-of-sight binaries: a verified model of the Monte Carlo estimator

The repository estimates, for each candidate binary star, the probability that
a close companion is a chance line-of-sight alignment rather than a physical
pair. For every target it builds a box of sky coordinates around the target,
keeps the field stars ("secondaries") strictly inside that box, places
simulated stars in the box, and counts the trials in which some kept
secondary lies closer than a threshold in arcseconds. The estimate is that
count divided by the number of trials.

The program exists twice with identical line numbering: `line_of_sight.py`
(snake_case) and `lineOfSight.py` (camelCase). This project models it once:

| source function (snake_case / camelCase) | Dafny member |
|---|---|
| `calc_coord_range` / `calcCoordRange` | `LineOfSight.CalcCoordRange` |
| `select_secondaries` / `selectSecondaries` | `LineOfSight.SelectSecondaries` |
| `calc_dist` / `calcDist` | `LineOfSight.CalcDist` |
| `calc_LOS` / `calcLOS` | `LineOfSight.CalcLOS` (method), specified by `LineOfSight.LOSFraction` |
| `calc_LOS_percent` / `calcLOSpercent` | `LineOfSight.CalcLOSPercent` (method), specified by `LineOfSight.EstimateAll` |

Files:

- `Numerics.dfy` holds what the program takes from NumPy. `np.cos(np.radians(x))`
  and `np.sqrt` are function values in a `Maths` record. Its `Valid()` predicate
  states the facts the proofs use: the cosine lies in [-1, 1], it is non-negative
  on [-90, 90] degrees and positive strictly between. The square root is
  non-negative and strictly increasing, with `sqrt(0) = 0` and `sqrt(1) = 1`.
  The file also holds Python's `min` and a few arithmetic helper lemmas.
- `LineOfSight.dfy` holds the bounding box, the strict filter, the flat-sky
  distance, the trial counter and the batch driver.
- `Scenarios.dfy` holds whole-batch consequences. A target with no secondary in
  its box gets exactly 0. An empty catalog gives all zeros. A target at
  (10, 41) with a coincident secondary, a 5-arcminute radius and a
  9999999-arcsecond threshold gets exactly 1.

The random draws of `np.random.uniform` are an input. Each target gets its own
sequence of `n_runs` sample points, and each point must lie between the box's
bounds. That makes the trial counter a deterministic count. All numbers are
Dafny `real`s.

Three points where the code is weaker than one might expect, and how the
model states them:

- Minimum RA ≤ maximum RA does not hold by construction. It holds only when
  `dist * cos(dec) ≥ 0` (line_of_sight.py:23-24). The contract of
  `CalcCoordRange` states it for a non-negative radius and a declination in
  [-90, 90].
- The box is not always non-degenerate for a positive radius: at a pole the
  cosine is 0 and the RA range collapses to a point. The contract of
  `CalcCoordRange` states that the binary lies strictly inside its box for
  declinations strictly between the poles, where the cosine is positive.
- The docstrings of `calc_LOS` and `calc_LOS_percent` give the threshold in
  arcminutes. The code compares it with distances in degrees × 3600, i.e.
  arcseconds, and the model does the same.

## Model

Each row holds for both twin files at the same lines. Rows for the operations
cite `line_of_sight.py`; rows for the properties proved about them cite
`lineOfSight.py`.

| member | source | states |
|---|---|---|
| LineOfSight.CalcCoordRange | line_of_sight.py:19-37 | the Dec bounds are ordered and are exactly `bin_dec - dist/60` and `bin_dec + dist/60`, in whichever order the comparison puts them; the RA bounds are symmetric about `bin_RA` and their half-width is `dist/60 · cos(bin_dec)`; with `dist ≥ 0` and a declination in [-90, 90] (so cos ≥ 0) `minRA ≤ maxRA`; with `dist > 0` strictly between the poles the binary lies strictly inside its own box |
| LineOfSight.SelectSecondaries | line_of_sight.py:53-59 | the result is no longer than the input, and a point is in it exactly when it is in the input and strictly inside all four bounds, the four strict comparisons of lines 54-57 being the predicate `InRange` (sound and complete; boundary points excluded) |
| LineOfSight.SelectSecondariesIsMask | lineOfSight.py:53-58 | the result is the input read at the mask's true positions in strictly increasing order, and those positions are exactly the ones whose point passes all four strict comparisons: an order-preserving subsequence, as boolean-mask indexing gives |
| LineOfSight.SelectSecondariesCounts | lineOfSight.py:53-58 | every point inside the box is kept with its full multiplicity, every other point is dropped |
| LineOfSight.SelectSecondariesNone | lineOfSight.py:53-58 | when no point is strictly inside the box, the result is empty (in particular for an empty input) |
| LineOfSight.SqSeparation | line_of_sight.py:76-79 | the squared flat-sky separation, with the RA difference scaled by the cosine of the query point's declination only, is non-negative |
| LineOfSight.SeparationDist | line_of_sight.py:76-79 | the distance to one star is non-negative, and it is zero exactly when the squared separation is zero |
| LineOfSight.SeparationZeroIffSame | lineOfSight.py:76-79 | strictly between the poles, the distance from a query point to a star is zero exactly when the two positions are the same |
| LineOfSight.PoleSeparationZero | lineOfSight.py:76-79 | at a pole, where the cosine of the query point's declination is 0, two different right ascensions are at distance 0: the flat-sky distance does not separate points there |
| LineOfSight.CalcDist | line_of_sight.py:73-81 | exactly one distance per input star, in input order, each the flat-sky distance of that star and each non-negative; the distance to a star at the query point's own position is 0 |
| Numerics.Min | line_of_sight.py:115 | Python's `min` of a non-empty list: an element of the list that no element is below |
| Numerics.MinBelow | lineOfSight.py:115 | the minimum is below a bound exactly when some element is |
| LineOfSight.IsHitIff | lineOfSight.py:111-116 | the per-trial test `IsHit` (lines 111-115: distances converted by `ToArcseconds`, i.e. degrees × 3600, then `len(dists) > 0` and `min(dists) < dist_LOS`) holds exactly when some secondary lies closer than `dist_LOS` arcseconds; with no secondaries no trial counts |
| LineOfSight.Hits | line_of_sight.py:101-116 | the number of counted trials never exceeds the number of trials |
| LineOfSight.LOSFraction | line_of_sight.py:118-121 | the estimate `los / n_runs` lies in [0, 1] |
| LineOfSight.CalcLOS | line_of_sight.py:101-121 | the loop returns the counted trials over `n_runs` (the counter never exceeds the trials done so far), the result lies in [0, 1], and an empty secondary list gives exactly 0; `n_runs = 0` is excluded, as it divides by zero |
| LineOfSight.HitsNone | lineOfSight.py:114-116 | when no trial passes the test, the counter stays 0 |
| LineOfSight.HitsAll | lineOfSight.py:114-116 | when every trial passes the test, the counter reaches the number of trials |
| LineOfSight.NoSecondariesZero | lineOfSight.py:114-121 | with an empty secondary list no trial passes the `len(dists) > 0` guard and the estimate is exactly 0 |
| LineOfSight.HitsMonotone | lineOfSight.py:115-116 | for fixed draws, a larger `dist_LOS` never counts fewer trials |
| LineOfSight.LOSFractionMonotone | lineOfSight.py:115-120 | for fixed draws, the estimate is monotone non-decreasing in `dist_LOS` |
| LineOfSight.EstimateTarget | line_of_sight.py:145-149 | one iteration of the driver returns the estimate for that target's box, the secondaries filtered by that box, and that target's draws |
| LineOfSight.EstimateAll | line_of_sight.py:140-153 | one result per unknown binary, in input order; entry `i` is the estimate from target `i`'s box, the secondaries filtered by that box and target `i`'s draws, and lies in [0, 1] |
| LineOfSight.CalcLOSPercent | line_of_sight.py:140-153 | the driver returns a fresh array as long as the list of unknown binaries whose contents are exactly `EstimateAll` |
| Scenarios.NoSecondaryInBoxZero | lineOfSight.py:145-151 | a target whose box holds no secondary gets exactly 0, whatever the draws |
| Scenarios.EmptyCatalogAllZero | lineOfSight.py:140-153 | with an empty secondary catalog every entry of the result is exactly 0 |
| Scenarios.DrawNearCentre | lineOfSight.py:73-79 | every draw in the 5-arcminute box of (10, 41) lies less than one degree from (10, 41) |
| Scenarios.CoincidentSecondaryCertain | lineOfSight.py:140-153 | a binary at (10, 41) with a secondary at the same place, a 5-arcminute radius and a 9999999-arcsecond threshold gets exactly 1.0, for any positive number of trials and any draws in its box |

## Left out

- `main` in both files (lines 156-172): reading the coordinate tables with `np.loadtxt`, writing the results with `np.savetxt`, and the hard-coded parameters. These are file I/O, not estimation logic.
- The random source. `np.random.uniform` is replaced by draws supplied as input, each between the box's bounds. The model does not capture the uniform distribution or any statistical claim ("≈ 1.0 within Monte Carlo noise"). Instead it proves exact results that hold for every admissible sequence of draws.
- `np.random.uniform` draws from the half-open interval [low, high). The model admits the closed interval, and it also admits bounds given in decreasing order, a case NumPy leaves undefined. This is a weaker requirement on the draws, so every property proved still holds for real draws.
- IEEE floating point: all arithmetic is exact over `real`. Rounding, overflow, NaN and infinities are not modelled.
- Trigonometry. `np.cos(np.radians(x))` is an arbitrary function with values in [-1, 1], non-negative on [-90, 90] and positive strictly between. No other property of the cosine is used.
- SeparationDist: the square root is characterised only by non-negativity, `sqrt(0) = 0`, `sqrt(1) = 1` and strict monotonicity, not by `sqrt(x)^2 = x`. This is enough for the zero cases: the distance is zero exactly when the squared separation is. Strictly between the poles that happens only for identical points (`SeparationZeroIffSame`). At a pole the cosine is 0, so distinct points can be at distance 0 (`PoleSeparationZero`). No numeric value of a non-zero distance is modelled.
- NumPy vectorisation (`np.ones` broadcasting, boolean-mask indexing) is written as sequence comprehensions and recursion over `seq`. The input tables are sequences of `SkyPoint` values rather than two-column arrays.
- `n_runs = 0` raises a division by zero in the source. The model makes `n_runs > 0` a precondition of `CalcLOS`, and of `CalcLOSPercent` whenever there is at least one unknown binary.
- CalcLOS, CalcLOSPercent: `n_runs` is a `nat`, so a negative value cannot be expressed. In the source a negative `n_runs` gives an empty `range` (line_of_sight.py:104), so `los` stays 0 and `los * 1.0 / n_runs` returns `-0.0` without an error (line 120). `calc_LOS_percent` then silently returns all zeros instead of failing. The model does not capture this case.
