# Reward-driven portfolio weight adjustment, in Dafny

This project models `rl_adjust_weights`, the one function of the
Reinforcement-Learning-Inspired Adjustment Module. The function takes a
portfolio weight vector and a reward, which is either one scalar for the whole
portfolio or one value per asset. It returns new weights on the probability
simplex:

1. reject any negative weight, and reject a weight sum that is not positive;
2. normalise the weights by their sum;
3. multiply each weight by `1 + eta * reward`;
4. floor each entry at `clip_min`;
5. report a collapse when the floored sum is not positive;
6. otherwise divide by that sum.

The model is pure, like the source. It works on `seq<real>`, so "sums to 1" is
exact rather than approximate, and every value is finite.

- `vectors.dfy` (module `Vectors`): the whole-vector arithmetic the function uses,
  `Sum` and `DivideBy`, the scaling `Scale` used to state scale invariance, and
  what summing does to each.
- `rl_adjustment.dfy` (module `RlAdjustment`):
  - the `Reward` and `Outcome` datatypes;
  - numpy-style broadcasting of the reward (`Broadcast`);
  - the function itself (`AdjustWeights`) and its properties;
  - the corrected variant described under Findings.
- `adjustment_examples.dfy` (module `AdjustmentExamples`): the calls made by
  `Tests/test_rl_module.py`, and the two rejected inputs, as concrete lemmas.

The source raises `ValueError` for every failure. The model splits these into
`InvalidInput` and `Collapse`:

- `InvalidInput` covers the weight checks at lines 35-39, and a reward vector
  that numpy cannot broadcast at line 43.
- `Collapse` covers the check at lines 46-48.

The docstring calls `clip_min` a "minimum floor to avoid negative/zero-collapse"
(rl_adjustment.py:26-27) and promises non-negative weights
(rl_adjustment.py:32), but the code never checks the sign of `clip_min`. The
model follows the code: it accepts any `clipMin`. The consequence is recorded
under Findings.

## Model

| member | source | states |
|---|---|---|
| `Vectors.SumNonNegative` | rl_adjustment.py:37 | `Sum` models `w.sum()`. A vector with no negative entry has a non-negative sum, and that sum is zero exactly when every entry is zero. |
| `Vectors.DivideByInverse` | rl_adjustment.py:40 | `DivideBy` models `w / s0` (and `new_w / s` at line 49). Multiplying the quotient back by the divisor gives the original vector. |
| `RlAdjustment.WeightCheckRejectsExactly` | rl_adjustment.py:35-39 | `HasNegative` models `np.any(w < 0)`. Together with the sum guard, the checks refuse exactly the vectors with a negative entry and the all-zero vectors, the empty one included. |
| `RlAdjustment.AdjustedSign` | rl_adjustment.py:43 | `Adjusted` models `w * (1 + eta * r)` for one asset. On a weight `>= 0`, it is unchanged when `eta * r == 0`, non-negative when `1 + eta * r >= 0`, and negative when the weight is positive and `1 + eta * r < 0`. |
| `RlAdjustment.UpdateSigns` | rl_adjustment.py:43 | `Update` applies the step to every asset with its own reward and keeps the length. It carries the three sign facts of `AdjustedSign` entry by entry. |
| `RlAdjustment.Max` | rl_adjustment.py:45 | The result is at least both arguments and equal to one of them. |
| `RlAdjustment.Clip` | rl_adjustment.py:45 | `np.maximum(new_w, clip_min)`: same length, and each entry is at least both the updated value and `clip_min`, equal to one of the two. |
| `RlAdjustment.DefaultsNeverCollapse` | rl_adjustment.py:15 | With the default `eta = 0.01` and `clip_min = 1e-12`, the collapse error never happens, and every successful result is strictly positive and sums to 1. |
| `Vectors.SumScale` | rl_adjustment.py:37-40 | Multiplying every entry by `c` multiplies the sum by `c`. |
| `Vectors.SumDivideBy` | rl_adjustment.py:40 | Dividing every entry by a non-zero `d` divides the sum by `d`. |
| `Vectors.SumAtLeast` | rl_adjustment.py:45-46 | A vector whose entries are all at least `m` sums to at least `n * m`. |
| `Vectors.SumOfNormalized` | rl_adjustment.py:49 | A vector divided by its own non-zero sum sums to exactly 1. |
| `RlAdjustment.Broadcast` | rl_adjustment.py:43 | A scalar, or a one-entry vector, is repeated once per asset. A vector of length `n` is used as it is. Every other length fails, and the result always has `n` entries. The contract states the contents in all three accepted cases. |
| `RlAdjustment.AdjustWeights` | rl_adjustment.py:15-49 | The call fails with `InvalidInput` exactly when some weight is negative, the weight sum is not positive, or the reward cannot be broadcast. A successful result has one entry per input weight. |
| `RlAdjustment.Floored` | rl_adjustment.py:43-49 | On success, the floored values have one entry per asset, each at least `clip_min`, with a positive sum. The result is these values divided by that sum. |
| `RlAdjustment.OkIsOnSimplex` | rl_adjustment.py:45-49 | A successful result has the input's length and sums to exactly 1. Its entries are `>= 0` when `clip_min >= 0`, and `> 0` when `clip_min > 0`. |
| `RlAdjustment.CollapseNeedsNonPositiveFloor` | rl_adjustment.py:45-48 | The collapse error is returned only when `clip_min <= 0`. |
| `RlAdjustment.CollapseAtZeroFloor` | rl_adjustment.py:43-48 | With `clip_min = 0` and valid weights and reward, the call fails with `Collapse` exactly when the update takes every normalised weight to `<= 0`. |
| `RlAdjustment.ScaleInvariance` | rl_adjustment.py:35-40 | Multiplying all weights by the same `c > 0` leaves the outcome unchanged, errors included. |
| `RlAdjustment.PreNormalizationInvariance` | rl_adjustment.py:37-40 | Normalising the weights before the call gives the same outcome as passing them unnormalised. |
| `RlAdjustment.ScalarRewardKeepsProportions` | rl_adjustment.py:40-49 | Take a scalar reward whose factor `1 + eta * x` is positive and floors no entry. The result is the normalised input, so relative weights are unchanged. |
| `RlAdjustment.UniformGrowthUnclipped` | rl_adjustment.py:43-49 | On a vector summing to 1, a uniform positive factor that keeps every entry above the floor is cancelled by the renormalisation. |
| `RlAdjustment.RewardOrdering` | rl_adjustment.py:43-49 | Assume a per-asset reward, `eta > 0` and `clip_min >= 0`. If `w[i] >= w[j]` and `r[i] > r[j]`, then `result[i] >= result[j]`. The inequality is strict when asset `i`'s updated value exceeds `clip_min`. |
| `RlAdjustment.AdjustWeightsChecked` | rl_adjustment.py:26-32 | Corrected variant: a negative `clip_min` is refused, and for every `clip_min >= 0` the outcome is exactly that of `AdjustWeights`. Every successful result has non-negative entries that sum to 1. |
| `RlAdjustment.NegativeFloorYieldsNegativeWeight` | rl_adjustment.py:45-49 | As written, weights `[0.5, 0.5]`, rewards `[-3, 10]`, `eta = 1` and `clip_min = -1` return `[-2/9, 11/9]`, which has a negative entry. The corrected variant refuses this call. |
| `AdjustmentExamples.ScalarRewardExample` | Tests/test_rl_module.py:5-10 | Weights `[0.5, 0.3, 0.2]`, scalar reward 0.1 and `eta = 0.5` return exactly `[0.5, 0.3, 0.2]`: non-negative, with sum 1. |
| `AdjustmentExamples.VectorRewardExample` | Tests/test_rl_module.py:12-17 | Weights `[0.4, 0.3, 0.3]`, rewards `[0.1, -0.2, 0.0]` and `eta = 0.5` succeed, with `result[0] > result[1]`. |
| `AdjustmentExamples.ExtremeNegativeRewardCollapses` | Tests/test_rl_module.py:19-23 | Weights `[0.6, 0.4]`, reward `-1e9`, `eta = 1e9` and `clip_min = 0` fail with `Collapse`; no vector is returned. |
| `AdjustmentExamples.NegativeWeightRejected` | rl_adjustment.py:35-36 | Weights `[-0.1, 1.1]` fail with `InvalidInput`, whatever the reward and parameters. |
| `AdjustmentExamples.ZeroWeightsRejected` | rl_adjustment.py:37-39 | All-zero weights fail with `InvalidInput`. |

## Left out

- The `np.isfinite` halves of the guards at lines 38 and 47 are not modelled. Reals have no infinity or NaN, so only the `<= 0` halves remain. In floating point, an overflowing update (for example `eta = reward = 1e200`) makes `new_w` infinite and lines 47-48 raise the collapse error even with a positive `clip_min`; the model returns a vector there, so `CollapseNeedsNonPositiveFloor` holds of the real-valued model, not of the float program. IEEE rounding is not modelled either, so the model proves exact equality to 1 where the tests allow a tolerance.
- The `np.asarray(..., dtype=float)` coercion of arbitrary array-likes is not modelled. Weights are a flat `seq<real>`. Rewards are the `Scalar`/`PerAsset` datatype, with no multi-dimensional shapes.
- `Broadcast` does not model one numpy case: a single weight paired with a reward vector of some other length. numpy would broadcast the result to the reward's length. The model returns `InvalidInput` instead.
- Default arguments are not modelled as such: `eta = 0.01` and `clip_min = 1e-12` are the constants `DefaultEta` and `DefaultClipMin`, which callers pass explicitly.
- The source's error messages are not modelled. Both errors are `ValueError` there; the model tells them apart by constructor.
- `examples.py` is not modelled: it is a demo that prints one call's result.
- `Tests/test_companion_pdf.py` is not modelled: it only checks that a PDF file exists on disk.
- RewardOrdering: requires `clip_min >= 0`. With a negative floor, two entries driven below zero keep their negative values, and the order can reverse. It does not require `w[j] > 0`.
- ScalarRewardKeepsProportions: holds only when no entry is floored. A uniform scalar reward might be expected to keep proportions, but the code floors small or negatively scaled entries to `clip_min`, which changes their proportions. The model follows the code.

## Findings

| source | as written | input that shows it | evidently intended | confidence | as-written member | corrected member |
|---|---|---|---|---|---|---|
| rl_adjustment.py:45-49 | `clip_min` is never checked. A negative floor lets negative updated values through, and the call still returns a vector. | weights `[0.5, 0.5]`, reward `[-3.0, 10.0]`, `eta = 1.0`, `clip_min = -1.0` returns `[-2/9, 11/9]` | The docstring (lines 26-32) promises non-negative weights, so a negative floor should be refused. | medium, not executed | `RlAdjustment.NegativeFloorYieldsNegativeWeight` | `RlAdjustment.AdjustWeightsChecked` |
