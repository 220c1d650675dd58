/** The adjuster on the concrete calls of its test suite, and on the two
    rejected inputs its validation names. */
module AdjustmentExamples {
  import opened Vectors
  import opened RlAdjustment

  /** A scalar reward of 0.1 at learning rate 0.5 scales every weight of
      `[0.5, 0.3, 0.2]` by 1.05, so the result is the input itself:
      non-negative and summing to 1. */
  lemma ScalarRewardExample()
    ensures AdjustWeights([0.5, 0.3, 0.2], Scalar(0.1), 0.5, DefaultClipMin) == Ok([0.5, 0.3, 0.2])
  {
    var weights := [0.5, 0.3, 0.2];
    assert weights[1..] == [0.3, 0.2] && weights[1..][1..] == [0.2] && weights[1..][1..][1..] == [];
    assert Sum(weights) == 1.0;
    assert !HasNegative(weights);
    assert DivideBy(weights, 1.0) == weights;
    ScalarRewardKeepsProportions(weights, 0.1, 0.5, DefaultClipMin);
  }

  /** Rewards `[0.1, -0.2, 0.0]` at learning rate 0.5 promote the first of
      `[0.4, 0.3, 0.3]` above the second. */
  lemma VectorRewardExample()
    ensures var r := AdjustWeights([0.4, 0.3, 0.3], PerAsset([0.1, -0.2, 0.0]), 0.5, DefaultClipMin);
      r.Ok? && r.weights[0] > r.weights[1]
  {
    var weights, rs := [0.4, 0.3, 0.3], [0.1, -0.2, 0.0];
    assert weights[1..] == [0.3, 0.3] && weights[1..][1..] == [0.3] && weights[1..][1..][1..] == [];
    assert Sum(weights) == 1.0;
    assert !HasNegative(weights);
    CollapseNeedsNonPositiveFloor(weights, PerAsset(rs), 0.5, DefaultClipMin);
    assert Adjusted(Ratio(weights[0], Sum(weights)), 0.5, rs[0]) > DefaultClipMin;
    RewardOrdering(weights, rs, 0.5, DefaultClipMin, 0, 1);
  }

  /** A reward of -1e9 at learning rate 1e9 with no floor drives both weights
      of `[0.6, 0.4]` below zero; they floor to 0 and the call reports a
      collapse instead of returning a vector. */
  lemma ExtremeNegativeRewardCollapses()
    ensures AdjustWeights([0.6, 0.4], Scalar(-1000000000.0), 1000000000.0, 0.0) == Collapse
  {
    var weights := [0.6, 0.4];
    assert weights[1..] == [0.4] && weights[1..][1..] == [];
    assert Sum(weights) == 1.0;
    assert !HasNegative(weights);
    assert Ratio(weights[0], 1.0) == 0.6 && Ratio(weights[1], 1.0) == 0.4;
    CollapseAtZeroFloor(weights, Scalar(-1000000000.0), 1000000000.0);
  }

  /** A negative weight is refused whatever the reward and parameters. */
  lemma NegativeWeightRejected(reward: Reward, eta: real, clipMin: real)
    ensures AdjustWeights([-0.1, 1.1], reward, eta, clipMin) == InvalidInput
  {
    assert [-0.1, 1.1][0] < 0.0;
  }

  /** All-zero weights have no positive sum and are refused. */
  lemma ZeroWeightsRejected(reward: Reward, eta: real, clipMin: real)
    ensures AdjustWeights([0.0, 0.0], reward, eta, clipMin) == InvalidInput
  {
    assert [0.0, 0.0][1..] == [0.0] && [0.0][1..] == [];
    assert Sum([0.0, 0.0]) == 0.0;
  }
}
