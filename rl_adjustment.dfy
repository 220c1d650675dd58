/** The reward-driven weight adjuster: a multiplicative update of a portfolio
    weight vector, followed by a floor at `clipMin` and renormalisation onto
    the probability simplex. Reals stand in for floating point, so "sums to 1"
    is exact and every value is finite. */
module RlAdjustment {
  import opened Vectors

  /** The reward: one value for the whole portfolio, or one value per asset. */
  datatype Reward = Scalar(value: real) | PerAsset(values: seq<real>)

  /** What the adjuster returns: new weights, or one of its two errors. */
  datatype Outcome = Ok(weights: seq<real>) | InvalidInput | Collapse

  datatype Option<T> = None | Some(value: T)

  /** Default learning rate and clipping floor of the adjuster. */
  const DefaultEta: real := 0.01
  const DefaultClipMin: real := 0.000000000001

  /** Some weight is negative. */
  predicate HasNegative(w: seq<real>)
  {
    exists k :: 0 <= k < |w| && w[k] < 0.0
  }

  /** The reward as one value per asset, the way numpy broadcasts it against
      `n` weights: a scalar or a one-entry vector is repeated, a vector of
      length `n` is taken as it is, and any other length cannot be broadcast. */
  function Broadcast(reward: Reward, n: nat): (r: Option<seq<real>>)
    ensures r.Some? ==> |r.value| == n
    ensures r.None? <==> reward.PerAsset? && |reward.values| != n && |reward.values| != 1
    ensures reward.Scalar? ==> r.Some? && forall k :: 0 <= k < n ==> r.value[k] == reward.value
    ensures reward.PerAsset? && |reward.values| == n ==> r == Some(reward.values)
    ensures reward.PerAsset? && |reward.values| == 1 ==>
              r.Some? && forall k :: 0 <= k < n ==> r.value[k] == reward.values[0]
  {
    match reward
    case Scalar(x) => Some(seq(n, _ => x))
    case PerAsset(rs) =>
      if |rs| == n then Some(rs)
      else if |rs| == 1 then Some(seq(n, _ => rs[0]))
      else None
  }

  /** One weight `x` after the multiplicative step for reward `r`: `x * (1 + eta * r)`. */
  function Adjusted(x: real, eta: real, r: real): real
  {
    x * (1.0 + eta * r)
  }

  /** The multiplicative step applied to every weight with its own reward. */
  function Update(w: seq<real>, rs: seq<real>, eta: real): seq<real>
    requires |rs| == |w|
  {
    seq(|w|, k requires 0 <= k < |w| => Adjusted(w[k], eta, rs[k]))
  }

  /** The larger of `x` and `m`. */
  function Max(x: real, m: real): (r: real)
    ensures x <= r && m <= r && (r == x || r == m)
  {
    if x >= m then x else m
  }

  /** Every entry floored at `clipMin` (numpy's `maximum`). */
  function Clip(u: seq<real>, clipMin: real): (c: seq<real>)
    ensures |c| == |u|
    ensures forall k :: 0 <= k < |u| ==>
              u[k] <= c[k] && clipMin <= c[k] && (c[k] == u[k] || c[k] == clipMin)
  {
    seq(|u|, k requires 0 <= k < |u| => Max(u[k], clipMin))
  }

  /** The adjuster as written: reject negative weights and a non-positive sum,
      normalise, apply the update, floor at `clipMin`, report a collapse when the
      floored sum is not positive, and otherwise divide by that sum. */
  function AdjustWeights(weights: seq<real>, reward: Reward, eta: real, clipMin: real): (r: Outcome)
    ensures r == InvalidInput <==>
              HasNegative(weights) || Sum(weights) <= 0.0 || Broadcast(reward, |weights|).None?
    ensures r.Ok? ==> |r.weights| == |weights|
  {
    if HasNegative(weights) then InvalidInput
    else
      var s0 := Sum(weights);
      if s0 <= 0.0 then InvalidInput
      else
        var w := DivideBy(weights, s0);
        match Broadcast(reward, |w|)
        case None => InvalidInput
        case Some(rs) =>
          var clipped := Clip(Update(w, rs, eta), clipMin);
          var s := Sum(clipped);
          if s <= 0.0 then Collapse else Ok(DivideBy(clipped, s))
  }

  /** The floored, updated weights that a successful call divides by their sum. */
  function Floored(weights: seq<real>, reward: Reward, eta: real, clipMin: real): (c: seq<real>)
    requires AdjustWeights(weights, reward, eta, clipMin).Ok?
    ensures |c| == |weights| && Sum(c) > 0.0
    ensures AdjustWeights(weights, reward, eta, clipMin) == Ok(DivideBy(c, Sum(c)))
    ensures forall k :: 0 <= k < |c| ==> clipMin <= c[k]
  {
    var w := DivideBy(weights, Sum(weights));
    Clip(Update(w, Broadcast(reward, |w|).value, eta), clipMin)
  }

  /** The weight checks refuse exactly the vectors with a negative entry and
      the vectors whose entries are all zero (the empty vector among them):
      once no weight is negative, a sum that is not positive means every
      weight is zero. */
  lemma WeightCheckRejectsExactly(weights: seq<real>)
    ensures HasNegative(weights) || Sum(weights) <= 0.0 <==>
            HasNegative(weights) || forall k :: 0 <= k < |weights| ==> weights[k] == 0.0
  {
    if !HasNegative(weights) {
      SumNonNegative(weights);
    }
  }

  /** The multiplicative step on non-negative weights: an asset whose
      `eta * r` is zero keeps its weight, a non-negative factor `1 + eta * r`
      keeps it non-negative, and a negative factor drives a positive weight
      below zero, which is where the floor takes effect. */
  lemma UpdateSigns(w: seq<real>, rs: seq<real>, eta: real)
    requires |rs| == |w| && forall k :: 0 <= k < |w| ==> w[k] >= 0.0
    ensures var u := Update(w, rs, eta);
      |u| == |w| && forall k :: 0 <= k < |w| ==>
        (eta * rs[k] == 0.0 ==> u[k] == w[k])
        && (1.0 + eta * rs[k] >= 0.0 ==> u[k] >= 0.0)
        && (w[k] > 0.0 && 1.0 + eta * rs[k] < 0.0 ==> u[k] < 0.0)
  {
    forall k | 0 <= k < |w|
      ensures eta * rs[k] == 0.0 ==> Adjusted(w[k], eta, rs[k]) == w[k]
      ensures 1.0 + eta * rs[k] >= 0.0 ==> Adjusted(w[k], eta, rs[k]) >= 0.0
      ensures w[k] > 0.0 && 1.0 + eta * rs[k] < 0.0 ==> Adjusted(w[k], eta, rs[k]) < 0.0
    {
      AdjustedSign(w[k], eta, rs[k]);
    }
  }

  /** With the default learning rate and floor the collapse error cannot
      happen, and every successful result is strictly positive and sums to 1. */
  lemma DefaultsNeverCollapse(weights: seq<real>, reward: Reward)
    ensures var r := AdjustWeights(weights, reward, DefaultEta, DefaultClipMin);
      !r.Collapse?
      && (r.Ok? ==> Sum(r.weights) == 1.0 && forall k :: 0 <= k < |r.weights| ==> r.weights[k] > 0.0)
  {
    CollapseNeedsNonPositiveFloor(weights, reward, DefaultEta, DefaultClipMin);
    if AdjustWeights(weights, reward, DefaultEta, DefaultClipMin).Ok? {
      OkIsOnSimplex(weights, reward, DefaultEta, DefaultClipMin);
    }
  }

  /** A successful result lies on the simplex: it has one entry per asset and
      sums to exactly 1; its entries are non-negative when the floor is, and
      strictly positive when the floor is. */
  lemma OkIsOnSimplex(weights: seq<real>, reward: Reward, eta: real, clipMin: real)
    requires AdjustWeights(weights, reward, eta, clipMin).Ok?
    ensures var v := AdjustWeights(weights, reward, eta, clipMin).weights;
      |v| == |weights| && Sum(v) == 1.0
      && (clipMin >= 0.0 ==> forall k :: 0 <= k < |v| ==> v[k] >= 0.0)
      && (clipMin > 0.0 ==> forall k :: 0 <= k < |v| ==> v[k] > 0.0)
  {
    var c := Floored(weights, reward, eta, clipMin);
    var v := DivideBy(c, Sum(c));
    SumOfNormalized(c);
    forall k | 0 <= k < |v|
      ensures clipMin >= 0.0 ==> v[k] >= 0.0
      ensures clipMin > 0.0 ==> v[k] > 0.0
    {
      if clipMin >= 0.0 {
        DivideKeepsOrder(c[k], 0.0, Sum(c));
      }
    }
  }

  /** With a positive floor the collapse error cannot happen: every floored
      entry is at least `clipMin`, so their sum is at least `n * clipMin > 0`. */
  lemma CollapseNeedsNonPositiveFloor(weights: seq<real>, reward: Reward, eta: real, clipMin: real)
    ensures AdjustWeights(weights, reward, eta, clipMin).Collapse? ==> clipMin <= 0.0
  {
    if clipMin > 0.0 && !HasNegative(weights) && Sum(weights) > 0.0
       && Broadcast(reward, |weights|).Some?
    {
      var w := DivideBy(weights, Sum(weights));
      var rs := Broadcast(reward, |w|).value;
      var clipped := Clip(Update(w, rs, eta), clipMin);
      assert |weights| > 0;
      SumAtLeast(clipped, clipMin);
      assert (|clipped| as real) * clipMin > 0.0;
    }
  }

  /** With a zero floor, a valid call collapses exactly when the update takes
      every normalised weight to zero or below: the floor lifts those entries
      to 0, so the floored sum is 0, and any entry above 0 makes it positive. */
  lemma CollapseAtZeroFloor(weights: seq<real>, reward: Reward, eta: real)
    requires !HasNegative(weights) && Sum(weights) > 0.0
    requires Broadcast(reward, |weights|).Some?
    ensures var rs := Broadcast(reward, |weights|).value;
      AdjustWeights(weights, reward, eta, 0.0) == Collapse
      <==> forall k :: 0 <= k < |weights| ==> Adjusted(Ratio(weights[k], Sum(weights)), eta, rs[k]) <= 0.0
  {
    var w := DivideBy(weights, Sum(weights));
    var rs := Broadcast(reward, |w|).value;
    var u := Update(w, rs, eta);
    var c := Clip(u, 0.0);
    assert AdjustWeights(weights, reward, eta, 0.0) == Collapse <==> Sum(c) <= 0.0;
    SumNonNegative(c);
    if forall k :: 0 <= k < |u| ==> u[k] <= 0.0 {
      forall k | 0 <= k < |c| ensures c[k] == 0.0 {
        assert u[k] <= 0.0;
      }
    } else {
      var k :| 0 <= k < |u| && u[k] > 0.0;
      assert c[k] != 0.0;
    }
    forall k | 0 <= k < |weights|
      ensures u[k] == Adjusted(Ratio(weights[k], Sum(weights)), eta, rs[k])
    {
    }
  }

  /** Multiplying every weight by the same positive constant changes nothing,
      because the weights are normalised before the update. */
  lemma ScaleInvariance(weights: seq<real>, c: real, reward: Reward, eta: real, clipMin: real)
    requires c > 0.0
    ensures AdjustWeights(Scale(weights, c), reward, eta, clipMin)
         == AdjustWeights(weights, reward, eta, clipMin)
  {
    var scaled := Scale(weights, c);
    if HasNegative(weights) {
      var k :| 0 <= k < |weights| && weights[k] < 0.0;
      assert scaled[k] < 0.0;
    } else {
      forall k | 0 <= k < |scaled| ensures scaled[k] >= 0.0 {
        assert weights[k] >= 0.0;
      }
      SumScale(weights, c);
      if Sum(weights) > 0.0 {
        var s0 := Sum(weights);
        assert Sum(scaled) == c * s0;
        forall k | 0 <= k < |weights|
          ensures DivideBy(scaled, c * s0)[k] == DivideBy(weights, s0)[k]
        {
          CancelCommonFactor(weights[k], s0, c);
        }
        assert DivideBy(scaled, c * s0) == DivideBy(weights, s0);
      }
    }
  }

  /** Normalising the weights beforehand gives the same result as passing
      them unnormalised. */
  lemma PreNormalizationInvariance(weights: seq<real>, reward: Reward, eta: real, clipMin: real)
    requires Sum(weights) > 0.0
    ensures AdjustWeights(DivideBy(weights, Sum(weights)), reward, eta, clipMin)
         == AdjustWeights(weights, reward, eta, clipMin)
  {
    var s0 := Sum(weights);
    forall k | 0 <= k < |weights|
      ensures DivideBy(weights, s0)[k] == Scale(weights, 1.0 / s0)[k]
    {
      assert Ratio(weights[k], s0) == Scaled(weights[k], 1.0 / s0);
    }
    assert DivideBy(weights, s0) == Scale(weights, 1.0 / s0);
    ScaleInvariance(weights, 1.0 / s0, reward, eta, clipMin);
  }

  /** A scalar reward whose factor `1 + eta * x` is positive and which lifts no
      entry to the floor leaves the relative weights unchanged: the result is
      the input normalised. */
  lemma ScalarRewardKeepsProportions(weights: seq<real>, x: real, eta: real, clipMin: real)
    requires !HasNegative(weights) && Sum(weights) > 0.0
    requires 1.0 + eta * x > 0.0
    requires forall k :: 0 <= k < |weights| ==> Adjusted(Ratio(weights[k], Sum(weights)), eta, x) >= clipMin
    ensures AdjustWeights(weights, Scalar(x), eta, clipMin) == Ok(DivideBy(weights, Sum(weights)))
  {
    var w := DivideBy(weights, Sum(weights));
    SumOfNormalized(weights);
    UniformGrowthUnclipped(w, x, eta, clipMin);
  }

  /** On a vector summing to 1, a uniform positive factor that takes no entry
      below the floor is undone by the renormalisation. */
  lemma UniformGrowthUnclipped(w: seq<real>, x: real, eta: real, clipMin: real)
    requires Sum(w) == 1.0 && 1.0 + eta * x > 0.0
    requires forall k :: 0 <= k < |w| ==> Adjusted(w[k], eta, x) >= clipMin
    ensures var u := Update(w, Broadcast(Scalar(x), |w|).value, eta);
      Clip(u, clipMin) == u && Sum(u) == 1.0 + eta * x && DivideBy(u, 1.0 + eta * x) == w
  {
    var f := 1.0 + eta * x;
    var u := Update(w, Broadcast(Scalar(x), |w|).value, eta);
    forall k | 0 <= k < |w| ensures u[k] == Scale(w, f)[k] {
      AdjustedByScalar(w[k], eta, x);
    }
    assert u == Scale(w, f);
    assert Clip(u, clipMin) == u;
    SumScale(w, f);
    forall k | 0 <= k < |w| ensures DivideBy(u, f)[k] == w[k] {
      CancelFactor(w[k], f);
    }
    assert DivideBy(u, f) == w;
  }

  /** Under a per-asset reward with a positive learning rate and a
      non-negative floor, an asset with at least the weight and a larger
      reward than another ends with at least its weight, and strictly more
      when its updated value exceeds the floor. */
  lemma RewardOrdering(weights: seq<real>, rs: seq<real>, eta: real, clipMin: real, i: nat, j: nat)
    requires |rs| == |weights| && i < |weights| && j < |weights|
    requires weights[i] >= weights[j] && rs[i] > rs[j]
    requires eta > 0.0 && clipMin >= 0.0
    requires AdjustWeights(weights, PerAsset(rs), eta, clipMin).Ok?
    ensures var v := AdjustWeights(weights, PerAsset(rs), eta, clipMin).weights;
      v[i] >= v[j]
      && (Adjusted(Ratio(weights[i], Sum(weights)), eta, rs[i]) > clipMin ==> v[i] > v[j])
  {
    var s0 := Sum(weights);
    var c := Floored(weights, PerAsset(rs), eta, clipMin);
    var w := DivideBy(weights, s0);
    assert c[i] == Max(Adjusted(w[i], eta, rs[i]), clipMin);
    assert c[j] == Max(Adjusted(w[j], eta, rs[j]), clipMin);
    assert weights[j] >= 0.0;
    DivideKeepsOrder(weights[i], weights[j], s0);
    DivideKeepsOrder(weights[j], 0.0, s0);
    FloorKeepsOrder(w[i], w[j], eta, rs[i], rs[j], clipMin);
    DivideKeepsOrder(c[i], c[j], Sum(c));
  }

  /** The adjuster with the check its documentation implies but its code
      omits: a negative floor is refused, so that every result is a
      non-negative vector on the simplex. */
  function AdjustWeightsChecked(weights: seq<real>, reward: Reward, eta: real, clipMin: real): (r: Outcome)
    ensures clipMin < 0.0 ==> r == InvalidInput
    ensures clipMin >= 0.0 ==> r == AdjustWeights(weights, reward, eta, clipMin)
    ensures r.Ok? ==> |r.weights| == |weights| && Sum(r.weights) == 1.0
                      && forall k :: 0 <= k < |r.weights| ==> r.weights[k] >= 0.0
  {
    if clipMin < 0.0 then InvalidInput
    else
      var r := AdjustWeights(weights, reward, eta, clipMin);
      assert r.Ok? ==> |r.weights| == |weights| && Sum(r.weights) == 1.0
                       && forall k :: 0 <= k < |r.weights| ==> r.weights[k] >= 0.0 by {
        if r.Ok? { OkIsOnSimplex(weights, reward, eta, clipMin); }
      }
      r
  }

  /** As written, a negative floor lets a negative weight through: two equal
      weights, rewards -3 and 10, learning rate 1 and floor -1 give
      `[-2/9, 11/9]`; the checked adjuster refuses the same call. */
  lemma NegativeFloorYieldsNegativeWeight()
    ensures AdjustWeights([0.5, 0.5], PerAsset([-3.0, 10.0]), 1.0, -1.0) == Ok([-2.0 / 9.0, 11.0 / 9.0])
    ensures AdjustWeightsChecked([0.5, 0.5], PerAsset([-3.0, 10.0]), 1.0, -1.0) == InvalidInput
  {
    var weights := [0.5, 0.5];
    assert weights[1..] == [0.5] && [0.5][1..] == [];
    assert Sum(weights) == 1.0;
    var w := DivideBy(weights, 1.0);
    assert w == [0.5, 0.5];
    var u := Update(w, [-3.0, 10.0], 1.0);
    assert u == [-1.0, 5.5];
    var clipped := Clip(u, -1.0);
    assert clipped == [-1.0, 5.5];
    assert clipped[1..] == [5.5] && [5.5][1..] == [];
    assert Sum(clipped) == 4.5;
    assert DivideBy(clipped, 4.5) == [-2.0 / 9.0, 11.0 / 9.0];
  }

  // Arithmetic facts about single reals used by the proofs above.

  /** The multiplicative step for a reward is scaling by `1 + eta * x`. */
  lemma AdjustedByScalar(a: real, eta: real, x: real)
    ensures Adjusted(a, eta, x) == Scaled(a, 1.0 + eta * x)
  {
  }

  /** The sign of one updated weight `x >= 0`: unchanged when `eta * r` is
      zero, non-negative for a non-negative factor, negative for a negative
      factor on a positive weight. */
  lemma AdjustedSign(x: real, eta: real, r: real)
    requires x >= 0.0
    ensures eta * r == 0.0 ==> Adjusted(x, eta, r) == x
    ensures 1.0 + eta * r >= 0.0 ==> Adjusted(x, eta, r) >= 0.0
    ensures x > 0.0 && 1.0 + eta * r < 0.0 ==> Adjusted(x, eta, r) < 0.0
  {
    var f := 1.0 + eta * r;
    if f < 0.0 && x > 0.0 {
      assert x * (-f) > 0.0;
    }
  }

  /** Multiplying by a non-zero factor and dividing by it again cancels. */
  lemma CancelFactor(a: real, f: real)
    requires f != 0.0
    ensures Ratio(Scaled(a, f), f) == a
  {
  }

  /** A common positive factor in numerator and denominator cancels. */
  lemma CancelCommonFactor(a: real, d: real, c: real)
    requires d != 0.0 && c > 0.0
    ensures Ratio(Scaled(a, c), c * d) == Ratio(a, d)
  {
  }

  /** Dividing by the same positive number keeps the order of two reals. */
  lemma DivideKeepsOrder(a: real, b: real, s: real)
    requires s > 0.0 && a >= b
    ensures Ratio(a, s) >= Ratio(b, s)
    ensures a > b ==> Ratio(a, s) > Ratio(b, s)
  {
    assert a / s - b / s == (a - b) / s;
    assert (a - b) / s == (a - b) * (1.0 / s);
    assert 1.0 / s > 0.0;
  }

  /** Flooring keeps the order of two updated weights when the first has at
      least the weight and a larger reward, and keeps it strictly when the
      first clears the floor. */
  lemma FloorKeepsOrder(a: real, b: real, eta: real, ri: real, rj: real, m: real)
    requires a >= b >= 0.0 && eta > 0.0 && ri > rj && m >= 0.0
    ensures Max(Adjusted(a, eta, ri), m) >= Max(Adjusted(b, eta, rj), m)
    ensures Adjusted(a, eta, ri) > m ==> Max(Adjusted(a, eta, ri), m) > Max(Adjusted(b, eta, rj), m)
  {
    var fi, fj := 1.0 + eta * ri, 1.0 + eta * rj;
    assert fi - fj == eta * (ri - rj);
    assert eta * (ri - rj) > 0.0;
    if fi > 0.0 {
      assert a * fi - b * fi == (a - b) * fi;
      assert (a - b) * fi >= 0.0;
      assert b * fi - b * fj == b * (fi - fj);
      if b > 0.0 {
        assert b * (fi - fj) > 0.0;
      } else {
        assert b * fj == 0.0;
      }
    } else {
      assert a * fi <= 0.0 by {
        assert a * (-fi) >= 0.0;
      }
      assert b * fj <= 0.0 by {
        assert b * (-fj) >= 0.0;
      }
    }
  }
}
