/** Whole-vector arithmetic over real numbers: the `.sum()` and `w / s`
    operations the weight adjuster uses, the scaling used to state its scale
    invariance, and what summing does to each. */
module Vectors {

  /** Sum of the entries, first to last. */
  function Sum(s: seq<real>): real
  {
    if |s| == 0 then 0.0 else s[0] + Sum(s[1..])
  }

  /** `x` multiplied by `c`. */
  function Scaled(x: real, c: real): real
  {
    c * x
  }

  /** Every entry multiplied by `c`. */
  function Scale(s: seq<real>, c: real): seq<real>
  {
    seq(|s|, k requires 0 <= k < |s| => Scaled(s[k], c))
  }

  /** `x` as a fraction of `d`. */
  function Ratio(x: real, d: real): real
    requires d != 0.0
  {
    x / d
  }

  /** Every entry divided by `d`. */
  function DivideBy(s: seq<real>, d: real): seq<real>
    requires d != 0.0
  {
    seq(|s|, k requires 0 <= k < |s| => Ratio(s[k], d))
  }

  /** Multiplying every entry by `c` multiplies the sum by `c`. */
  lemma {:induction false} SumScale(s: seq<real>, c: real)
    ensures Sum(Scale(s, c)) == c * Sum(s)
  {
    if |s| > 0 {
      assert Scale(s, c)[1..] == Scale(s[1..], c) by {
        forall k | 0 <= k < |s| - 1 ensures Scale(s, c)[1..][k] == Scale(s[1..], c)[k] {
          assert s[1..][k] == s[k + 1];
        }
      }
      SumScale(s[1..], c);
    }
  }

  /** Dividing every entry by `d` divides the sum by `d`. */
  lemma {:induction false} SumDivideBy(s: seq<real>, d: real)
    requires d != 0.0
    ensures Sum(DivideBy(s, d)) == Sum(s) / d
  {
    if |s| > 0 {
      assert DivideBy(s, d)[1..] == DivideBy(s[1..], d);
      SumDivideBy(s[1..], d);
      assert Ratio(s[0], d) + Sum(s[1..]) / d == (s[0] + Sum(s[1..])) / d;
    }
  }

  /** A vector whose entries are all at least `m` sums to at least `|s| * m`. */
  lemma {:induction false} SumAtLeast(s: seq<real>, m: real)
    requires forall k :: 0 <= k < |s| ==> m <= s[k]
    ensures (|s| as real) * m <= Sum(s)
  {
    if |s| > 0 {
      SumAtLeast(s[1..], m);
      assert (|s| as real) * m == m + ((|s| - 1) as real) * m;
    }
  }

  /** Multiplying back by `d` undoes the division by `d`. */
  lemma DivideByInverse(s: seq<real>, d: real)
    requires d != 0.0
    ensures Scale(DivideBy(s, d), d) == s
  {
    forall k | 0 <= k < |s| ensures Scale(DivideBy(s, d), d)[k] == s[k] {
      assert Scaled(Ratio(s[k], d), d) == s[k];
    }
  }

  /** A vector with no negative entry has a non-negative sum, and the sum is
      zero exactly when every entry is zero. */
  lemma {:induction false} SumNonNegative(s: seq<real>)
    requires forall k :: 0 <= k < |s| ==> 0.0 <= s[k]
    ensures 0.0 <= Sum(s)
    ensures Sum(s) == 0.0 <==> forall k :: 0 <= k < |s| ==> s[k] == 0.0
  {
    if |s| > 0 {
      assert forall k :: 0 <= k < |s| - 1 ==> s[1..][k] == s[k + 1];
      SumNonNegative(s[1..]);
      if Sum(s) == 0.0 {
        forall k | 0 <= k < |s| ensures s[k] == 0.0 {
          if k > 0 { assert s[1..][k - 1] == s[k]; }
        }
      }
    }
  }

  /** Dividing a vector by its own (non-zero) sum puts it on the unit sum. */
  lemma SumOfNormalized(s: seq<real>)
    requires Sum(s) != 0.0
    ensures Sum(DivideBy(s, Sum(s))) == 1.0
  {
    SumDivideBy(s, Sum(s));
    assert Sum(s) / Sum(s) == 1.0;
  }
}
