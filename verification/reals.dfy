/** Facts about finite sequences of reals: minimum, maximum, sum and mean. */
module Reals {

  function Min(xs: seq<real>): (m: real)
    requires |xs| > 0
    ensures forall i :: 0 <= i < |xs| ==> m <= xs[i]
    ensures exists i :: 0 <= i < |xs| && m == xs[i]
  {
    if |xs| == 1 then xs[0]
    else
      var t := Min(xs[1..]);
      assert forall i :: 1 <= i < |xs| ==> xs[i] == xs[1..][i - 1];
      if xs[0] <= t then xs[0] else t
  }

  function Max(xs: seq<real>): (m: real)
    requires |xs| > 0
    ensures forall i :: 0 <= i < |xs| ==> xs[i] <= m
    ensures exists i :: 0 <= i < |xs| && m == xs[i]
  {
    if |xs| == 1 then xs[0]
    else
      var t := Max(xs[1..]);
      assert forall i :: 1 <= i < |xs| ==> xs[i] == xs[1..][i - 1];
      if xs[0] >= t then xs[0] else t
  }

  function Sum(xs: seq<real>): real {
    if |xs| == 0 then 0.0 else Sum(xs[..|xs| - 1]) + xs[|xs| - 1]
  }

  lemma {:induction false} SumAppend(xs: seq<real>, ys: seq<real>)
    ensures Sum(xs + ys) == Sum(xs) + Sum(ys)
  {
    if |ys| > 0 {
      assert (xs + ys)[..|xs + ys| - 1] == xs + ys[..|ys| - 1];
      SumAppend(xs, ys[..|ys| - 1]);
    } else {
      assert xs + ys == xs;
    }
  }

  lemma {:induction false} SumBounds(xs: seq<real>, lo: real, hi: real)
    requires forall i :: 0 <= i < |xs| ==> lo <= xs[i] <= hi
    ensures (|xs| as real) * lo <= Sum(xs) <= (|xs| as real) * hi
  {
    if |xs| > 0 {
      var init := xs[..|xs| - 1];
      assert forall i :: 0 <= i < |init| ==> init[i] == xs[i];
      SumBounds(init, lo, hi);
      MulSucc(|init| as real, lo);
      MulSucc(|init| as real, hi);
    }
  }

  // Arithmetic facts about real division, kept apart so the solver sees them
  // without the surrounding sequence terms.
  lemma DivLower(s: real, n: real, lo: real)
    requires n > 0.0 && n * lo <= s
    ensures lo <= s / n
  {
  }

  lemma DivUpper(s: real, n: real, hi: real)
    requires n > 0.0 && s <= n * hi
    ensures s / n <= hi
  {
  }

  lemma MulDiv(s: real, n: real)
    requires n > 0.0
    ensures n * (s / n) == s
  {
  }

  lemma WeightedMeans(s: real, sa: real, sb: real, n: real, na: real, nb: real)
    requires n > 0.0 && na > 0.0 && nb > 0.0 && s == sa + sb
    ensures n * (s / n) == na * (sa / na) + nb * (sb / nb)
  {
    MulDiv(s, n);
    MulDiv(sa, na);
    MulDiv(sb, nb);
  }

  /** The mean of `xs + ys` is the count-weighted mean of the two means. */
  lemma MeanOfConcat(xs: seq<real>, ys: seq<real>)
    requires |xs| > 0 && |ys| > 0
    ensures var n, nx, ny := |xs + ys| as real, |xs| as real, |ys| as real;
      n * (Sum(xs + ys) / n) == nx * (Sum(xs) / nx) + ny * (Sum(ys) / ny)
  {
    SumAppend(xs, ys);
    WeightedMeans(Sum(xs + ys), Sum(xs), Sum(ys), |xs + ys| as real, |xs| as real, |ys| as real);
  }

  lemma MeanCancels(s: real, n: real, m: real)
    requires n > 0.0 && m == s / n
    ensures s - n * m == 0.0
  {
  }

  lemma ZeroScaled(total: real, d: real, k: real)
    requires d == 0.0 && total == d * k
    ensures total == 0.0
  {
  }

  lemma MulSucc(n: real, c: real)
    ensures (n + 1.0) * c == n * c + c
  {
  }

  /** A mean of values within `[lo, hi]` is within `[lo, hi]`. */
  lemma MeanWithin(xs: seq<real>, lo: real, hi: real)
    requires |xs| > 0
    requires forall i :: 0 <= i < |xs| ==> lo <= xs[i] <= hi
    ensures lo <= Sum(xs) / (|xs| as real) <= hi
  {
    SumBounds(xs, lo, hi);
    DivLower(Sum(xs), |xs| as real, lo);
    DivUpper(Sum(xs), |xs| as real, hi);
  }

  /** `x` measured from `a` in units of `1 / k`. */
  function Shift(x: real, a: real, k: real): real {
    (x - a) * k
  }

  /** `ys` is `xs` shifted by `-a` and scaled by `k`, value by value. */
  predicate ShiftedBy(xs: seq<real>, ys: seq<real>, a: real, k: real) {
    |ys| == |xs| && forall i :: 0 <= i < |xs| ==> ys[i] == Shift(xs[i], a, k)
  }

  /** Summing `(x - a) * k` over the `n` values `xs` gives `(Sum(xs) - n * a) * k`. */
  lemma {:induction false} SumShifted(xs: seq<real>, ys: seq<real>, n: nat, a: real, k: real)
    requires |xs| == n && ShiftedBy(xs, ys, a, k)
    ensures Sum(ys) == (Sum(xs) - (n as real) * a) * k
  {
    if n > 0 {
      var m := n - 1;
      SumShifted(xs[..m], ys[..m], m, a, k);
      ShiftStep(Sum(xs[..m]), Sum(ys[..m]), xs[m], m as real, a, k);
    }
  }

  lemma ShiftStep(sx: real, sy: real, x: real, n: real, a: real, k: real)
    requires sy == (sx - n * a) * k
    ensures sy + (x - a) * k == (sx + x - (n + 1.0) * a) * k
  {
  }

  /** Values shifted by their own mean sum to zero, whatever the scale. */
  lemma SumAroundMean(xs: seq<real>, ys: seq<real>, a: real, k: real)
    requires |xs| > 0
    requires a == Sum(xs) / (|xs| as real)
    requires ShiftedBy(xs, ys, a, k)
    ensures Sum(ys) == 0.0
  {
    var n := |xs|;
    var s := Sum(xs);
    var t := Sum(ys);
    assert t == (s - (n as real) * a) * k by { SumShifted(xs, ys, n, a, k); }
    MeanCancels(s, n as real, a);
    ZeroScaled(t, s - (n as real) * a, k);
  }
}
