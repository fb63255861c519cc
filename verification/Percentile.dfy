// Linear-interpolation percentile of a sorted sequence, over the reals.

module Percentile {
  import opened Options
  import P = Products

  function Ceil(x: real): int { -((-x).Floor) }

  predicate Sorted(values: seq<real>) {
    forall i, j :: 0 <= i <= j < |values| ==> values[i] <= values[j]
  }

  /** The value at a fractional rank. */
  function AtRank(values: seq<real>, rank: real): real
    requires 0.0 <= rank <= (|values| - 1) as real
  {
    var low, high := rank.Floor, Ceil(rank);
    if low == high then values[low]
    else
      var weight := rank - low as real;
      values[low] * (1.0 - weight) + values[high] * weight
  }

  function Rank(n: nat, p: real): real { (n - 1) as real * (p / 100.0) }

  lemma RankInRange(n: nat, p: real, q: real)
    requires 0 < n && 0.0 <= p <= q <= 100.0
    ensures 0.0 <= Rank(n, p) <= Rank(n, q) <= (n - 1) as real
  {
    var m := (n - 1) as real;
    var x, y := p / 100.0, q / 100.0;
    assert 0.0 <= x <= y <= 1.0;
    assert m * (y - x) >= 0.0 && m * x >= 0.0 && m * (1.0 - y) >= 0.0;
  }

  function Percentile(values: seq<real>, p: real): (r: Option<real>)
    ensures r.None? <==> values == []
  {
    if values == [] then None
    else if p <= 0.0 then Some(values[0])
    else if p >= 100.0 then Some(values[|values| - 1])
    else
      RankInRange(|values|, p, p);
      Some(AtRank(values, Rank(|values|, p)))
  }

  lemma Weighted(a: real, b: real, w: real, v: real)
    requires a <= b && 0.0 <= w <= v <= 1.0
    ensures a <= a * (1.0 - w) + b * w <= a * (1.0 - v) + b * v <= b
  {
    P.NonNegative(b - a, w);
    P.NonNegative(b - a, v - w);
    P.NonNegative(b - a, 1.0 - v);
  }

  /** A value at a rank lies between its two neighbours. */
  lemma BetweenNeighbours(values: seq<real>, rank: real)
    requires Sorted(values) && 0.0 <= rank <= (|values| - 1) as real
    ensures values[rank.Floor] <= AtRank(values, rank) <= values[Ceil(rank)]
  {
    if rank.Floor != Ceil(rank) {
      Weighted(values[rank.Floor], values[Ceil(rank)], rank - rank.Floor as real, rank - rank.Floor as real);
    }
  }

  /** Within one segment and across segment boundaries alike, a higher rank has no lower value. */
  lemma AtRankMonotone(values: seq<real>, rank: real, higher: real)
    requires Sorted(values) && 0.0 <= rank <= higher <= (|values| - 1) as real
    ensures AtRank(values, rank) <= AtRank(values, higher)
  {
    BetweenNeighbours(values, rank);
    BetweenNeighbours(values, higher);
    if rank.Floor == higher.Floor && rank.Floor != Ceil(rank) {
      var low := rank.Floor;
      Weighted(values[low], values[low + 1], rank - low as real, higher - low as real);
    }
  }

  /** The percentile stays within the data and never falls as p rises, for any p at all. */
  lemma PercentileMonotone(values: seq<real>, p: real, q: real)
    requires values != [] && Sorted(values) && p <= q
    ensures values[0] <= Percentile(values, p).value <= Percentile(values, q).value <= values[|values| - 1]
  {
    WithinData(values, p);
    WithinData(values, q);
    if 0.0 < p && q < 100.0 {
      RankInRange(|values|, p, q);
      AtRankMonotone(values, Rank(|values|, p), Rank(|values|, q));
    }
  }

  lemma WithinData(values: seq<real>, p: real)
    requires values != [] && Sorted(values)
    ensures values[0] <= Percentile(values, p).value <= values[|values| - 1]
  {
    if 0.0 < p < 100.0 {
      RankInRange(|values|, p, p);
      BetweenNeighbours(values, Rank(|values|, p));
    }
  }

  lemma Neighbours(k: nat, w: real)
    requires 0.0 < w < 1.0
    ensures (k as real + w).Floor == k && Ceil(k as real + w) == k + 1
  {
    assert (-(k as real + w)).Floor == -(k + 1);
  }

  /** Between elements k and k+1 the value is exactly proportional to the distance from them. */
  lemma InterpolatesLinearly(values: seq<real>, k: nat, w: real)
    requires k + 1 < |values| && 0.0 <= w <= 1.0
    ensures AtRank(values, k as real + w) == values[k] + (values[k + 1] - values[k]) * w
  {
    if w == 0.0 {
      assert AtRank(values, k as real) == values[k];
    } else if w == 1.0 {
      assert k as real + w == (k + 1) as real;
      assert AtRank(values, (k + 1) as real) == values[k + 1];
    } else {
      Neighbours(k, w);
      P.Blend(values[k], values[k + 1], w);
    }
  }

  /** So the percentile at p = 100(k+w)/(n-1) is that value, for every p strictly between 0 and 100. */
  lemma PercentileInterpolates(values: seq<real>, p: real, k: nat, w: real)
    requires 0.0 < p < 100.0 && k + 1 < |values| && 0.0 <= w <= 1.0
    requires p * (|values| - 1) as real == 100.0 * (k as real + w)
    ensures Percentile(values, p) == Some(values[k] + (values[k + 1] - values[k]) * w)
  {
    assert Rank(|values|, p) == k as real + w;
    InterpolatesLinearly(values, k, w);
  }

  /** Element k is the percentile at p = 100k/(n-1). */
  lemma ExactAtElements(values: seq<real>, k: nat)
    requires 1 < |values| && k < |values|
    ensures Percentile(values, 100.0 * k as real / (|values| - 1) as real) == Some(values[k])
  {
    var m := (|values| - 1) as real;
    var p := 100.0 * k as real / m;
    assert p * m == 100.0 * k as real;
    assert Rank(|values|, p) == k as real;
    if k == |values| - 1 {
      if p < 100.0 { P.Strict(p, 100.0, m); }
      if p > 100.0 { P.Strict(100.0, p, m); }
    } else if k > 0 {
      if p >= 100.0 { P.NonNegative(p - 100.0, m); }
      if p <= 0.0 { P.NonNegative(-p, m); }
    }
  }
}
