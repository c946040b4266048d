/** Histogram shapes, bucket representatives, and the points built from them. */
module Histograms {
  import opened Words
  import opened Sweeps
  import opened Values

  // Sums over buckets

  function RealSum(s: seq<real>): real {
    if s == [] then 0.0 else RealSum(s[..|s| - 1]) + s[|s| - 1]
  }

  function Total(counts: seq<nat>): nat {
    if counts == [] then 0 else Total(counts[..|counts| - 1]) + counts[|counts| - 1]
  }

  /** The sum a histogram point reports: each bucket's count at its representative value. */
  function Weighted(counts: seq<nat>, mids: seq<real>): real
    requires |counts| <= |mids|
  {
    if counts == [] then 0.0
    else
      var l := |counts| - 1;
      Weighted(counts[..l], mids) + Times(counts[l] as real, mids[l])
  }

  // Shapes

  const SPREADS: seq<real> := [0.08, 0.15, 0.3]

  /** Exponentials, as the shapes use them: any positive function. */
  type ExpFunction = f: real -> real | forall x :: f(x) > 0.0 ghost witness (x: real) => 1.0

  datatype HistShape = HistShape(weights: seq<real>, minIdx: nat, maxIdx: nat)
  {
    /** Positive weights that sum to 1, and the first and the last bucket whose weight is
        not negligible against the largest. */
    ghost predicate Valid(n: nat) {
      && |weights| == n
      && (forall l :: 0 <= l < n ==> weights[l] > 0.0)
      && RealSum(weights) == 1.0
      && minIdx < n && maxIdx < n
      && !Negligible(weights, minIdx) && (forall l :: 0 <= l < minIdx ==> Negligible(weights, l))
      && !Negligible(weights, maxIdx) && (forall l :: maxIdx < l < n ==> Negligible(weights, l))
    }

    /** The weights are the gaussian around the center, normalized. */
    ghost predicate Follows(exp: ExpFunction, center: real, sigma: real)
      requires sigma > 0.0
    {
      var raw := Tabulate(Gaussian(exp, center, sigma), |weights|);
      RealSum(raw) > 0.0 && forall l :: 0 <= l < |weights| ==> weights[l] == Ratio(raw[l], RealSum(raw))
    }
  }

  /** The center and the width of one of the 24 gaussians over n buckets. */
  function Center(n: nat, ci: nat): real {
    n as real * (ci as real + 0.5) / 8.0
  }

  function Sigma(n: nat, si: nat): (sigma: real)
    requires si < 3
    ensures sigma >= 0.5
  {
    var spread := n as real * SPREADS[si];
    if spread < 0.5 then 0.5 else spread
  }

  /** A bucket below a twentieth of some bucket. */
  ghost predicate Negligible(weights: seq<real>, l: nat)
    requires l < |weights|
  {
    exists m :: 0 <= m < |weights| && weights[l] < Times(weights[m], 0.05)
  }

  function Tabulate<T>(f: nat -> T, n: nat): (s: seq<T>)
    ensures |s| == n && forall l :: 0 <= l < n ==> s[l] == f(l)
  {
    seq(n, l requires 0 <= l < n => f(l))
  }

  /** The unnormalized weight of each bucket: a gaussian around the center. */
  function Gaussian(exp: ExpFunction, center: real, sigma: real): (f: nat -> real)
    requires sigma > 0.0
    ensures forall l: nat :: f(l) > 0.0
  {
    (l: nat) => var d := Ratio(l as real + 0.5 - center, sigma); exp(-0.5 * Times(d, d))
  }

  lemma {:induction false} PositiveSum(s: seq<real>)
    requires forall l :: 0 <= l < |s| ==> s[l] > 0.0
    ensures RealSum(s) >= 0.0 && (s != [] ==> RealSum(s) > 0.0)
  {
    if s != [] {
      PositiveSum(s[..|s| - 1]);
    }
  }

  lemma {:induction false} RatioSum(x: real, y: real, m: real)
    requires m > 0.0
    ensures Ratio(x + y, m) == Ratio(x, m) + Ratio(y, m)
    ensures Ratio(m, m) == 1.0 && Ratio(0.0, m) == 0.0
  {
  }

  /** Dividing every entry divides the sum. */
  lemma {:induction false} ScaledSum(s: seq<real>, t: seq<real>, m: real)
    requires |s| == |t| && m > 0.0
    requires forall l :: 0 <= l < |s| ==> t[l] == Ratio(s[l], m)
    ensures RealSum(t) == Ratio(RealSum(s), m)
  {
    RatioSum(0.0, 0.0, m);
    if s != [] {
      var l := |s| - 1;
      ScaledSum(s[..l], t[..l], m);
      RatioSum(RealSum(s[..l]), s[l], m);
    }
  }

  /** One shape: a normalized gaussian over the bucket index. */
  method BuildShape(exp: ExpFunction, n: nat, center: real, sigma: real) returns (shape: HistShape)
    requires n >= 1 && sigma > 0.0
    ensures shape.Valid(n) && shape.Follows(exp, center, sigma)
  {
    var weights := new real[n];
    var total := FillWeights(weights, Gaussian(exp, center, sigma));
    var maxW := Normalize(weights, total);
    var minIdx, maxIdx := FindExtent(weights, maxW);
    shape := HistShape(weights[..], minIdx, maxIdx);
  }

  method FillWeights(weights: array<real>, f: nat -> real) returns (total: real)
    requires weights.Length >= 1 && forall l: nat :: f(l) > 0.0
    modifies weights
    ensures weights[..] == Tabulate(f, weights.Length)
    ensures total == RealSum(weights[..]) > 0.0
  {
    total := 0.0;
    for l := 0 to weights.Length
      invariant forall m: nat :: m < l ==> weights[m] == f(m)
      invariant total == RealSum(weights[..l])
    {
      weights[l] := f(l);
      total := total + weights[l];
      assert weights[..l + 1][..l] == weights[..l];
    }
    assert weights[..weights.Length] == weights[..];
    PositiveSum(weights[..]);
  }

  /** Divides every weight by their total, in place, and finds the largest quotient. */
  method Normalize(weights: array<real>, total: real) returns (maxW: real)
    requires weights.Length >= 1 && total == RealSum(weights[..]) > 0.0
    requires forall m :: 0 <= m < weights.Length ==> weights[m] > 0.0
    modifies weights
    ensures forall m :: 0 <= m < weights.Length ==> weights[m] == Ratio(old(weights[m]), total)
    ensures forall m :: 0 <= m < weights.Length ==> 0.0 < weights[m] <= maxW
    ensures exists m :: 0 <= m < weights.Length && weights[m] == maxW
    ensures RealSum(weights[..]) == 1.0
  {
    maxW := 0.0;
    ghost var top := 0;
    for l := 0 to weights.Length
      invariant forall m :: 0 <= m < l ==> weights[m] == Ratio(old(weights[m]), total)
      invariant forall m :: l <= m < weights.Length ==> weights[m] == old(weights[m])
      invariant forall m :: 0 <= m < l ==> 0.0 < weights[m] <= maxW
      invariant if l == 0 then maxW == 0.0 else top < l && weights[top] == maxW
    {
      PositiveRatio(weights[l], total);
      weights[l] := Ratio(weights[l], total);
      if maxW < weights[l] {
        maxW := weights[l];
        top := l;
      }
    }
    ScaledSum(old(weights[..]), weights[..], total);
    RatioSum(0.0, 0.0, total);
  }

  lemma {:induction false} PositiveRatio(x: real, m: real)
    requires x > 0.0 && m > 0.0
    ensures Ratio(x, m) > 0.0
  {
    RatioSum(0.0, 0.0, m);
    RatioMonotone(0.0, x, m);
  }

  /** Against the largest weight a bucket is negligible below one threshold. */
  lemma {:induction false} NegligibleIff(weights: seq<real>, maxW: real, l: nat)
    requires l < |weights| && maxW in weights
    requires forall m :: 0 <= m < |weights| ==> weights[m] <= maxW
    ensures Negligible(weights, l) <==> weights[l] < Times(maxW, 0.05)
  {
    if Negligible(weights, l) {
      var m :| 0 <= m < |weights| && weights[l] < Times(weights[m], 0.05);
      TimesMonotone(weights[m], maxW, 0.05);
    }
  }

  /** The first and the last bucket holding at least a twentieth of the largest weight. */
  method FindExtent(weights: array<real>, maxW: real) returns (minIdx: nat, maxIdx: nat)
    requires weights.Length >= 1
    requires forall m :: 0 <= m < weights.Length ==> 0.0 < weights[m] <= maxW
    requires exists m :: 0 <= m < weights.Length && weights[m] == maxW
    ensures minIdx < weights.Length && maxIdx < weights.Length
    ensures !Negligible(weights[..], minIdx) && forall l :: 0 <= l < minIdx ==> Negligible(weights[..], l)
    ensures !Negligible(weights[..], maxIdx)
    ensures forall l :: maxIdx < l < weights.Length ==> Negligible(weights[..], l)
  {
    var floor := Times(maxW, 0.05);
    ghost var top :| 0 <= top < weights.Length && weights[top] == maxW;
    assert floor <= maxW;
    minIdx, maxIdx := ScanExtent(weights, floor, top);
    ghost var s := weights[..];
    assert s[top] == maxW;
    forall l | 0 <= l < |s|
      ensures Negligible(s, l) <==> s[l] < floor
    {
      NegligibleIff(s, maxW, l);
    }
  }

  method ScanExtent(weights: array<real>, floor: real, ghost top: nat) returns (minIdx: nat, maxIdx: nat)
    requires top < weights.Length && weights[top] >= floor
    ensures minIdx <= top <= maxIdx < weights.Length
    ensures weights[minIdx] >= floor && forall l :: 0 <= l < minIdx ==> weights[l] < floor
    ensures weights[maxIdx] >= floor && forall l :: maxIdx < l < weights.Length ==> weights[l] < floor
  {
    var n := weights.Length;
    minIdx, maxIdx := 0, n - 1;
    var l := 0;
    while l < n
      invariant 0 <= l <= top
      invariant forall m :: 0 <= m < l ==> weights[m] < floor
    {
      if weights[l] >= floor {
        minIdx := l;
        break;
      }
      l := l + 1;
    }
    l := n - 1;
    while l >= 0
      invariant top <= l < n
      invariant forall m :: l < m < n ==> weights[m] < floor
    {
      if weights[l] >= floor {
        maxIdx := l;
        break;
      }
      l := l - 1;
    }
  }

  ghost predicate IsShape(shape: HistShape, exp: ExpFunction, n: nat, ci: nat, si: nat) {
    si < 3 && shape.Valid(n) && shape.Follows(exp, Center(n, ci), Sigma(n, si))
  }

  /** The 24 shapes of a metric over n buckets: 8 centers by 3 spreads. */
  method BuildHistShapes(exp: ExpFunction, n: nat) returns (shapes: seq<HistShape>)
    requires n >= 1
    ensures |shapes| == 24
    ensures forall i :: 0 <= i < 24 ==> IsShape(shapes[i], exp, n, i / 3, i % 3)
  {
    ghost var good := (shape: HistShape, ci: nat, si: nat) => IsShape(shape, exp, n, ci, si);
    shapes := [];
    for ci := 0 to 8
      invariant |shapes| == 3 * ci && InRows(good, shapes)
    {
      var three := BuildSpreads(exp, n, ci);
      AppendRow(good, shapes, three, ci);
      shapes := shapes + three;
    }
  }

  /** Every element fits its row and column when laid out three to a row. */
  ghost predicate InRows<T>(good: (T, nat, nat) -> bool, s: seq<T>) {
    forall i :: 0 <= i < |s| ==> good(s[i], i / 3, i % 3)
  }

  lemma {:induction false} AppendRow<T>(good: (T, nat, nat) -> bool, s: seq<T>, row: seq<T>, ci: nat)
    requires |s| == 3 * ci && |row| == 3 && InRows(good, s)
    requires forall si :: 0 <= si < 3 ==> good(row[si], ci, si)
    ensures InRows(good, s + row)
  {
  }

  /** The three shapes around one center. */
  method BuildSpreads(exp: ExpFunction, n: nat, ci: nat) returns (shapes: seq<HistShape>)
    requires n >= 1
    ensures |shapes| == 3 && forall si :: 0 <= si < 3 ==> IsShape(shapes[si], exp, n, ci, si)
  {
    var center := Center(n, ci);
    shapes := [];
    for si := 0 to 3
      invariant |shapes| == si
      invariant forall i :: 0 <= i < si ==> IsShape(shapes[i], exp, n, ci, i)
    {
      var shape := BuildShape(exp, n, center, Sigma(n, si));
      shapes := shapes + [shape];
    }
  }

  /** The extent of a shape is never inverted. */
  lemma {:induction false} ExtentOrdered(shape: HistShape, n: nat)
    requires shape.Valid(n)
    ensures shape.minIdx <= shape.maxIdx
  {
  }

  /** How far the middle of a bucket is from a center. */
  function Off(center: real, l: nat): (off: real)
    ensures off >= 0.0
  {
    var d := l as real + 0.5 - center;
    if d >= 0.0 then d else -d
  }

  ghost predicate Rising(exp: ExpFunction) {
    forall x, y :: RisesFrom(exp, x, y)
  }

  ghost predicate RisesFrom(exp: ExpFunction, x: real, y: real) {
    x < y ==> exp(x) < exp(y)
  }

  /** A gaussian falls with the distance from its center. */
  lemma {:induction false} GaussianFalls(exp: ExpFunction, center: real, sigma: real, l: nat, m: nat)
    requires sigma > 0.0 && Rising(exp)
    ensures Off(center, l) < Off(center, m) ==> Gaussian(exp, center, sigma)(m) < Gaussian(exp, center, sigma)(l)
    ensures Off(center, l) == Off(center, m) ==> Gaussian(exp, center, sigma)(m) == Gaussian(exp, center, sigma)(l)
  {
    var p, q := Squares(exp, center, sigma, l, m);
    assert RisesFrom(exp, -0.5 * q, -0.5 * p);
  }

  lemma {:induction false} Squares(exp: ExpFunction, center: real, sigma: real, l: nat, m: nat)
    returns (p: real, q: real)
    requires sigma > 0.0
    ensures Gaussian(exp, center, sigma)(l) == exp(-0.5 * p) && Gaussian(exp, center, sigma)(m) == exp(-0.5 * q)
    ensures Off(center, l) < Off(center, m) ==> p < q
    ensures Off(center, l) == Off(center, m) ==> p == q
  {
    p := GaussianAt(exp, center, sigma, l);
    q := GaussianAt(exp, center, sigma, m);
    Farther(Off(center, l), Off(center, m), sigma, p, q);
  }

  function Square(x: real): real {
    Times(x, x)
  }

  lemma {:induction false} GaussianAt(exp: ExpFunction, center: real, sigma: real, l: nat) returns (p: real)
    requires sigma > 0.0
    ensures Gaussian(exp, center, sigma)(l) == exp(-0.5 * p) && p == Square(Ratio(Off(center, l), sigma))
  {
    var x := l as real + 0.5 - center;
    p := Square(Ratio(x, sigma));
    SquareOfRatio(x, sigma, Off(center, l));
  }

  lemma {:induction false} Farther(a: real, b: real, sigma: real, p: real, q: real)
    requires a >= 0.0 && b >= 0.0 && sigma > 0.0
    requires p == Square(Ratio(a, sigma)) && q == Square(Ratio(b, sigma))
    ensures (a < b ==> p < q) && (a == b ==> p == q)
  {
    if a < b {
      RatioSum(0.0, 0.0, sigma);
      RatioMonotone(0.0, a, sigma);
      RatioMonotone(a, b, sigma);
      SquareMonotone(Ratio(a, sigma), Ratio(b, sigma));
    }
  }

  /** The farther from its center a bucket is, the less weight a shape gives it. */
  lemma {:induction false} ShapePeaksAtCenter(
    exp: ExpFunction, shape: HistShape, center: real, sigma: real, l: nat, m: nat)
    requires sigma > 0.0 && shape.Follows(exp, center, sigma) && Rising(exp)
    requires l < |shape.weights| && m < |shape.weights|
    ensures Off(center, l) < Off(center, m) ==> shape.weights[m] < shape.weights[l]
    ensures Off(center, l) == Off(center, m) ==> shape.weights[m] == shape.weights[l]
  {
    var raw := Tabulate(Gaussian(exp, center, sigma), |shape.weights|);
    GaussianFalls(exp, center, sigma, l, m);
    if Off(center, l) < Off(center, m) {
      RatioMonotone(raw[m], raw[l], RealSum(raw));
    }
  }

  lemma {:induction false} SquareOfRatio(x: real, m: real, a: real)
    requires m > 0.0 && (a == x || a == -x)
    ensures Square(Ratio(x, m)) == Square(Ratio(a, m))
  {
  }

  lemma {:induction false} SquareMonotone(a: real, b: real)
    requires 0.0 <= a < b
    ensures Times(a, a) < Times(b, b)
  {
    TimesMonotone(a, b, a);
    TimesMonotone(a, b, b);
    TimesCommutes(a, b);
  }

  /** Centers stand in the middle of each eighth of the buckets, and spreads grow. */
  lemma {:induction false} CentersAndSpreads(n: nat, ci: nat, si: nat)
    requires ci < 8 && si < 3
    ensures Center(n, ci) - n as real * ci as real / 8.0 == n as real * (ci + 1) as real / 8.0 - Center(n, ci)
    ensures 0.5 <= Sigma(n, si) <= n as real || Sigma(n, si) == 0.5
    ensures si > 0 ==> Sigma(n, si - 1) <= Sigma(n, si) && (n >= 7 ==> Sigma(n, si - 1) < Sigma(n, si))
  {
  }

  // Bucket representatives

  ghost predicate Increasing(s: seq<real>) {
    forall i, j :: 0 <= i < j < |s| ==> s[i] < s[j]
  }

  /** Half the first bound, the middle of each finite bucket, one and a half times the last bound. */
  function BucketMid(bounds: seq<real>, i: nat): real
    requires 1 <= |bounds| && i <= |bounds|
  {
    if i == 0 then bounds[0] / 2.0
    else if i < |bounds| then (bounds[i - 1] + bounds[i]) / 2.0
    else bounds[|bounds| - 1] * 1.5
  }

  method BucketMids(bounds: seq<real>) returns (mids: array<real>)
    requires |bounds| >= 1
    ensures fresh(mids) && mids.Length == |bounds| + 1
    ensures forall i :: 0 <= i < mids.Length ==> mids[i] == BucketMid(bounds, i)
  {
    mids := new real[|bounds| + 1];
    mids[0] := bounds[0] / 2.0;
    for i := 1 to |bounds|
      invariant forall l :: 0 <= l < i ==> mids[l] == BucketMid(bounds, l)
    {
      mids[i] := (bounds[i - 1] + bounds[i]) / 2.0;
    }
    mids[|bounds|] := bounds[|bounds| - 1] * 1.5;
  }

  /** Every representative lies strictly inside its own bucket, hence they increase; it lies in the
      middle, or half a bound beyond the last one. */
  lemma {:induction false} MidsInsideBuckets(bounds: seq<real>, i: nat, j: nat)
    requires |bounds| >= 1 && bounds[0] > 0.0 && Increasing(bounds)
    requires i <= |bounds| && j <= |bounds|
    ensures BucketMid(bounds, i) > 0.0
    ensures i > 0 ==> bounds[i - 1] < BucketMid(bounds, i)
    ensures i < |bounds| ==> BucketMid(bounds, i) < bounds[i]
    ensures BucketMid(bounds, i) < BucketMid(bounds, j) <==> i < j
    ensures 0 < i < |bounds| ==> BucketMid(bounds, i) - bounds[i - 1] == bounds[i] - BucketMid(bounds, i)
    ensures i == 0 ==> BucketMid(bounds, i) - 0.0 == bounds[0] - BucketMid(bounds, i)
    ensures i == |bounds| ==> var last := bounds[i - 1]; BucketMid(bounds, i) - last == last / 2.0
  {
  }

  // Explicit-bucket points

  /** The count of one bucket: accumulated over the epoch, or of one interval. */
  function BucketCount(g: Draws, cumulative: bool, k: nat, epoch: int, rate: real, salt: Word): nat
    requires rate >= 0.0
  {
    if cumulative then MonotoneCount(g, k, epoch, rate, salt) else DeltaCount(g, k, rate, salt)
  }

  function PointRate(g: Draws, cumulative: bool, epoch: int): (r: real)
    ensures r >= 0.1
  {
    if cumulative then EpochRate(g, epoch) else PerSweepRate(g)
  }

  predicate Positive(weights: seq<real>) {
    |weights| > 0 && forall l :: 0 <= l < |weights| ==> weights[l] > 0.0
  }

  /** Bucket l draws with its own salt and gets its share of the rate. */
  function BucketAt(
    g: Draws, cumulative: bool, k: nat, epoch: int, rate: real, weights: seq<real>, salt: nat, l: nat): nat
    requires rate >= 0.0 && Positive(weights)
  {
    var w := weights[l % |weights|];
    TimesSign(w, rate);
    BucketCount(g, cumulative, k, epoch, Times(w, rate), ToWord(l + salt))
  }

  function Buckets(
    g: Draws, cumulative: bool, k: nat, epoch: int, rate: real, weights: seq<real>, salt: nat): (f: nat -> nat)
    requires rate >= 0.0 && Positive(weights)
    ensures forall l: nat :: f(l) == BucketAt(g, cumulative, k, epoch, rate, weights, salt, l)
  {
    (l: nat) => BucketAt(g, cumulative, k, epoch, rate, weights, salt, l)
  }

  function BucketCounts(
    g: Draws, cumulative: bool, k: nat, epoch: int, rate: real, weights: seq<real>, salt: nat, n: nat)
    : (counts: seq<nat>)
    requires rate >= 0.0 && Positive(weights)
    ensures |counts| == n
  {
    Tabulate(Buckets(g, cumulative, k, epoch, rate, weights, salt), n)
  }

  /** Fills the buckets of a point from a bucket function, adding up the count and the sum. */
  method FillBuckets(bucket: nat -> nat, mids: seq<real>, counts: array<nat>) returns (count: nat, sum: real)
    requires counts.Length <= |mids|
    modifies counts
    ensures counts[..] == Tabulate(bucket, counts.Length)
    ensures count == Total(counts[..])
    ensures sum == Weighted(counts[..], mids)
  {
    count, sum := 0, 0.0;
    for l := 0 to counts.Length
      invariant forall m: nat :: m < l ==> counts[m] == bucket(m)
      invariant count == Total(counts[..l])
      invariant sum == Weighted(counts[..l], mids)
    {
      var n := bucket(l);
      counts[l] := n;
      count := count + n;
      sum := sum + Times(n as real, mids[l]);
      assert counts[..l + 1][..l] == counts[..l];
    }
    assert counts[..counts.Length] == counts[..];
  }

  function HistCounts(g: Draws, cumulative: bool, k: nat, epoch: int, shape: HistShape): (counts: seq<nat>)
    requires Positive(shape.weights)
  {
    BucketCounts(g, cumulative, k, epoch, PointRate(g, cumulative, epoch), shape.weights, 16, |shape.weights|)
  }

  method HistPoint(
    g: Draws, cumulative: bool, k: nat, epoch: int, shape: HistShape, mids: seq<real>, counts: array<nat>)
    returns (count: nat, sum: real, minV: real, maxV: real)
    requires shape.Valid(counts.Length) && |mids| == counts.Length > 0
    modifies counts
    ensures counts[..] == HistCounts(g, cumulative, k, epoch, shape)
    ensures count == Total(counts[..])
    ensures sum == Weighted(counts[..], mids)
    ensures minV == Times(mids[shape.minIdx], 0.8) && maxV == Times(mids[shape.maxIdx], 1.2)
  {
    var rate := PointRate(g, cumulative, epoch);
    count, sum := FillBuckets(Buckets(g, cumulative, k, epoch, rate, shape.weights, 16), mids, counts);
    minV := Times(mids[shape.minIdx], 0.8);
    maxV := Times(mids[shape.maxIdx], 1.2);
  }

  /** The reported minimum is below the reported maximum, for every shape and all bounds. */
  lemma {:induction false} HistMinBelowMax(bounds: seq<real>, shape: HistShape)
    requires |bounds| >= 1 && bounds[0] > 0.0 && Increasing(bounds)
    requires shape.Valid(|bounds| + 1)
    ensures Times(BucketMid(bounds, shape.minIdx), 0.8) < Times(BucketMid(bounds, shape.maxIdx), 1.2)
  {
    ExtentOrdered(shape, |bounds| + 1);
    var a, b := BucketMid(bounds, shape.minIdx), BucketMid(bounds, shape.maxIdx);
    MidsInsideBuckets(bounds, shape.minIdx, shape.maxIdx);
    MidsInsideBuckets(bounds, shape.maxIdx, shape.minIdx);
    StretchedOrder(a, b);
  }

  lemma {:induction false} StretchedOrder(a: real, b: real)
    requires 0.0 < a <= b
    ensures Times(a, 0.8) < Times(b, 1.2)
  {
  }

  // How a point's rate is shared out

  /** How many sweeps' worth of events a count stands for, at least and at most. */
  function LeastSweeps(cumulative: bool, age: nat): real {
    if cumulative then age as real else 0.5
  }

  function MostSweeps(cumulative: bool, age: nat): real {
    if cumulative then age as real + 0.9 else 1.5
  }

  /** A bucket counts its share of the rate: what its weight makes of the rate, over the age of the
      epoch and at most nine tenths of a sweep more, or over half to one and a half sweeps for a
      delta, and rounded down. */
  lemma {:induction false} BucketShare(
    g: Draws, cumulative: bool, k: nat, epoch: nat, rate: real, weights: seq<real>, salt: nat, l: nat)
    requires rate >= 0.0 && Positive(weights) && epoch <= k
    ensures var share, count := Times(weights[l % |weights|], rate),
        BucketAt(g, cumulative, k, epoch, rate, weights, salt, l) as real;
      Times(LeastSweeps(cumulative, k - epoch), share) - 1.0 < count <= Times(MostSweeps(cumulative, k - epoch), share)
  {
    var share := Times(weights[l % |weights|], rate);
    TimesSign(weights[l % |weights|], rate);
    CountShare(g, cumulative, k, epoch, share, ToWord(l + salt));
  }

  lemma {:induction false} CountShare(g: Draws, cumulative: bool, k: nat, epoch: nat, share: real, salt: Word)
    requires share >= 0.0 && epoch <= k
    ensures Times(LeastSweeps(cumulative, k - epoch), share) - 1.0
      < BucketCount(g, cumulative, k, epoch, share, salt) as real <= Times(MostSweeps(cumulative, k - epoch), share)
  {
    var f, age := Frac3(g, k, salt), k - epoch;
    if cumulative {
      WobblyFactored(share, age, f);
      TimesMonotone(age as real, age as real + 0.9 * f, share);
      TimesMonotone(age as real + 0.9 * f, age as real + 0.9, share);
      TimesSign(age as real, share);
    } else {
      TimesMonotone(0.5, 0.5 + f, share);
      TimesMonotone(0.5 + f, 1.5, share);
    }
  }

  /** Counts near their shares of a rate add up to nearly the rate. */
  lemma {:induction false} SharesAddUp(counts: seq<nat>, weights: seq<real>, rate: real, least: real, most: real)
    requires |counts| == |weights|
    requires forall l :: 0 <= l < |counts| ==>
      Times(least, Times(weights[l], rate)) - 1.0 <= counts[l] as real <= Times(most, Times(weights[l], rate))
    ensures Times(least, Times(RealSum(weights), rate)) - |counts| as real <= Total(counts) as real
    ensures Total(counts) as real <= Times(most, Times(RealSum(weights), rate))
  {
    if counts != [] {
      var l := |counts| - 1;
      SharesAddUp(counts[..l], weights[..l], rate, least, most);
      TimesSum(RealSum(weights[..l]), weights[l], rate);
      TimesSplit(least, Times(RealSum(weights[..l]), rate), Times(weights[l], rate));
      TimesSplit(most, Times(RealSum(weights[..l]), rate), Times(weights[l], rate));
    }
  }

  lemma {:induction false} TimesSplit(m: real, x: real, y: real)
    ensures Times(m, x + y) == Times(m, x) + Times(m, y)
  {
  }

  /** The weights of a shape share a rate out completely: a histogram's count is that of the whole
      rate, within one event per bucket. */
  lemma {:induction false} HistogramCountsTheRate(
    g: Draws, cumulative: bool, k: nat, epoch: nat, shape: HistShape, n: nat)
    requires shape.Valid(n) && epoch <= k
    ensures var rate, count := PointRate(g, cumulative, epoch), Total(HistCounts(g, cumulative, k, epoch, shape));
      && Times(LeastSweeps(cumulative, k - epoch), rate) - n as real <= count as real
      && count as real <= Times(MostSweeps(cumulative, k - epoch), rate)
  {
    var rate := PointRate(g, cumulative, epoch);
    SharesOfRate(g, cumulative, k, epoch, rate, shape.weights, 16);
    SharesAddUp(HistCounts(g, cumulative, k, epoch, shape), shape.weights, rate,
                LeastSweeps(cumulative, k - epoch), MostSweeps(cumulative, k - epoch));
    assert Times(1.0, rate) == rate;
  }

  lemma {:induction false} SharesOfRate(
    g: Draws, cumulative: bool, k: nat, epoch: nat, rate: real, weights: seq<real>, salt: nat)
    requires rate >= 0.0 && Positive(weights) && epoch <= k
    ensures var counts := BucketCounts(g, cumulative, k, epoch, rate, weights, salt, |weights|);
      forall l :: 0 <= l < |weights| ==>
        Times(LeastSweeps(cumulative, k - epoch), Times(weights[l], rate)) - 1.0
        <= counts[l] as real <= Times(MostSweeps(cumulative, k - epoch), Times(weights[l], rate))
  {
    var counts := BucketCounts(g, cumulative, k, epoch, rate, weights, salt, |weights|);
    var least, most := LeastSweeps(cumulative, k - epoch), MostSweeps(cumulative, k - epoch);
    forall l: nat | l < |weights|
      ensures Times(least, Times(weights[l], rate)) - 1.0 <= counts[l] as real <= Times(most, Times(weights[l], rate))
    {
      BucketShare(g, cumulative, k, epoch, rate, weights, salt, l);
      QuotientIs(l, |weights|, 0, l);
    }
  }

  /** Buckets draw apart: some mixer lets one of two count nothing where the other counts four, and
      five where the other counts ten. */
  lemma {:induction false} BucketsDrawApart(g: Draws, k: nat, salt: nat, l: nat, l': nat) returns (chosen: Mixers)
    requires ToWord(l + salt) != ToWord(l' + salt)
    ensures var g' := g.(p := g.p.(mixers := chosen));
      && BucketAt(g', true, k, k, 10.0, [1.0], salt, l) == 0 && BucketAt(g', true, k, k, 10.0, [1.0], salt, l') == 4
      && BucketAt(g', false, k, k, 10.0, [1.0], salt, l) == 5 && BucketAt(g', false, k, k, 10.0, [1.0], salt, l') == 10
  {
    var mute := ToWord(l + salt);
    chosen := Mixers((a, b) => 0, (a, b, c) => if c == mute then 0 else 0x8000_0000_0000_0000);
    var g' := g.(p := g.p.(mixers := chosen));
    assert Frac3(g', k, mute) == 0.0 && Frac3(g', k, ToWord(l' + salt)) == 0.5;
    assert Times(0.5, 10.0) == 5.0 && Times(0.5 + 0.5, 10.0) == 10.0;
    assert Times([1.0][0], 10.0) == 10.0 && Wobbly(10.0, 0, 0.0) == 0.0 && Wobbly(10.0, 0, 0.5) == 4.5;
  }

  /** Within an epoch no cumulative bucket ever decreases, and so neither does their total. */
  lemma {:induction false} BucketsNeverDecrease(
    g: Draws, j: nat, k: nat, epoch: int, rate: real, weights: seq<real>, salt: nat, n: nat)
    requires j <= k && rate >= 0.0 && Positive(weights)
    ensures forall l :: 0 <= l < n ==>
      BucketCounts(g, true, j, epoch, rate, weights, salt, n)[l]
      <= BucketCounts(g, true, k, epoch, rate, weights, salt, n)[l]
    ensures Total(BucketCounts(g, true, j, epoch, rate, weights, salt, n))
         <= Total(BucketCounts(g, true, k, epoch, rate, weights, salt, n))
  {
    forall l: nat | l < n
      ensures BucketAt(g, true, j, epoch, rate, weights, salt, l)
           <= BucketAt(g, true, k, epoch, rate, weights, salt, l)
    {
      var w := weights[l % |weights|];
      TimesSign(w, rate);
      MonotoneCountNeverDecreases(g, j, k, epoch, Times(w, rate), ToWord(l + salt));
    }
    TotalMonotone(BucketCounts(g, true, j, epoch, rate, weights, salt, n),
      BucketCounts(g, true, k, epoch, rate, weights, salt, n));
  }

  lemma {:induction false} TotalMonotone(a: seq<nat>, b: seq<nat>)
    requires |a| == |b| && forall l :: 0 <= l < |a| ==> a[l] <= b[l]
    ensures Total(a) <= Total(b)
  {
    if a != [] {
      TotalMonotone(a[..|a| - 1], b[..|b| - 1]);
    }
  }

  /** Larger counts never make a smaller sum when the representatives are positive. */
  lemma {:induction false} WeightedMonotone(a: seq<nat>, b: seq<nat>, mids: seq<real>)
    requires |a| == |b| <= |mids|
    requires forall l :: 0 <= l < |a| ==> a[l] <= b[l] && mids[l] > 0.0
    ensures Weighted(a, mids) <= Weighted(b, mids)
  {
    if a != [] {
      var l := |a| - 1;
      WeightedMonotone(a[..l], b[..l], mids);
      TimesMonotone(a[l] as real, b[l] as real, mids[l]);
    }
  }

  /** Within an epoch a cumulative histogram never goes backwards: no bucket, not the count,
      not the sum. */
  lemma {:induction false} HistogramNeverDecreases(g: Draws, j: nat, k: nat, shape: HistShape, mids: seq<real>)
    requires j <= k && EpochStart(g.p, g.s, j) == EpochStart(g.p, g.s, k)
    requires Positive(shape.weights) && Positive(mids) && |mids| == |shape.weights|
    ensures var e := EpochStart(g.p, g.s, k);
      var a, b := HistCounts(g, true, j, e, shape), HistCounts(g, true, k, e, shape);
      && (forall l :: 0 <= l < |mids| ==> a[l] <= b[l])
      && Total(a) <= Total(b) && Weighted(a, mids) <= Weighted(b, mids)
  {
    var e := EpochStart(g.p, g.s, k);
    BucketsNeverDecrease(g, j, k, e, EpochRate(g, e), shape.weights, 16, |shape.weights|);
    WeightedMonotone(HistCounts(g, true, j, e, shape), HistCounts(g, true, k, e, shape), mids);
  }

  // Exponential points

  const EXP_POW_MIN := -20
  const EXP_POW_SIZE := 80

  /** Integer powers of a base above 1. */
  function Power(base: real, n: int): (r: real)
    requires base > 1.0
    ensures r > 0.0
    decreases if n < 0 then -n else n
  {
    if n == 0 then 1.0
    else if n > 0 then
      TimesSign(Power(base, n - 1), base);
      Times(Power(base, n - 1), base)
    else
      RatioMonotone(0.0, Power(base, n + 1), base);
      RatioSum(0.0, 0.0, base);
      Ratio(Power(base, n + 1), base)
  }

  lemma {:induction false} PowerStep(base: real, n: int)
    requires base > 1.0
    ensures Power(base, n + 1) == Times(Power(base, n), base)
    ensures Power(base, n) < Power(base, n + 1)
  {
    if n < 0 {
      RatioTimes(Power(base, n + 1), base);
    }
    var p := Power(base, n);
    TimesMonotone(1.0, base, p);
    TimesCommutes(p, base);
    TimesCommutes(1.0, p);
  }

  lemma {:induction false} PowerIncreases(base: real, m: int, n: int)
    requires base > 1.0 && m < n
    ensures Power(base, m) < Power(base, n)
    decreases n - m
  {
    PowerStep(base, n - 1);
    if m < n - 1 {
      PowerIncreases(base, m, n - 1);
    }
  }

  method ExpPowTable(base: real, minIdx: int, n: nat) returns (table: array<real>)
    requires base > 1.0
    ensures fresh(table) && table.Length == n
    ensures forall i :: 0 <= i < n ==> table[i] == Power(base, minIdx + i)
  {
    table := new real[n];
    for i := 0 to n
      invariant forall l :: 0 <= l < i ==> table[l] == Power(base, minIdx + l)
    {
      table[i] := Power(base, minIdx + i);
    }
  }

  ghost predicate IsPowTable(base: real, table: seq<real>)
    requires base > 1.0
  {
    |table| == EXP_POW_SIZE && forall i :: 0 <= i < |table| ==> table[i] == Power(base, EXP_POW_MIN + i)
  }

  function ExpOffset(g: Draws): (offset: int)
    ensures EXP_POW_MIN <= offset < EXP_POW_MIN + 40
  {
    EXP_POW_MIN + g.p.mixers.mix2(g.s.seed, 13) % 40
  }

  /** How many buckets a series keeps on each side; the negative side may be absent. */
  function ExpBucketLens(g: Draws, hasNegative: bool): (lens: (nat, nat))
    ensures 8 <= lens.0 <= 32 && (lens.1 == 0 || 2 <= lens.1 <= lens.0)
  {
    var pos := 8 + g.p.mixers.mix2(g.s.seed, 18) % 25;
    (pos, if hasNegative && g.p.mixers.mix2(g.s.seed, 19) % 3 == 0 then (if pos / 2 < 2 then 2 else pos / 2) else 0)
  }

  /** The middle of an exponential bucket, read from the table. */
  function ExpMid(table: seq<real>, bucket: int): real
    requires 0 <= bucket - EXP_POW_MIN && bucket - EXP_POW_MIN + 1 < |table|
  {
    (table[bucket - EXP_POW_MIN] + table[bucket - EXP_POW_MIN + 1]) / 2.0
  }

  /** The representatives of n consecutive buckets from an offset. */
  function ExpMids(table: seq<real>, offset: int, n: nat): (mids: seq<real>)
    requires EXP_POW_MIN <= offset && offset - EXP_POW_MIN + n < |table|
    ensures |mids| == n
    ensures forall l :: 0 <= l < n ==> mids[l] == ExpMid(table, offset + l)
  {
    seq(n, l requires 0 <= l < n => ExpMid(table, offset + l))
  }

  function HasZeroBucket(g: Draws): bool {
    g.p.mixers.mix2(g.s.seed, 15) % 4 == 0
  }

  /** The zero bucket gets a hundredth of the rate, the negative side a tenth. */
  function ZeroRate(g: Draws, cumulative: bool, epoch: int): (r: real)
    ensures r >= 0.0
  {
    PointRate(g, cumulative, epoch) * 0.01
  }

  function NegRate(g: Draws, cumulative: bool, epoch: int): (r: real)
    ensures r >= 0.0
  {
    PointRate(g, cumulative, epoch) * 0.1
  }

  function ZeroCount(g: Draws, cumulative: bool, k: nat, epoch: int): nat {
    if HasZeroBucket(g) then BucketCount(g, cumulative, k, epoch, ZeroRate(g, cumulative, epoch), 192) else 0
  }

  /** Half of the zero buckets have a width. */
  function ZeroThreshold(g: Draws): real {
    if HasZeroBucket(g) && g.p.mixers.mix2(g.s.seed, 17) % 2 == 0 then 0.000000001 else 0.0
  }

  function PosCounts(g: Draws, cumulative: bool, k: nat, epoch: int, shape: HistShape, n: nat): seq<nat>
    requires Positive(shape.weights)
  {
    BucketCounts(g, cumulative, k, epoch, PointRate(g, cumulative, epoch), shape.weights, 64, n)
  }

  function NegCounts(g: Draws, cumulative: bool, k: nat, epoch: int, shape: HistShape, n: nat): seq<nat>
    requires Positive(shape.weights)
  {
    BucketCounts(g, cumulative, k, epoch, NegRate(g, cumulative, epoch), shape.weights, 128, n)
  }

  /** One side of an exponential point. */
  method FillSide(g: Draws, cumulative: bool, k: nat, epoch: int, rate: real, weights: seq<real>, salt: nat,
                  table: seq<real>, offset: int, counts: array<nat>)
    returns (count: nat, sum: real)
    requires rate >= 0.0 && Positive(weights)
    requires EXP_POW_MIN <= offset && offset - EXP_POW_MIN + counts.Length < |table|
    modifies counts
    ensures counts[..] == BucketCounts(g, cumulative, k, epoch, rate, weights, salt, counts.Length)
    ensures count == Total(counts[..])
    ensures sum == Weighted(counts[..], ExpMids(table, offset, counts.Length))
  {
    var mids := ExpMids(table, offset, counts.Length);
    count, sum := FillBuckets(Buckets(g, cumulative, k, epoch, rate, weights, salt), mids, counts);
  }

  /** One exponential point.  Every table lookup is in range for every series. */
  method ExpHistPoint(
    g: Draws, cumulative: bool, hasNegative: bool, k: nat, epoch: int, shape: HistShape, table: seq<real>,
    pos: array<nat>, neg: array<nat>)
    returns (offset: int, negOffset: int, zeroCount: nat, zeroThreshold: real, count: nat, sum: real, minV: real,
      maxV: real)
    requires Positive(shape.weights) && |table| == EXP_POW_SIZE && pos != neg
    requires (pos.Length, neg.Length) == ExpBucketLens(g, hasNegative)
    modifies pos, neg
    ensures offset == ExpOffset(g) && negOffset == if neg.Length > 0 then offset else 0
    ensures pos[..] == PosCounts(g, cumulative, k, epoch, shape, pos.Length)
    ensures neg[..] == NegCounts(g, cumulative, k, epoch, shape, neg.Length)
    ensures zeroCount == ZeroCount(g, cumulative, k, epoch)
    ensures zeroThreshold == ZeroThreshold(g) && (zeroThreshold != 0.0 ==> HasZeroBucket(g))
    ensures count == Total(pos[..]) + Total(neg[..]) + zeroCount
    ensures sum == Weighted(pos[..], ExpMids(table, offset, pos.Length))
      - Weighted(neg[..], ExpMids(table, offset, neg.Length))
    ensures maxV == ExpMax(table, offset, pos.Length)
    ensures minV == ExpMin(table, offset, neg.Length)
  {
    var rate := PointRate(g, cumulative, epoch);
    offset := ExpOffset(g);
    count, sum := FillSide(g, cumulative, k, epoch, rate, shape.weights, 64, table, offset, pos);
    negOffset := if neg.Length > 0 then offset else 0;
    var negRate := NegRate(g, cumulative, epoch);
    var negCount, negSum := FillSide(g, cumulative, k, epoch, negRate, shape.weights, 128, table, offset, neg);
    count, sum := count + negCount, sum - negSum;
    zeroCount, zeroThreshold := ZeroCount(g, cumulative, k, epoch), ZeroThreshold(g);
    count := count + zeroCount;
    minV, maxV := ExpMin(table, offset, neg.Length), ExpMax(table, offset, pos.Length);
  }

  function ExpMax(table: seq<real>, offset: int, posLen: nat): real
    requires 1 <= posLen && EXP_POW_MIN <= offset && offset - EXP_POW_MIN + posLen < |table|
  {
    Times(ExpMid(table, offset + posLen - 1), 1.2)
  }

  function ExpMin(table: seq<real>, offset: int, negLen: nat): real
    requires EXP_POW_MIN <= offset && offset - EXP_POW_MIN + negLen + 1 < |table|
  {
    if negLen > 0 then -Times(ExpMid(table, offset + negLen - 1), 1.2) else Times(ExpMid(table, offset), 0.8)
  }

  lemma {:induction false} ExpMidsIncrease(base: real, table: seq<real>, a: int, b: int)
    requires base > 1.0 && IsPowTable(base, table)
    requires EXP_POW_MIN <= a <= b < EXP_POW_MIN + EXP_POW_SIZE - 1
    ensures 0.0 < ExpMid(table, a) <= ExpMid(table, b)
    ensures a < b ==> ExpMid(table, a) < ExpMid(table, b)
  {
    if a < b {
      PowerIncreases(base, a, b);
      PowerIncreases(base, a + 1, b + 1);
    }
  }

  /** The reported minimum of an exponential point is below its reported maximum. */
  lemma {:induction false} ExpMinBelowMax(g: Draws, hasNegative: bool, base: real, table: seq<real>)
    requires base > 1.0 && IsPowTable(base, table)
    ensures var (posLen, negLen) := ExpBucketLens(g, hasNegative);
      ExpMin(table, ExpOffset(g), negLen) < ExpMax(table, ExpOffset(g), posLen)
  {
    var (posLen, negLen) := ExpBucketLens(g, hasNegative);
    var offset := ExpOffset(g);
    ExpMidsIncrease(base, table, offset, offset + posLen - 1);
    StretchedOrder(ExpMid(table, offset), ExpMid(table, offset + posLen - 1));
    TimesSign(ExpMid(table, offset + posLen - 1), 1.2);
    if negLen > 0 {
      ExpMidsIncrease(base, table, offset, offset + negLen - 1);
      TimesSign(ExpMid(table, offset + negLen - 1), 1.2);
    }
  }

  /** Within an epoch a cumulative exponential histogram never goes backwards: no bucket on
      either side, not the zero bucket, not the count. */
  lemma {:induction false} ExpHistogramNeverDecreases(g: Draws, hasNegative: bool, j: nat, k: nat, shape: HistShape)
    requires j <= k && EpochStart(g.p, g.s, j) == EpochStart(g.p, g.s, k) && Positive(shape.weights)
    ensures var e := EpochStart(g.p, g.s, k);
      var (posLen, negLen) := ExpBucketLens(g, hasNegative);
      var pos, pos' := PosCounts(g, true, j, e, shape, posLen), PosCounts(g, true, k, e, shape, posLen);
      var neg, neg' := NegCounts(g, true, j, e, shape, negLen), NegCounts(g, true, k, e, shape, negLen);
      && (forall l :: 0 <= l < posLen ==> pos[l] <= pos'[l])
      && (forall l :: 0 <= l < negLen ==> neg[l] <= neg'[l])
      && ZeroCount(g, true, j, e) <= ZeroCount(g, true, k, e)
      && Total(pos) + Total(neg) + ZeroCount(g, true, j, e) <= Total(pos') + Total(neg') + ZeroCount(g, true, k, e)
  {
    var e := EpochStart(g.p, g.s, k);
    var (posLen, negLen) := ExpBucketLens(g, hasNegative);
    var rate := EpochRate(g, e);
    BucketsNeverDecrease(g, j, k, e, rate, shape.weights, 64, posLen);
    BucketsNeverDecrease(g, j, k, e, NegRate(g, true, e), shape.weights, 128, negLen);
    MonotoneCountNeverDecreases(g, j, k, e, ZeroRate(g, true, e), 192);
  }

  /** Nor does the sum, when there are no negative buckets to take away from it. */
  lemma {:induction false} ExpSumNeverDecreases(g: Draws, j: nat, k: nat, shape: HistShape, mids: seq<real>)
    requires j <= k && EpochStart(g.p, g.s, j) == EpochStart(g.p, g.s, k)
    requires Positive(shape.weights) && Positive(mids)
    ensures var e := EpochStart(g.p, g.s, k);
      Weighted(PosCounts(g, true, j, e, shape, |mids|), mids) <= Weighted(PosCounts(g, true, k, e, shape, |mids|), mids)
  {
    var e := EpochStart(g.p, g.s, k);
    BucketsNeverDecrease(g, j, k, e, EpochRate(g, e), shape.weights, 64, |mids|);
    WeightedMonotone(PosCounts(g, true, j, e, shape, |mids|), PosCounts(g, true, k, e, shape, |mids|), mids);
  }

  lemma {:induction false} ExpMidsPositive(g: Draws, base: real, table: seq<real>, hasNegative: bool)
    requires base > 1.0 && IsPowTable(base, table)
    ensures Positive(ExpMids(table, ExpOffset(g), ExpBucketLens(g, hasNegative).0))
  {
    var mids := ExpMids(table, ExpOffset(g), ExpBucketLens(g, hasNegative).0);
    forall l | 0 <= l < |mids|
      ensures mids[l] > 0.0
    {
      ExpMidsIncrease(base, table, ExpOffset(g) + l, ExpOffset(g) + l);
    }
  }
}
