/** What someone reading the wire can rely on: the readings of an accumulating series, against
    the start times they are reported with. */
module Readings {
  import opened Sweeps
  import opened Streams
  import opened Values
  import opened Histograms

  /** What accumulates: a monotonic sum, a histogram of either kind, or a summary. */
  datatype Instrument =
    | Counter
    | Explicit(bounds: seq<real>, shape: HistShape)
    | Exponential(hasNegative: bool, shape: HistShape, base: real, table: seq<real>)
    | Quantiles
  {
    ghost predicate Valid() {
      match this
      case Explicit(bounds, shape) =>
        |bounds| >= 1 && bounds[0] > 0.0 && Increasing(bounds) && shape.Valid(|bounds| + 1)
      case Exponential(_, shape, base, table) => shape.Valid(32) && base > 1.0 && IsPowTable(base, table)
      case _ => true
    }

    function Type(): MetricType {
      match this
      case Counter => Sum
      case Explicit(_, _) => Histogram
      case Exponential(_, _, _, _) => ExpHistogram
      case Quantiles => Summary
    }
  }

  /** The accumulated part of a data point. */
  datatype Reading =
    | Amount(value: real)
    | Spread(counts: seq<nat>, count: nat, sum: real)
    | Sides(positive: seq<nat>, negative: seq<nat>, zero: nat, count: nat, sum: real)
    | Seconds(count: nat, sum: real)

  function Mids(bounds: seq<real>): (mids: seq<real>)
    requires |bounds| >= 1
    ensures |mids| == |bounds| + 1 && forall i :: 0 <= i < |mids| ==> mids[i] == BucketMid(bounds, i)
  {
    seq(|bounds| + 1, i requires 0 <= i < |bounds| + 1 => BucketMid(bounds, i))
  }

  /** What an exponential point reports of its buckets. */
  ghost function SidesOf(table: seq<real>, offset: int, pos: seq<nat>, neg: seq<nat>, zero: nat): Reading
    requires EXP_POW_MIN <= offset && offset - EXP_POW_MIN + |pos| < |table| && offset - EXP_POW_MIN + |neg| < |table|
  {
    Sides(pos, neg, zero, Histograms.Total(pos) + Histograms.Total(neg) + zero,
          Weighted(pos, ExpMids(table, offset, |pos|)) - Weighted(neg, ExpMids(table, offset, |neg|)))
  }

  ghost function ReadingAt(g: Draws, i: Instrument, k: nat): Reading
    requires i.Valid()
  {
    var e := EpochStart(g.p, g.s, k);
    match i
    case Counter => Amount(NumberValue(g, CounterValue(g, k, e)))
    case Explicit(bounds, shape) =>
      var counts := HistCounts(g, true, k, e, shape);
      Spread(counts, Histograms.Total(counts), Weighted(counts, Mids(bounds)))
    case Exponential(hasNegative, shape, base, table) =>
      var (posLen, negLen) := ExpBucketLens(g, hasNegative);
      var pos, neg := PosCounts(g, true, k, e, shape, posLen), NegCounts(g, true, k, e, shape, negLen);
      var zero := ZeroCount(g, true, k, e);
      SidesOf(table, ExpOffset(g), pos, neg, zero)
    case Quantiles => Seconds(SummaryCount(g, k, e), Times(SummaryCount(g, k, e) as real, BaseLatency(g)))
  }

  predicate NoneGreater(a: seq<nat>, b: seq<nat>) {
    |a| == |b| && forall l :: 0 <= l < |a| ==> a[l] <= b[l]
  }

  /** b has accumulated everything a has.  Observations below zero lower a sum, so that with a
      negative side the sum tells nothing. */
  predicate Contains(a: Reading, b: Reading) {
    match (a, b)
    case (Amount(v), Amount(w)) => v <= w
    case (Spread(c, n, s), Spread(c', n', s')) => NoneGreater(c, c') && n <= n' && s <= s'
    case (Sides(p, m, z, n, s), Sides(p', m', z', n', s')) =>
      NoneGreater(p, p') && NoneGreater(m, m') && z <= z' && n <= n' && (m == [] ==> s <= s')
    case (Seconds(n, s), Seconds(n', s')) => n <= n' && s <= s'
    case _ => false
  }

  /** The instant the point of sweep k reports as its start. */
  function StartMs(g: Draws, i: Instrument, k: nat): int
    requires g.p.Valid()
  {
    PointTimeMs(g.p, g.s, PointWindow(g.p, g.s, i.Type(), Cumulative, k).sweep)
  }

  lemma {:induction false} StartIsEpochStart(g: Draws, i: Instrument, k: nat)
    requires g.p.Valid()
    ensures StartMs(g, i, k) == PointTimeMs(g.p, g.s, EpochStart(g.p, g.s, k))
  {
  }

  lemma {:induction false} SameTimeSameSweep(p: Plan, s: Series, a: int, b: int)
    requires p.Valid()
    ensures PointTimeMs(p, s, a) == PointTimeMs(p, s, b) <==> a == b
  {
    PointTimesIncrease(p, s, a, b);
    PointTimesIncrease(p, s, b, a);
  }

  /** Points of equal start belong to one epoch, and points of one epoch have equal starts. */
  lemma {:induction false} StartTellsEpoch(g: Draws, i: Instrument, j: nat, k: nat)
    requires g.p.Valid()
    ensures StartMs(g, i, j) == StartMs(g, i, k) <==> EpochStart(g.p, g.s, j) == EpochStart(g.p, g.s, k)
  {
    StartIsEpochStart(g, i, j);
    StartIsEpochStart(g, i, k);
    SameTimeSameSweep(g.p, g.s, EpochStart(g.p, g.s, j), EpochStart(g.p, g.s, k));
  }

  lemma {:induction false} EpochAccumulates(g: Draws, i: Instrument, j: nat, k: nat)
    requires i.Valid() && j <= k && EpochStart(g.p, g.s, j) == EpochStart(g.p, g.s, k)
    ensures Contains(ReadingAt(g, i, j), ReadingAt(g, i, k))
  {
    match i
    case Counter => CounterNeverDecreases(g, j, k);
    case Explicit(bounds, shape) => ExplicitAccumulates(g, bounds, shape, j, k);
    case Exponential(_, _, _, _) => ExponentialAccumulates(g, i, j, k);
    case Quantiles => SummaryNeverDecreases(g, j, k);
  }

  lemma {:induction false} ExplicitAccumulates(g: Draws, bounds: seq<real>, shape: HistShape, j: nat, k: nat)
    requires Explicit(bounds, shape).Valid() && j <= k && EpochStart(g.p, g.s, j) == EpochStart(g.p, g.s, k)
    ensures Contains(ReadingAt(g, Explicit(bounds, shape), j), ReadingAt(g, Explicit(bounds, shape), k))
  {
    forall l | 0 <= l <= |bounds|
      ensures Mids(bounds)[l] > 0.0
    {
      MidsInsideBuckets(bounds, l, l);
    }
    HistogramNeverDecreases(g, j, k, shape, Mids(bounds));
  }

  lemma {:induction false} ExponentialAccumulates(g: Draws, i: Instrument, j: nat, k: nat)
    requires i.Exponential? && i.Valid() && j <= k && EpochStart(g.p, g.s, j) == EpochStart(g.p, g.s, k)
    ensures Contains(ReadingAt(g, i, j), ReadingAt(g, i, k))
  {
    ExpHistogramNeverDecreases(g, i.hasNegative, j, k, i.shape);
    var offset := ExpOffset(g);
    ExpMidsPositive(g, i.base, i.table, i.hasNegative);
    ExpSumNeverDecreases(g, j, k, i.shape, ExpMids(i.table, offset, ExpBucketLens(g, i.hasNegative).0));
    assert Weighted([], ExpMids(i.table, offset, 0)) == 0.0;
  }

  lemma {:induction false} NanoTellsMs(a: int, b: int)
    requires 0 <= a <= MAX_MS && 0 <= b <= MAX_MS
    ensures MsToNano(a) == MsToNano(b) <==> a == b
  {
    if a < b {
      NanoOrder(a, b);
    } else if b < a {
      NanoOrder(b, a);
    }
  }

  lemma {:induction false} NanosEqualIff(a: int, b: int)
    requires a <= MAX_MS && b <= MAX_MS
    ensures MsToNano(a) == MsToNano(b) <==> a == b || (a <= 0 && b <= 0)
  {
    if a < b {
      NanoOrder(a, b);
    } else if b < a {
      NanoOrder(b, a);
    }
  }

  /** On the wire the starts of two points are equal exactly when the points belong to one epoch,
      or when both starts are no later than the Unix epoch and clamp to 0. */
  lemma {:induction false} WireStartsEqualIff(g: Draws, i: Instrument, j: nat, k: nat)
    requires g.p.Valid()
    ensures StartMs(g, i, j) <= MAX_MS && StartMs(g, i, k) <= MAX_MS ==>
      (MsToNano(StartMs(g, i, j)) == MsToNano(StartMs(g, i, k)) <==>
        EpochStart(g.p, g.s, j) == EpochStart(g.p, g.s, k) || (StartMs(g, i, j) <= 0 && StartMs(g, i, k) <= 0))
  {
    if StartMs(g, i, j) <= MAX_MS && StartMs(g, i, k) <= MAX_MS {
      NanosEqualIff(StartMs(g, i, j), StartMs(g, i, k));
      StartTellsEpoch(g, i, j, k);
    }
  }

  /** The contract of cumulative data as a reader of the wire sees it: of two points of one
      series with the same start time, the one with the later timestamp contains the other. */
  lemma {:induction false} SameStartAccumulates(g: Draws, i: Instrument, j: nat, k: nat)
    requires g.p.Valid() && i.Valid()
    ensures
      && 0 <= StartMs(g, i, j) && 0 <= StartMs(g, i, k)
      && PointTimeMs(g.p, g.s, j) <= MAX_MS && PointTimeMs(g.p, g.s, k) <= MAX_MS
      && MsToNano(StartMs(g, i, j)) == MsToNano(StartMs(g, i, k))
      && MsToNano(PointTimeMs(g.p, g.s, j)) <= MsToNano(PointTimeMs(g.p, g.s, k))
      ==> Contains(ReadingAt(g, i, j), ReadingAt(g, i, k))
  {
    if 0 <= StartMs(g, i, j) && 0 <= StartMs(g, i, k) && PointTimeMs(g.p, g.s, j) <= MAX_MS &&
      PointTimeMs(g.p, g.s, k) <= MAX_MS
      && MsToNano(StartMs(g, i, j)) == MsToNano(StartMs(g, i, k))
    {
      WindowOrder(g.p, g.s, i.Type(), Cumulative, j);
      WindowOrder(g.p, g.s, i.Type(), Cumulative, k);
      NanoTellsMs(StartMs(g, i, j), StartMs(g, i, k));
      StartTellsEpoch(g, i, j, k);
      NanoTellsMs(PointTimeMs(g.p, g.s, j), PointTimeMs(g.p, g.s, k));
      PointTimesIncrease(g.p, g.s, k, j);
      if j <= k {
        EpochAccumulates(g, i, j, k);
      } else {
        NanoOrder(PointTimeMs(g.p, g.s, k), PointTimeMs(g.p, g.s, j));
      }
    }
  }

  lemma {:induction false} EpochMovesAtBoundaries(p: Plan, s: Series, k: nat)
    requires k > 0
    ensures EpochStart(p, s, k) != EpochStart(p, s, k - 1) <==> EpochBoundary(p, s, k)
    ensures EpochStart(p, s, k) == k <==> EpochBoundary(p, s, k)
  {
    EpochStartIsLatestBoundary(p, s, k);
    EpochStartIsLatestBoundary(p, s, k - 1);
    EpochStructure(p, s, k, k);
  }

  /** The start time moves exactly at the boundaries of epochs, where it catches up with the
      timestamp of the point itself. */
  lemma {:induction false} StartMovesAtBoundaries(g: Draws, i: Instrument, k: nat)
    requires g.p.Valid() && k > 0
    ensures StartMs(g, i, k) != StartMs(g, i, k - 1) <==> EpochBoundary(g.p, g.s, k)
    ensures StartMs(g, i, k) == PointTimeMs(g.p, g.s, k) <==> EpochBoundary(g.p, g.s, k)
  {
    StartIsEpochStart(g, i, k);
    StartTellsEpoch(g, i, k, k - 1);
    SameTimeSameSweep(g.p, g.s, EpochStart(g.p, g.s, k), k);
    EpochMovesAtBoundaries(g.p, g.s, k);
  }

  lemma {:induction false} AccumulatesUnlessBoundary(g: Draws, i: Instrument, k: nat)
    requires i.Valid() && k > 0
    ensures Contains(ReadingAt(g, i, k - 1), ReadingAt(g, i, k)) || EpochBoundary(g.p, g.s, k)
  {
    EpochMovesAtBoundaries(g.p, g.s, k);
    if EpochStart(g.p, g.s, k - 1) == EpochStart(g.p, g.s, k) {
      EpochAccumulates(g, i, k - 1, k);
    }
  }

  /** So every restart is announced: a point that lost something its predecessor had
      accumulated reports its own timestamp as its start. */
  lemma {:induction false} RestartIsAnnounced(g: Draws, i: Instrument, k: nat)
    requires g.p.Valid() && i.Valid() && k > 0
    ensures Contains(ReadingAt(g, i, k - 1), ReadingAt(g, i, k)) || StartMs(g, i, k) == PointTimeMs(g.p, g.s, k)
  {
    StartMovesAtBoundaries(g, i, k);
    AccumulatesUnlessBoundary(g, i, k);
  }
}
