/** Point values.  A cumulative value is rate * age + wobble, recomputed from scratch at every
    sweep, with the wobble below nine tenths of the rate; floats are modelled as reals.

    The main results say that what is recomputed never goes backwards inside an epoch. */
module Values {
  import opened Words
  import opened Sweeps

  /** Powers of ten: all the value functions rely on is that they are positive and that
      10^x is at least a tenth from x = -1 on. */
  type PowTen = f: real -> real |
    forall x :: f(x) > 0.0 && (x >= -1.0 ==> f(x) >= 0.1)
    ghost witness (x: real) => 1.0

  /** The numeric texture of a series. */
  datatype Texture = Idle | Integral | Decimal | Full

  /** A series together with what its values are drawn from. */
  datatype Draws = Draws(p: Plan, s: Series, pow10: PowTen, valueIsInt: bool)

  /** A mixed word as a fraction: its top 53 bits. */
  function Frac(h: Word): (f: real)
    ensures 0.0 <= f < 1.0
  {
    (h / 2048) as real / 9007199254740992.0
  }

  function Frac2(g: Draws, salt: Word): (f: real)
    ensures 0.0 <= f < 1.0
  {
    Frac(g.p.mixers.mix2(g.s.seed, salt))
  }

  /** The draw a series makes at sweep k; sweeps before the run wrap like any negative word. */
  function Frac3(g: Draws, k: int, salt: Word): (f: real)
    ensures 0.0 <= f < 1.0
  {
    Frac(g.p.mixers.mix3(g.s.seed, ToWord(k), salt))
  }

  // Products of reals.  The laws below are all that the proofs use of them.

  function Times(x: real, m: real): real {
    x * m
  }

  function Ratio(x: real, m: real): real
    requires m > 0.0
  {
    x / m
  }

  lemma {:induction false} TimesSum(x: real, y: real, m: real)
    ensures Times(x + y, m) == Times(x, m) + Times(y, m)
  {
  }

  lemma {:induction false} TimesSign(x: real, m: real)
    ensures x >= 0.0 && m >= 0.0 ==> Times(x, m) >= 0.0
    ensures x > 0.0 && m > 0.0 ==> Times(x, m) > 0.0
  {
  }

  lemma {:induction false} TimesCommutes(x: real, m: real)
    ensures Times(x, m) == Times(m, x)
  {
  }

  lemma {:induction false} RatioTimes(x: real, m: real)
    requires m > 0.0
    ensures Times(Ratio(x, m), m) == x
  {
  }

  lemma {:induction false} TimesMonotone(x: real, y: real, m: real)
    requires x <= y && m >= 0.0
    ensures Times(x, m) <= Times(y, m)
    ensures x < y && m > 0.0 ==> Times(x, m) < Times(y, m)
  {
    var d := y - x;
    TimesSum(x, d, m);
    TimesSign(d, m);
    assert x + d == y;
  }

  lemma {:induction false} RatioMonotone(x: real, y: real, m: real)
    requires x <= y && m > 0.0
    ensures Ratio(x, m) <= Ratio(y, m)
    ensures x < y ==> Ratio(x, m) < Ratio(y, m)
  {
    var a, b := Ratio(x, m), Ratio(y, m);
    RatioTimes(x, m);
    RatioTimes(y, m);
    if a > b {
      TimesMonotone(b, a, m);
    }
  }

  // Precision

  function TextureFor(g: Draws): Texture {
    var r := Frac2(g, 30);
    if r < 0.12 then Idle else if r < 0.50 then Integral else if r < 0.85 then Decimal else Full
  }

  /** Metrics carried as integers collapse the fractional textures. */
  function SeriesTexture(g: Draws): Texture {
    var c := TextureFor(g);
    if g.valueIsInt && (c == Decimal || c == Full) then Integral else c
  }

  function Decimals(g: Draws): (d: nat)
    ensures 1 <= d <= 3
  {
    1 + g.p.mixers.mix2(g.s.seed, 31) % 3
  }

  /** The table of powers of ten that precision is looked up in. */
  function TenTo(d: nat): (m: real)
    requires d <= 6
    ensures m >= 1.0 && (d >= 1 ==> m >= 10.0) && (d >= 2 ==> m >= 100.0)
  {
    if d == 0 then 1.0 else 10.0 * TenTo(d - 1)
  }

  /** Rounds to the nearest integer, halves away from zero. */
  function Round(v: real): int {
    if v >= 0.0 then (v + 0.5).Floor else -(0.5 - v).Floor
  }

  /** Conversion to an integer drops the fraction. */
  function Truncate(v: real): int {
    if v >= 0.0 then v.Floor else -(-v).Floor
  }

  /** Rounds to a multiple of 1 / m. */
  function RoundTo(v: real, m: real): real
    requires m >= 1.0
  {
    Ratio(Round(Times(v, m)) as real, m)
  }

  /** Applies a texture to a value, m being the series' power of ten. */
  function Quantize(v: real, c: Texture, m: real): real
    requires m >= 1.0
  {
    match c
    case Integral => v.Floor as real
    case Decimal => RoundTo(v, m)
    case _ => v
  }

  lemma {:induction false} RoundMonotone(v: real, w: real)
    requires v <= w
    ensures Round(v) <= Round(w) && Truncate(v) <= Truncate(w)
    ensures v + 1.0 <= w ==> Round(v) < Round(w)
  {
  }

  lemma {:induction false} RoundToMonotone(v: real, w: real, m: real)
    requires v <= w && m >= 1.0
    ensures RoundTo(v, m) <= RoundTo(w, m)
    ensures Times(v, m) + 1.0 <= Times(w, m) ==> RoundTo(v, m) < RoundTo(w, m)
  {
    TimesMonotone(v, w, m);
    RoundMonotone(Times(v, m), Times(w, m));
    RatioMonotone(Round(Times(v, m)) as real, Round(Times(w, m)) as real, m);
  }

  /** Quantizing keeps order in every texture, and keeps apart values a rounding step apart. */
  lemma {:induction false} QuantizeMonotone(v: real, w: real, c: Texture, m: real)
    requires v <= w && m >= 1.0
    ensures Quantize(v, c, m) <= Quantize(w, c, m)
    ensures c == Decimal && Times(v, m) + 1.0 <= Times(w, m) ==> Quantize(v, c, m) < Quantize(w, c, m)
    ensures c == Integral && v + 1.0 <= w ==> Quantize(v, c, m) < Quantize(w, c, m)
    ensures (c == Full || c == Idle) && v < w ==> Quantize(v, c, m) < Quantize(w, c, m)
  {
    match c
    case Decimal => RoundToMonotone(v, w, m);
    case Integral => FloorMonotone(v, w);
    case _ =>
  }

  // Rates and counters

  function PerSweepRate(g: Draws): (r: real)
    ensures r >= 0.1
  {
    g.pow10(Frac2(g, 6) * 4.0 - 1.0)
  }

  function EpochRate(g: Draws, epoch: int): (r: real)
    ensures r >= 0.1
  {
    g.pow10(Frac3(g, epoch, 6) * 4.0 - 1.0)
  }

  /** The unquantized cumulative value at a given age into the epoch. */
  function Wobbly(rate: real, age: int, wobble: real): real {
    rate * age as real + wobble * rate * 0.9
  }

  lemma {:induction false} WobblyFactored(rate: real, age: int, wobble: real)
    ensures Wobbly(rate, age, wobble) == Times(age as real + 0.9 * wobble, rate)
  {
  }

  /** A later age outweighs any wobble. */
  lemma {:induction false} WobblyIncreases(rate: real, age: int, wobble: real, age': int, wobble': real)
    requires rate >= 0.0 && age < age' && 0.0 <= wobble < 1.0 && 0.0 <= wobble' < 1.0
    ensures Wobbly(rate, age, wobble) <= Wobbly(rate, age', wobble')
    ensures rate > 0.0 ==> Wobbly(rate, age, wobble) < Wobbly(rate, age', wobble')
    ensures rate >= 0.1 ==> Wobbly(rate, age, wobble) + 0.01 <= Wobbly(rate, age', wobble')
  {
    WobblyFactored(rate, age, wobble);
    WobblyFactored(rate, age', wobble');
    Apart(rate, age as real + 0.9 * wobble, age' as real + 0.9 * wobble');
  }

  lemma {:induction false} Apart(r: real, x: real, y: real)
    requires r >= 0.0 && x + 0.1 <= y
    ensures Times(x, r) <= Times(y, r)
    ensures r > 0.0 ==> Times(x, r) < Times(y, r)
    ensures r >= 0.1 ==> Times(x, r) + 0.01 <= Times(y, r)
  {
    TimesMonotone(x + 0.1, y, r);
    TimesSum(x, 0.1, r);
  }

  /** A cumulative sum at a given age into its epoch. */
  function CounterAt(c: Texture, m: real, rate: real, age: int, wobble: real): real
    requires m >= 1.0
  {
    if c == Idle then IdleAt(rate, age) as real else Quantize(Wobbly(rate, age, wobble), c, m)
  }

  /** Idle counters tick rarely, in whole steps. */
  function IdleAt(rate: real, age: int): int {
    Times(age as real, rate * 0.02).Floor
  }

  function CounterValue(g: Draws, k: nat, epoch: int): real {
    CounterAt(SeriesTexture(g), TenTo(Decimals(g)), EpochRate(g, epoch), k - epoch, Frac3(g, k, 7))
  }

  /** The value as the data point carries it. */
  function NumberValue(g: Draws, v: real): real {
    if g.valueIsInt then Truncate(v) as real else v
  }

  lemma {:induction false} CounterAtMonotone(c: Texture, m: real, rate: real, age: int, w: real, age': int, w': real)
    requires m >= 1.0 && rate > 0.0 && age < age' && 0.0 <= w < 1.0 && 0.0 <= w' < 1.0
    ensures CounterAt(c, m, rate, age, w) <= CounterAt(c, m, rate, age', w')
  {
    if c == Idle {
      IdleMonotone(rate, age, age');
    } else {
      WobblyIncreases(rate, age, w, age', w');
      QuantizeMonotone(Wobbly(rate, age, w), Wobbly(rate, age', w'), c, m);
    }
  }

  lemma {:induction false} IdleMonotone(rate: real, age: int, age': int)
    requires rate > 0.0 && age < age'
    ensures IdleAt(rate, age) <= IdleAt(rate, age')
  {
    var r := rate * 0.02;
    TimesMonotone(age as real, age' as real, r);
    FloorMonotone(Times(age as real, r), Times(age' as real, r));
  }

  lemma {:induction false} FloorMonotone(v: real, w: real)
    requires v <= w
    ensures v.Floor <= w.Floor
    ensures v + 1.0 <= w ==> v.Floor < w.Floor
  {
    var a, b := v.Floor, w.Floor;
    assert a <= b || a as real >= b as real + 1.0;
  }

  /** Within an epoch a cumulative sum never decreases, in whatever form it is carried. */
  lemma {:induction false} CounterNeverDecreases(g: Draws, j: nat, k: nat)
    requires j <= k && EpochStart(g.p, g.s, j) == EpochStart(g.p, g.s, k)
    ensures var e := EpochStart(g.p, g.s, k);
      && CounterValue(g, j, e) <= CounterValue(g, k, e)
      && NumberValue(g, CounterValue(g, j, e)) <= NumberValue(g, CounterValue(g, k, e))
  {
    var e := EpochStart(g.p, g.s, k);
    if j < k {
      CounterAtMonotone(SeriesTexture(g), TenTo(Decimals(g)), EpochRate(g, e), j - e, Frac3(g, j, 7), k - e,
        Frac3(g, k, 7));
      RoundMonotone(CounterValue(g, j, e), CounterValue(g, k, e));
    }
  }

  /** What a freshly started epoch can have counted: nine tenths of a sweep's worth of events and
      a rounding step. */
  function RestartBound(rate: real): real {
    rate * 0.9 + 0.05
  }

  /** So over a whole run a counter can drop only where its epoch ends: at a reset or at a
      churn boundary, and there it restarts within the bound. */
  lemma {:induction false} CounterDropsOnlyAtBoundaries(g: Draws, k: nat)
    requires k > 0
    ensures CounterValue(g, k, EpochStart(g.p, g.s, k)) < CounterValue(g, k - 1, EpochStart(g.p, g.s, k - 1))
      ==> EpochBoundary(g.p, g.s, k)
    ensures EpochBoundary(g.p, g.s, k) ==>
      0.0 <= CounterValue(g, k, EpochStart(g.p, g.s, k)) <= RestartBound(EpochRate(g, k))
  {
    EpochStartIsLatestBoundary(g.p, g.s, k);
    EpochStructure(g.p, g.s, k, k);
    if !EpochBoundary(g.p, g.s, k) {
      CounterNeverDecreases(g, k - 1, k);
    } else {
      CounterRestart(SeriesTexture(g), TenTo(Decimals(g)), EpochRate(g, k), Frac3(g, k, 7));
    }
  }

  lemma {:induction false} CounterRestart(c: Texture, m: real, rate: real, w: real)
    requires m >= 10.0 && rate > 0.0 && 0.0 <= w < 1.0
    ensures 0.0 <= CounterAt(c, m, rate, 0, w) <= RestartBound(rate)
  {
    var v := Wobbly(rate, 0, w);
    assert 0.0 <= v <= rate * 0.9 by {
      WobblyFactored(rate, 0, w);
      TimesMonotone(0.0, 0.9 * w, rate);
      TimesMonotone(0.9 * w, 0.9, rate);
    }
    if c == Decimal {
      RoundedNear(v, m);
    }
  }

  lemma {:induction false} RoundedNear(v: real, m: real)
    requires v >= 0.0 && m >= 10.0
    ensures 0.0 <= Quantize(v, Decimal, m) <= v + 0.05
  {
    var x := Times(v, m);
    TimesMonotone(0.0, v, m);
    TimesMonotone(10.0, m, 0.05);
    TimesSum(v, 0.05, m);
    RatioMonotone(0.0, Round(x) as real, m);
    RatioMonotone(Round(x) as real, Times(v + 0.05, m), m);
  }

  // Counts

  function MonotoneCount(g: Draws, k: nat, epoch: int, rate: real, salt: Word): nat {
    var v := Wobbly(rate, k - epoch, Frac3(g, k, salt));
    if v < 0.0 then 0 else v.Floor
  }

  function DeltaCount(g: Draws, k: nat, rate: real, salt: Word): nat
    requires rate >= 0.0
  {
    TimesMonotone(0.0, 0.5 + Frac3(g, k, salt), rate);
    Times(0.5 + Frac3(g, k, salt), rate).Floor
  }

  /** Within an epoch a count never decreases, whatever its rate. */
  lemma {:induction false} MonotoneCountNeverDecreases(g: Draws, j: nat, k: nat, epoch: int, rate: real, salt: Word)
    requires j <= k && rate >= 0.0
    ensures MonotoneCount(g, j, epoch, rate, salt) <= MonotoneCount(g, k, epoch, rate, salt)
  {
    if j < k {
      WobblyIncreases(rate, j - epoch, Frac3(g, j, salt), k - epoch, Frac3(g, k, salt));
    }
  }

  // Gauges, which sums that are not monotonic are made of as well

  /** The sine of a sweep, given the sweeps of a period and a phase: anything between -1 and 1. */
  type Wave = f: (nat, nat, real) -> real | forall k, n, x :: -1.0 <= f(k, n, x) <= 1.0
    ghost witness (k: nat, n: nat, x: real) => 0.0

  function GaugeBase(g: Draws): real {
    g.pow10(Frac2(g, 1) * 6.0 - 2.0)
  }

  function RegimePeriod(g: Draws): (sweeps: nat)
    ensures 500 <= sweeps < 2500
  {
    500 + g.p.mixers.mix2(g.s.seed, 41) % 2000
  }

  function Regime(g: Draws, k: nat): nat {
    k / RegimePeriod(g)
  }

  /** The level shifts with every regime. */
  function GaugeLevel(g: Draws, regime: nat): real {
    0.6 + 0.8 * Frac3(g, regime, 42)
  }

  function WavePeriod(g: Draws): (sweeps: nat)
    ensures 60 <= sweeps < 3600
  {
    60 + g.p.mixers.mix2(g.s.seed, 2) % 3540
  }

  /** How far a gauge is off its level: a wave and some noise. */
  function GaugeSwing(g: Draws, wave: Wave, k: nat): real {
    Times(0.1 + 0.4 * Frac2(g, 3), wave(k, WavePeriod(g), Frac2(g, 4)))
    + (Frac3(g, k, 5) - 0.5) * 0.1
  }

  function GaugeRaw(swing: real, level: real, base: real): real {
    Times(1.0 + swing, Times(level, base))
  }

  /** A gauge in its texture; idle gauges sit at their base. */
  function GaugeAt(c: Texture, m: real, swing: real, level: real, base: real): real
    requires m >= 1.0
  {
    if c == Idle then Quantize(base, Decimal, 10.0) else Quantize(GaugeRaw(swing, level, base), c, m)
  }

  function GaugeValue(g: Draws, wave: Wave, k: nat): real {
    GaugeAt(SeriesTexture(g), TenTo(Decimals(g)), GaugeSwing(g, wave, k), GaugeLevel(g, Regime(g, k)), GaugeBase(g))
  }

  /** What a cumulative sum reports. */
  function CumulativeSum(g: Draws, wave: Wave, monotonic: bool, k: nat): real {
    NumberValue(g, if monotonic then CounterValue(g, k, EpochStart(g.p, g.s, k)) else GaugeValue(g, wave, k))
  }

  // Summaries

  function BaseLatency(g: Draws): (b: real)
    ensures b > 0.0
  {
    g.pow10(Frac2(g, 21) * 3.0 - 3.0)
  }

  function SummaryCount(g: Draws, k: nat, epoch: int): nat {
    MonotoneCount(g, k, epoch, EpochRate(g, epoch), 20)
  }

  function QuantileNoise(g: Draws, k: nat): (n: real)
    ensures 0.9 <= n < 1.1
  {
    if SeriesTexture(g) == Idle then 1.0 else 1.0 + 0.2 * (Frac3(g, k, 22) - 0.5)
  }

  /** Latency grows with the square of the quantile level. */
  function LatencyAt(base: real, q: real): real {
    Times(1.0 + 4.0 * Times(q, q), base)
  }

  function QuantileAt(base: real, noise: real, m: real, q: real): real
    requires m >= 1.0
  {
    Quantize(Times(LatencyAt(base, q), noise), Decimal, m)
  }

  function QuantileValue(g: Draws, k: nat, q: real): real {
    QuantileAt(BaseLatency(g), QuantileNoise(g, k), TenTo(3 + Decimals(g)), q)
  }

  method SummaryPoint(g: Draws, k: nat, epoch: int, quantiles: seq<real>, qValues: array<real>)
    returns (count: nat, sum: real)
    requires qValues.Length == |quantiles|
    modifies qValues
    ensures count == SummaryCount(g, k, epoch)
    ensures sum == Times(count as real, BaseLatency(g))
    ensures forall i :: 0 <= i < |quantiles| ==> qValues[i] == QuantileValue(g, k, quantiles[i])
  {
    var rate := EpochRate(g, epoch);
    count := MonotoneCount(g, k, epoch, rate, 20);
    var base := BaseLatency(g);
    sum := Times(count as real, base);
    var noise := QuantileNoise(g, k);
    var m := TenTo(3 + Decimals(g));
    FillQuantiles(base, noise, m, quantiles, qValues);
  }

  method FillQuantiles(base: real, noise: real, m: real, quantiles: seq<real>, qValues: array<real>)
    requires qValues.Length == |quantiles| && m >= 1.0
    modifies qValues
    ensures forall i :: 0 <= i < |quantiles| ==> qValues[i] == QuantileAt(base, noise, m, quantiles[i])
  {
    for i := 0 to |quantiles|
      invariant forall l :: 0 <= l < i ==> qValues[l] == QuantileAt(base, noise, m, quantiles[l])
    {
      qValues[i] := QuantileAt(base, noise, m, quantiles[i]);
    }
  }

  /** A summary's count and sum never decrease within an epoch. */
  lemma {:induction false} SummaryNeverDecreases(g: Draws, j: nat, k: nat)
    requires j <= k && EpochStart(g.p, g.s, j) == EpochStart(g.p, g.s, k)
    ensures var e := EpochStart(g.p, g.s, k);
      && SummaryCount(g, j, e) <= SummaryCount(g, k, e)
      && Times(SummaryCount(g, j, e) as real, BaseLatency(g)) <= Times(SummaryCount(g, k, e) as real, BaseLatency(g))
  {
    var e := EpochStart(g.p, g.s, k);
    MonotoneCountNeverDecreases(g, j, k, e, EpochRate(g, e), 20);
    TimesMonotone(SummaryCount(g, j, e) as real, SummaryCount(g, k, e) as real, BaseLatency(g));
  }

  /** Ascending quantile levels get ascending values. */
  lemma {:induction false} QuantilesOrdered(g: Draws, k: nat, q: real, q': real)
    requires 0.0 <= q <= q'
    ensures QuantileValue(g, k, q) <= QuantileValue(g, k, q')
  {
    var b, n := BaseLatency(g), QuantileNoise(g, k);
    LatencyOrder(b, q, q');
    TimesMonotone(LatencyAt(b, q), LatencyAt(b, q'), n);
    QuantizeMonotone(Times(LatencyAt(b, q), n), Times(LatencyAt(b, q'), n), Decimal, TenTo(3 + Decimals(g)));
  }

  lemma {:induction false} LatencyOrder(b: real, q: real, q': real)
    requires b > 0.0 && 0.0 <= q <= q'
    ensures LatencyAt(b, q) <= LatencyAt(b, q')
  {
    TimesMonotone(q, q', q);
    TimesMonotone(q, q', q');
    TimesCommutes(q, q');
    TimesMonotone(1.0 + 4.0 * Times(q, q), 1.0 + 4.0 * Times(q', q'), b);
  }
}
