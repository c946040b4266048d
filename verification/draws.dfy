/** What series draw: independently of each other and of one sweep from the next, and in which
    ranges. */
module DrawRanges {
  import opened Words
  import opened Sweeps
  import opened Values
  import opened Histograms

  const FRACTIONS := 9007199254740992  // 2^53

  /** The fractions there are. */
  function Fraction(n: nat): real {
    n as real / 9007199254740992.0
  }

  /** A word that is mixed to a given fraction. */
  function WordOf(n: nat): (w: Word)
    requires n < FRACTIONS
    ensures Frac(w) == Fraction(n)
  {
    n * 2048
  }

  function With(g: Draws, mixers: Mixers): Draws {
    g.(p := g.p.(mixers := mixers))
  }

  /** What is drawn once for a series: two series, or one for two purposes, may draw any two
      fractions. */
  lemma {:induction false} SeriesDrawApart(g: Draws, salt: Word, n: nat, g': Draws, salt': Word, n': nat)
    returns (chosen: Mixers)
    requires (g.s.seed, salt) != (g'.s.seed, salt') && n < FRACTIONS && n' < FRACTIONS
    ensures Frac2(With(g, chosen), salt) == Fraction(n) && Frac2(With(g', chosen), salt') == Fraction(n')
  {
    var seed, w, w' := g.s.seed, WordOf(n), WordOf(n');
    chosen := Mixers((a, b) => if a == seed && b == salt then w else w', (a, b, c) => 0);
  }

  /** What is drawn at every sweep: so may two series, two purposes, or two sweeps of one series. */
  lemma {:induction false} SweepsDrawApart(
    g: Draws, k: int, salt: Word, n: nat, g': Draws, k': int, salt': Word, n': nat) returns (chosen: Mixers)
    requires (g.s.seed, ToWord(k), salt) != (g'.s.seed, ToWord(k'), salt') && n < FRACTIONS && n' < FRACTIONS
    ensures Frac3(With(g, chosen), k, salt) == Fraction(n) && Frac3(With(g', chosen), k', salt') == Fraction(n')
  {
    var seed, sweep, w, w' := g.s.seed, ToWord(k), WordOf(n), WordOf(n');
    chosen := Mixers((a, b) => 0, (a, b, c) => if a == seed && b == sweep && c == salt then w else w');
  }

  // Rates

  /** A rate is a power of ten from a tenth to a thousand, exclusive. */
  lemma {:induction false} RatesInRange(g: Draws, epoch: int) returns (x: real, y: real)
    ensures -1.0 <= x < 3.0 && PerSweepRate(g) == g.pow10(x)
    ensures -1.0 <= y < 3.0 && EpochRate(g, epoch) == g.pow10(y)
  {
    x, y := Frac2(g, 6) * 4.0 - 1.0, Frac3(g, epoch, 6) * 4.0 - 1.0;
  }

  /** Every epoch has a rate of its own, which is that of a histogram if it is cumulative: two epochs
      may have any two, up to steps of 2^-51 in the exponent.  A delta has one rate for all. */
  lemma {:induction false} EpochRatesAreFresh(g: Draws, e: int, n: nat, e': int, n': nat) returns (chosen: Mixers)
    requires ToWord(e) != ToWord(e') && n < FRACTIONS && n' < FRACTIONS
    ensures EpochRate(With(g, chosen), e) == g.pow10(n as real / 2251799813685248.0 - 1.0)
    ensures EpochRate(With(g, chosen), e') == g.pow10(n' as real / 2251799813685248.0 - 1.0)
    ensures PointRate(With(g, chosen), true, e) == EpochRate(With(g, chosen), e)
    ensures PointRate(g, false, e) == PointRate(g, false, e') == PerSweepRate(g)
  {
    chosen := SweepsDrawApart(g, e, 6, n, g, e', 6, n');
    Quarter(n);
    Quarter(n');
  }

  lemma {:induction false} Quarter(n: nat)
    ensures Fraction(n) * 4.0 == n as real / 2251799813685248.0
  {
  }

  /** ... and so may two series of deltas. */
  lemma {:induction false} SeriesRatesAreFresh(g: Draws, n: nat, g': Draws, n': nat) returns (chosen: Mixers)
    requires g.s.seed != g'.s.seed && g.pow10 == g'.pow10 && n < FRACTIONS && n' < FRACTIONS
    ensures PerSweepRate(With(g, chosen)) == g.pow10(n as real / 2251799813685248.0 - 1.0)
    ensures PerSweepRate(With(g', chosen)) == g.pow10(n' as real / 2251799813685248.0 - 1.0)
  {
    chosen := SeriesDrawApart(g, 6, n, g', 6, n');
    Quarter(n);
    Quarter(n');
  }

  /** A counter stands at what its rate makes of its age, at most nine tenths of a sweep more, up to
      the step of its texture; an idle one counts a fiftieth of its rate. */
  lemma {:induction false} CounterCountsTheRate(g: Draws, k: nat, epoch: nat)
    requires epoch <= k
    ensures var rate, age, v := EpochRate(g, epoch), (k - epoch) as real, CounterValue(g, k, epoch);
      if SeriesTexture(g) == Idle then Times(age, rate / 50.0) - 1.0 < v <= Times(age, rate / 50.0)
      else Times(age, rate) - 1.0 < v <= Times(age + 0.9, rate) + 0.05
  {
    var rate, age, w, m := EpochRate(g, epoch), k - epoch, Frac3(g, k, 7), TenTo(Decimals(g));
    assert rate * 0.02 == rate / 50.0;
    var v := Wobbly(rate, age, w);
    WobblyFactored(rate, age, w);
    TimesMonotone(age as real, age as real + 0.9 * w, rate);
    TimesMonotone(age as real + 0.9 * w, age as real + 0.9, rate);
    TextureNear(v, SeriesTexture(g), m);
  }

  lemma {:induction false} TextureNear(v: real, c: Texture, m: real)
    requires m >= 10.0
    ensures v - 1.0 < Quantize(v, c, m) <= v + 0.05
  {
    RoundedWithin(v, m);
    RatioTimes(0.5, m);
    if Ratio(0.5, m) > 0.05 {
      TimesMonotone(0.05, Ratio(0.5, m), m);
      TimesCommutes(0.05, m);
      TimesMonotone(10.0, m, 0.05);
    }
  }

  /** The count of a summary is that of its rate, within one event. */
  lemma {:induction false} SummaryCountsTheRate(g: Draws, k: nat, epoch: nat)
    requires epoch <= k
    ensures Counts(SummaryCount(g, k, epoch), true, k - epoch, EpochRate(g, epoch))
  {
    CountShare(g, true, k, epoch, EpochRate(g, epoch), 20);
  }

  // Textures

  /** Of every hundred fractions 12 make a series idle, 38 integral, 35 decimal and 15 full; what is
      carried as integers is integral instead of the last two. */
  lemma {:induction false} TextureBands(g: Draws)
    ensures var f := 100.0 * Frac2(g, 30);
      && (SeriesTexture(g) == Idle <==> f < 12.0)
      && (SeriesTexture(g) == Integral <==> 12.0 <= f && (g.valueIsInt || f < 50.0))
      && (SeriesTexture(g) == Decimal <==> !g.valueIsInt && 50.0 <= f < 85.0)
      && (SeriesTexture(g) == Full <==> !g.valueIsInt && 85.0 <= f)
  {
  }

  // Gauges

  /** A gauge that is not idle stays between 0.27 and 2.17 times its base, before it is quantized;
      the base is a power of ten from a hundredth to ten thousand, exclusive. */
  lemma {:induction false} GaugeBand(g: Draws, wave: Wave, k: nat) returns (x: real)
    ensures -2.0 <= x < 4.0 && GaugeBase(g) == g.pow10(x)
    ensures var raw := GaugeRaw(GaugeSwing(g, wave, k), GaugeLevel(g, Regime(g, k)), GaugeBase(g));
      Times(0.27, GaugeBase(g)) <= raw <= Times(2.17, GaugeBase(g))
  {
    x := Frac2(g, 1) * 6.0 - 2.0;
    var amplitude, w := 0.1 + 0.4 * Frac2(g, 3), wave(k, WavePeriod(g), Frac2(g, 4));
    SwingWithin(amplitude, w);
    var swing, level, base := GaugeSwing(g, wave, k), GaugeLevel(g, Regime(g, k)), GaugeBase(g);
    TimesMonotone(0.6, level, base);
    TimesMonotone(level, 1.4, base);
    var low, high, mid := Times(0.6, base), Times(1.4, base), Times(level, base);
    TimesSign(0.6, base);
    TimesMonotone(0.45, 1.0 + swing, mid);
    TimesMonotone(1.0 + swing, 1.55, mid);
    Scaled(0.45, 0.6, base);
    Scaled(1.55, 1.4, base);
  }

  lemma {:induction false} SwingWithin(amplitude: real, w: real)
    requires 0.0 <= amplitude <= 0.5 && -1.0 <= w <= 1.0
    ensures -0.5 <= Times(amplitude, w) <= 0.5
  {
    TimesCommutes(amplitude, w);
    TimesMonotone(-1.0, w, amplitude);
    TimesMonotone(w, 1.0, amplitude);
  }

  lemma {:induction false} Scaled(a: real, b: real, base: real)
    ensures Times(a, Times(b, base)) == Times(a * b, base)
  {
  }

  /** Its level holds for a whole regime of at least 500 sweeps. */
  lemma {:induction false} RegimeHolds(g: Draws, regime: nat, d: nat)
    requires d < RegimePeriod(g)
    ensures Regime(g, regime * RegimePeriod(g) + d) == regime && RegimePeriod(g) >= 500
    ensures GaugeLevel(g, Regime(g, regime * RegimePeriod(g) + d)) == GaugeLevel(g, regime)
  {
    QuotientIs(regime * RegimePeriod(g) + d, RegimePeriod(g), regime, d);
  }

  /** Apart from a noise of at most a twentieth, its swing repeats with the period of its wave. */
  lemma {:induction false} SwingRepeats(g: Draws, wave: Wave, k: nat)
    requires forall k: nat, n: nat, x :: n > 0 ==> wave(k + n, n, x) == wave(k, n, x)
    ensures -0.1 < GaugeSwing(g, wave, k + WavePeriod(g)) - GaugeSwing(g, wave, k) < 0.1
    ensures 60 <= WavePeriod(g) < 3600
  {
  }

  // Summaries

  /** The lowest quantile is about the base latency, the median about twice, the highest about five
      times that: a tenth more or less, and a rounding step. */
  lemma {:induction false} QuantileBand(g: Draws, k: nat) returns (step: real)
    ensures 0.0 < step <= 0.00005
    ensures var b := BaseLatency(g);
      && 0.9 * b - step <= QuantileValue(g, k, 0.0) <= 1.1 * b + step
      && 1.8 * b - step <= QuantileValue(g, k, 0.5) <= 2.2 * b + step
      && 4.5 * b - step <= QuantileValue(g, k, 1.0) <= 5.5 * b + step
  {
    var m := TenTo(3 + Decimals(g));
    step := Ratio(0.5, m);
    assert TenTo(1 + Decimals(g)) >= 100.0 && TenTo(2 + Decimals(g)) == 10.0 * TenTo(1 + Decimals(g));
    HalfStep(m);
    assert LatencyAt(BaseLatency(g), 0.0) == BaseLatency(g);
    assert LatencyAt(BaseLatency(g), 0.5) == 2.0 * BaseLatency(g);
    assert LatencyAt(BaseLatency(g), 1.0) == 5.0 * BaseLatency(g);
    QuantileNear(BaseLatency(g), QuantileNoise(g, k), m);
    QuantileNear(2.0 * BaseLatency(g), QuantileNoise(g, k), m);
    QuantileNear(5.0 * BaseLatency(g), QuantileNoise(g, k), m);
  }

  lemma {:induction false} HalfStep(m: real)
    requires m >= 10000.0
    ensures 0.0 < Ratio(0.5, m) <= 0.00005
  {
    RatioTimes(0.5, m);
    if Ratio(0.5, m) > 0.00005 {
      TimesMonotone(0.00005, Ratio(0.5, m), m);
      TimesCommutes(0.00005, m);
      TimesMonotone(10000.0, m, 0.00005);
    }
    RatioMonotone(0.0, 0.5, m);
  }

  lemma {:induction false} QuantileNear(latency: real, noise: real, m: real)
    requires latency > 0.0 && 0.9 <= noise <= 1.1 && m >= 1.0
    ensures var v := Quantize(Times(latency, noise), Decimal, m);
      0.9 * latency - Ratio(0.5, m) <= v <= 1.1 * latency + Ratio(0.5, m)
  {
    TimesCommutes(latency, noise);
    TimesMonotone(0.9, noise, latency);
    TimesMonotone(noise, 1.1, latency);
    RoundedWithin(Times(latency, noise), m);
  }

  lemma {:induction false} RoundedWithin(v: real, m: real)
    requires m >= 1.0
    ensures v - Ratio(0.5, m) <= RoundTo(v, m) <= v + Ratio(0.5, m)
  {
    var x := Times(v, m);
    RatioMonotone(x - 0.5, Round(x) as real, m);
    RatioMonotone(Round(x) as real, x + 0.5, m);
    RatioSum(x, 0.5, m);
    RatioSum(x - 0.5, 0.5, m);
    assert x - 0.5 + 0.5 == x;
    TimesRatio(v, m);
  }

  lemma {:induction false} TimesRatio(v: real, m: real)
    requires m > 0.0
    ensures Ratio(Times(v, m), m) == v
  {
  }

  // Exponential histograms

  /** A series starts its buckets at any of 40 exponents and keeps any number of them from 8 to 32. */
  lemma {:induction false} ExpShapesReached(g: Draws, hasNegative: bool, start: nat, n: nat) returns (chosen: Mixers)
    requires start < 40 && 8 <= n <= 32
    ensures ExpOffset(With(g, chosen)) == EXP_POW_MIN + start
    ensures ExpBucketLens(With(g, chosen), hasNegative) == (n, if hasNegative then n / 2 else 0)
  {
    chosen := Mixers((a, salt) => if salt == 13 then start else if salt == 18 then n - 8 else 0, (a, b, c) => 0);
    QuotientIs(start, 40, 0, start);
    QuotientIs(n - 8, 25, 0, n - 8);
    QuotientIs(0, 3, 0, 0);
  }

  /** The positive buckets share the rate, the negative ones a tenth of it, and the zero bucket gets
      a hundredth, if there is one. */
  lemma {:induction false} ExpSharesOfRate(
    g: Draws, cumulative: bool, k: nat, epoch: nat, shape: HistShape, n: nat, l: nat)
    requires Positive(shape.weights) && epoch <= k && l < n
    ensures var rate, w := PointRate(g, cumulative, epoch), shape.weights[l % |shape.weights|];
      && Counts(PosCounts(g, cumulative, k, epoch, shape, n)[l], cumulative, k - epoch, Times(w, rate))
      && Counts(NegCounts(g, cumulative, k, epoch, shape, n)[l], cumulative, k - epoch, Times(w, rate / 10.0))
      && (HasZeroBucket(g) ==> Counts(ZeroCount(g, cumulative, k, epoch), cumulative, k - epoch, rate / 100.0))
      && (!HasZeroBucket(g) ==> ZeroCount(g, cumulative, k, epoch) == 0)
  {
    var rate := PointRate(g, cumulative, epoch);
    BucketShare(g, cumulative, k, epoch, rate, shape.weights, 64, l);
    BucketShare(g, cumulative, k, epoch, NegRate(g, cumulative, epoch), shape.weights, 128, l);
    CountShare(g, cumulative, k, epoch, ZeroRate(g, cumulative, epoch), 192);
  }

  /** A count is what a rate makes of an age, rounded down, and at most nine tenths of a sweep more;
      or of half to one and a half sweeps for a delta. */
  ghost predicate Counts(count: nat, cumulative: bool, age: nat, rate: real) {
    Times(LeastSweeps(cumulative, age), rate) - 1.0 < count as real <= Times(MostSweeps(cumulative, age), rate)
  }
}
