/** Where cumulative values grow strictly within an epoch, and where they only never decrease.

    A reading is an integer, or a rounded multiple of one, more often than not, and then it
    grows strictly only if a sweep's worth of events outweighs the wobble by a whole step. */
module Strictness {
  import opened Words
  import opened Sweeps
  import opened Values
  import opened Histograms
  import opened Readings

  // Counters at one rate

  const TOP: Word := LIMIT - 1

  /** Whether a counter of one texture and one rate grows from each sweep of an epoch to every
      later one, whatever it draws. */
  ghost predicate StrictAt(c: Texture, m: real, rate: real)
    requires m >= 1.0
  {
    forall age: nat, age': nat, h: Word, h': Word ::
      age < age' ==> CounterAt(c, m, rate, age, Frac(h)) < CounterAt(c, m, rate, age', Frac(h'))
  }

  /** The worst that can happen between two sweeps: the largest wobble, then none. */
  predicate WorstStepGrows(c: Texture, m: real, rate: real, age: nat)
    requires m >= 1.0
  {
    CounterAt(c, m, rate, age, Frac(TOP)) < CounterAt(c, m, rate, age + 1, 0.0)
  }

  lemma {:induction false} FracBelowTop(h: Word)
    ensures 0.0 == Frac(0) <= Frac(h) <= Frac(TOP) < 1.0 && Frac(TOP) > 0.9
  {
    assert h / 2048 <= TOP / 2048 == 9007199254740991;
  }

  lemma {:induction false} CounterAtOrder(c: Texture, m: real, rate: real, age: int, w: real, age': int, w': real)
    requires m >= 1.0 && rate > 0.0 && 0.0 <= w < 1.0 && 0.0 <= w' < 1.0
    requires age < age' || (age == age' && w <= w')
    ensures CounterAt(c, m, rate, age, w) <= CounterAt(c, m, rate, age', w')
  {
    if age < age' {
      CounterAtMonotone(c, m, rate, age, w, age', w');
    } else if c != Idle {
      WobblyFactored(rate, age, w);
      WobblyFactored(rate, age', w');
      TimesMonotone(age as real + 0.9 * w, age' as real + 0.9 * w', rate);
      QuantizeMonotone(Wobbly(rate, age, w), Wobbly(rate, age', w'), c, m);
    }
  }

  /** Only the worst step between neighbouring sweeps matters. */
  lemma {:induction false} StrictAtIffWorst(c: Texture, m: real, rate: real)
    requires m >= 1.0 && rate > 0.0
    ensures StrictAt(c, m, rate) <==> forall age: nat :: WorstStepGrows(c, m, rate, age)
  {
    FracBelowTop(0);
    if StrictAt(c, m, rate) {
      forall age: nat
        ensures WorstStepGrows(c, m, rate, age)
      {
        assert CounterAt(c, m, rate, age, Frac(TOP)) < CounterAt(c, m, rate, age + 1, Frac(0));
      }
    }
    if forall age: nat :: WorstStepGrows(c, m, rate, age) {
      forall age: nat, age': nat, h: Word, h': Word | age < age'
        ensures CounterAt(c, m, rate, age, Frac(h)) < CounterAt(c, m, rate, age', Frac(h'))
      {
        FracBelowTop(h);
        FracBelowTop(h');
        CounterAtOrder(c, m, rate, age, Frac(h), age, Frac(TOP));
        assert WorstStepGrows(c, m, rate, age);
        CounterAtOrder(c, m, rate, age + 1, 0.0, age', Frac(h'));
      }
    }
  }

  // Counters in steps

  /** How many steps of its texture a counter takes per sweep on average. */
  function StepRate(c: Texture, m: real, rate: real): real {
    match c
    case Idle => rate * 0.02
    case Decimal => Times(rate, m)
    case _ => rate
  }

  /** What no wobble reaches of one sweep's worth: a tenth, and what the largest draw leaves. */
  function Clear(): (share: real)
    ensures 0.1 < share < 0.2
  {
    FracBelowTop(0);
    1.0 - 0.9 * Frac(TOP)
  }

  /** Where rounding cuts: whole numbers are cut off, decimals rounded at the half. */
  function Cut(c: Texture): real {
    if c == Decimal then 0.5 else 0.0
  }

  function FractionOf(x: real): real {
    x - x.Floor as real
  }

  /** A counter in steps, x being what it has counted. */
  lemma {:induction false} InSteps(c: Texture, m: real, rate: real, age: nat, w: real)
    requires m >= 1.0 && rate > 0.0 && (c == Integral || c == Decimal) && 0.0 <= w < 1.0
    ensures var steps := (Times(age as real + 0.9 * w, StepRate(c, m, rate)) + Cut(c)).Floor;
      CounterAt(c, m, rate, age, w) == if c == Integral then steps as real else Ratio(steps as real, m)
  {
    var x := age as real + 0.9 * w;
    WobblyFactored(rate, age, w);
    if c == Decimal {
      TimesAssociate(x, rate, m);
      TimesSign(rate, m);
      TimesSign(x, Times(rate, m));
    }
  }

  lemma {:induction false} TimesAssociate(x: real, y: real, z: real)
    ensures Times(Times(x, y), z) == Times(x, Times(y, z))
  {
  }

  lemma {:induction false} FloorDrops(y: real, clear: real)
    requires clear > 0.0
    ensures (y - clear).Floor < y.Floor <==> FractionOf(y) < clear
  {
  }

  lemma {:induction false} RatioTells(x: real, y: real, m: real)
    requires m > 0.0
    ensures Ratio(x, m) < Ratio(y, m) <==> x < y
  {
    RatioMonotone(if x < y then x else y, if x < y then y else x, m);
  }

  /** A step between neighbouring sweeps is safe exactly if, counted in steps, the later sweep
      lies less than the clear share of the rate above a cut. */
  lemma {:induction false} WorstStepIff(c: Texture, m: real, rate: real, age: nat)
    requires m >= 1.0 && rate > 0.0 && (c == Integral || c == Decimal)
    ensures WorstStepGrows(c, m, rate, age) <==>
      FractionOf(Times((age + 1) as real, StepRate(c, m, rate)) + Cut(c)) < Times(Clear(), StepRate(c, m, rate))
  {
    var s := StepRate(c, m, rate);
    FracBelowTop(0);
    InSteps(c, m, rate, age, Frac(TOP));
    InSteps(c, m, rate, age + 1, 0.0);
    TimesSign(rate, m);
    TimesSign(Clear(), s);
    var x := age as real + 0.9 * Frac(TOP);
    TimesSum(x, Clear(), s);
    assert x + Clear() == (age + 1) as real;
    var a, b := (Times(x, s) + Cut(c)).Floor, (Times((age + 1) as real, s) + Cut(c)).Floor;
    FloorDrops(Times((age + 1) as real, s) + Cut(c), Times(Clear(), s));
    RatioTells(a as real, b as real, m);
  }

  /** After n sweeps, counted in steps, the expected value is less than the clear share above a
      cut. */
  ghost predicate SafeAt(c: Texture, m: real, rate: real, n: nat) {
    FractionOf(Times(n as real, StepRate(c, m, rate)) + Cut(c)) < Times(Clear(), StepRate(c, m, rate))
  }

  /** Exactly which rates make a counter strict.  Full precision always is and idle counters
      are from 50 events a sweep; the others are if and only if no sweep's expected value lies
      the clear share or more above a cut. */
  lemma {:induction false} StrictAtIff(c: Texture, m: real, rate: real)
    requires m >= 1.0 && rate > 0.0
    ensures c == Full ==> StrictAt(c, m, rate)
    ensures c == Idle ==> (StrictAt(c, m, rate) <==> rate >= 50.0)
    ensures c == Integral || c == Decimal ==>
      (StrictAt(c, m, rate) <==> forall n: nat :: n >= 1 ==> SafeAt(c, m, rate, n))
  {
    StrictAtIffWorst(c, m, rate);
    match c
    case Full => FullIsStrict(m, rate);
    case Idle => IdleStrictIff(m, rate);
    case _ => StepsStrictIff(c, m, rate);
  }

  lemma {:induction false} FullIsStrict(m: real, rate: real)
    requires m >= 1.0 && rate > 0.0
    ensures forall age: nat :: WorstStepGrows(Full, m, rate, age)
  {
    FracBelowTop(0);
    forall age: nat
      ensures WorstStepGrows(Full, m, rate, age)
    {
      WobblyIncreases(rate, age, Frac(TOP), age + 1, 0.0);
    }
  }

  lemma {:induction false} StepsStrictIff(c: Texture, m: real, rate: real)
    requires m >= 1.0 && rate > 0.0 && (c == Integral || c == Decimal)
    ensures (forall age: nat :: WorstStepGrows(c, m, rate, age)) <==> forall n: nat :: n >= 1 ==> SafeAt(c, m, rate, n)
  {
    if forall age: nat :: WorstStepGrows(c, m, rate, age) {
      forall n: nat | n >= 1
        ensures SafeAt(c, m, rate, n)
      {
        assert WorstStepGrows(c, m, rate, n - 1);
        WorstStepIff(c, m, rate, n - 1);
      }
    }
    if forall n: nat :: n >= 1 ==> SafeAt(c, m, rate, n) {
      forall age: nat
        ensures WorstStepGrows(c, m, rate, age)
      {
        assert SafeAt(c, m, rate, age + 1);
        WorstStepIff(c, m, rate, age);
      }
    }
  }

  lemma {:induction false} IdleStrictIff(m: real, rate: real)
    requires m >= 1.0 && rate > 0.0
    ensures (forall age: nat :: WorstStepGrows(Idle, m, rate, age)) <==> rate >= 50.0
  {
    var s := rate * 0.02;
    if rate >= 50.0 {
      forall age: nat
        ensures WorstStepGrows(Idle, m, rate, age)
      {
        TimesSum(age as real, 1.0, s);
        FloorMonotone(Times(age as real, s), Times((age + 1) as real, s));
      }
    } else {
      var age := IdleStalls(rate);
      assert !WorstStepGrows(Idle, m, rate, age);
    }
  }

  lemma {:induction false} IdleStalls(rate: real) returns (age: nat)
    requires 0.0 < rate < 50.0
    ensures IdleAt(rate, age + 1) <= IdleAt(rate, age)
  {
    var n := Overtaking(rate * 0.02);
    assert Times(0 as real, rate * 0.02) == 0.0;
    age := Stalls((age: nat) => IdleAt(rate, age), n);
  }

  /** Integers that have grown by less than one a step did not grow at some step. */
  lemma {:induction false} Stalls(f: nat -> int, n: nat) returns (i: nat)
    requires f(n) < f(0) + n
    ensures i < n && f(i + 1) <= f(i)
  {
    if f(n) <= f(n - 1) {
      i := n - 1;
    } else {
      i := Stalls(f, n - 1);
    }
  }

  /** A slope below 1 falls behind by any amount sooner or later. */
  lemma {:induction false} Overtaking(s: real) returns (n: nat)
    requires s < 1.0
    ensures Times(n as real, s) < n as real - 1.0
  {
    var gap := 1.0 - s;
    RatioTimes(1.0, gap);
    n := if s <= 0.0 then 2 else Ratio(1.0, gap).Floor + 2;
    TimesMonotone(Ratio(1.0, gap), n as real, gap);
    TimesCommutes(n as real, s);
    TimesCommutes(n as real, gap);
    TimesSum(s, gap, n as real);
  }

  /** Ten steps a sweep are always enough to be strict, and less than one never is. */
  lemma {:induction false} StrictThresholds(c: Texture, m: real, rate: real)
    requires m >= 1.0 && rate > 0.0 && (c == Integral || c == Decimal)
    ensures StepRate(c, m, rate) >= 10.0 ==> StrictAt(c, m, rate)
    ensures StepRate(c, m, rate) < 1.0 ==> !StrictAt(c, m, rate)
  {
    StrictAtIff(c, m, rate);
    var s := StepRate(c, m, rate);
    if s >= 10.0 {
      TimesMonotone(10.0, s, Clear());
      TimesCommutes(s, Clear());
      assert forall n: nat :: n >= 1 ==> SafeAt(c, m, rate, n);
    } else if s < 1.0 {
      var n := StepsStall(c, m, rate);
      assert !SafeAt(c, m, rate, n);
    }
  }

  /** At less than a step a sweep the steps cannot grow at every sweep, so some expected value is
      not even one rate above a cut. */
  lemma {:induction false} StepsStall(c: Texture, m: real, rate: real) returns (n: nat)
    requires m >= 1.0 && rate > 0.0 && (c == Integral || c == Decimal) && StepRate(c, m, rate) < 1.0
    ensures n >= 1 && !SafeAt(c, m, rate, n)
  {
    var s := StepRate(c, m, rate);
    TimesSign(rate, m);
    var m' := Overtaking(s);
    assert Times(0 as real, s) == 0.0;
    var i := Stalls((age: nat) => StepsAt(s, Cut(c), age), m');
    n := i + 1;
    TimesSum(i as real, 1.0, s);
    var y := Times(n as real, s) + Cut(c);
    FloorDrops(y, s);
    TimesMonotone(Clear(), 1.0, s);
  }

  function StepsAt(s: real, cut: real, age: nat): int {
    (Times(age as real, s) + cut).Floor
  }

  /** Counts are whole counters, so the same rates make them strict. */
  lemma {:induction false} CountIsCounter(g: Draws, k: nat, epoch: int, rate: real, salt: Word)
    requires epoch <= k && rate > 0.0
    ensures MonotoneCount(g, k, epoch, rate, salt) as real ==
      CounterAt(Integral, 1.0, rate, k - epoch, Frac3(g, k, salt))
  {
    WobblyFactored(rate, k - epoch, Frac3(g, k, salt));
    TimesSign((k - epoch) as real + 0.9 * Frac3(g, k, salt), rate);
  }

  // Counters at all rates

  ghost predicate AlwaysStrict(c: Texture, m: real)
    requires m >= 1.0
  {
    forall rate: real :: rate >= 0.1 ==> StrictAt(c, m, rate)
  }

  predicate Precise(c: Texture, decimals: nat) {
    c == Full || (c == Decimal && decimals >= 2)
  }

  /** Counters are strict at all the rates there are if and only if they carry full precision or
      at least two decimals. */
  lemma {:induction false} StrictIncreaseIff(c: Texture, decimals: nat)
    requires 1 <= decimals <= 6
    ensures AlwaysStrict(c, TenTo(decimals)) <==> Precise(c, decimals)
  {
    if Precise(c, decimals) {
      PreciseIsStrict(c, TenTo(decimals));
    } else {
      assert decimals == 1 ==> TenTo(decimals) == 10.0;
      SlowestIsNotStrict(c, TenTo(decimals));
    }
  }

  lemma {:induction false} PreciseIsStrict(c: Texture, m: real)
    requires m >= 1.0 && (c == Full || (c == Decimal && m >= 100.0))
    ensures AlwaysStrict(c, m)
  {
    forall rate: real | rate >= 0.1
      ensures StrictAt(c, m, rate)
    {
      if c == Full {
        StrictAtIff(c, m, rate);
      } else {
        TimesMonotone(0.1, rate, m);
        StrictThresholds(c, m, rate);
      }
    }
  }

  lemma {:induction false} SlowestIsNotStrict(c: Texture, m: real)
    requires c != Full && m >= 1.0 && (c == Decimal ==> m == 10.0)
    ensures !StrictAt(c, m, 0.1) && !AlwaysStrict(c, m)
  {
    match c
    case Idle => StrictAtIff(c, m, 0.1);
    case Integral => StrictThresholds(c, m, 0.1);
    case Decimal => TenthIsNotStrict();
    case Full =>
  }

  /** A tenth rounded up from three quarters of the wobble, and a tenth counted. */
  lemma {:induction false} TenthStandsStill()
    ensures CounterAt(Decimal, 10.0, 0.1, 0, 0.75) == CounterAt(Decimal, 10.0, 0.1, 1, 0.0)
  {
    InSteps(Decimal, 10.0, 0.1, 0, 0.75);
    InSteps(Decimal, 10.0, 0.1, 1, 0.0);
  }

  lemma {:induction false} TenthIsNotStrict()
    ensures !StrictAt(Decimal, 10.0, 0.1)
  {
    TenthStandsStill();
    FracBelowTop(0);
    assert Frac(THREE_QUARTERS) == 0.75;
    assert CounterAt(Decimal, 10.0, 0.1, 0, Frac(THREE_QUARTERS)) >= CounterAt(Decimal, 10.0, 0.1, 1, Frac(0));
  }

  // A series that stands still

  /** A word whose fraction makes a series take a texture. */
  function TextureWord(c: Texture): Word {
    match c
    case Idle => 0
    case Integral => 0x4000_0000_0000_0000
    case Decimal => 0xC000_0000_0000_0000
    case Full => 0xF000_0000_0000_0000
  }

  const THREE_QUARTERS: Word := 0xC000_0000_0000_0000

  /** A series without churn that takes a given texture, and otherwise draws nothing but 0; but
      for its first wobble. */
  function StillSeries(c: Texture, decimals: nat, pow10: PowTen): Draws
    requires 1 <= decimals <= 3
  {
    var mix2 := (a: Word, b: Word) => (if b == 30 then TextureWord(c) else if b == 31 then decimals - 1 else 0) as Word;
    var mix3 := (a: Word, k: Word, salt: Word) => (if k == 0 && salt == 7 then THREE_QUARTERS else 0) as Word;
    Draws(Plan(Mixers(mix2, mix3), 0, 1000, 0, true, 0), Series(0, 0), pow10, false)
  }

  lemma {:induction false} StillTexture(c: Texture, decimals: nat, pow10: PowTen)
    requires 1 <= decimals <= 3
    ensures var g := StillSeries(c, decimals, pow10);
      SeriesTexture(g) == c && Decimals(g) == decimals
  {
    var g := StillSeries(c, decimals, pow10);
    assert g.p.mixers.mix2(0, 30) == TextureWord(c) && g.p.mixers.mix2(0, 31) == decimals - 1;
    TextureOf(c);
  }

  lemma {:induction false} TextureOf(c: Texture)
    ensures Frac(TextureWord(c)) ==
      if c == Idle then 0.0 else if c == Integral then 0.25 else if c == Decimal then 0.75 else 0.9375
  {
  }

  lemma {:induction false} StillEpoch(c: Texture, decimals: nat, pow10: PowTen)
    requires 1 <= decimals <= 3
    ensures var g := StillSeries(c, decimals, pow10);
      EpochStart(g.p, g.s, 0) == EpochStart(g.p, g.s, 1) == 0
  {
    var g := StillSeries(c, decimals, pow10);
    QuietEpoch(g.p, g.s, 1);
  }

  /** Without churn and reset phase the first epoch lasts 2000 sweeps at least. */
  lemma {:induction false} QuietEpoch(p: Plan, s: Series, k: nat)
    requires p.lifetime == 0 && p.mixers.mix2(s.seed, 9) == 0 && k < 2000
    ensures EpochStart(p, s, 0) == EpochStart(p, s, k) == 0
  {
    QuotientIs(0, ResetPeriod(p, s), 0, 0);
    QuotientIs(k, ResetPeriod(p, s), 0, k);
  }

  lemma {:induction false} StillRate(c: Texture, decimals: nat, pow10: PowTen)
    requires 1 <= decimals <= 3
    ensures var g := StillSeries(c, decimals, pow10);
      EpochRate(g, 0) == pow10(-1.0) && Frac3(g, 0, 7) == 0.75 && Frac3(g, 1, 7) == 0.0
  {
    var g := StillSeries(c, decimals, pow10);
    assert ToWord(0) == 0 && ToWord(1) == 1;
    assert Frac(0) == 0.0 && Frac(THREE_QUARTERS) == 0.75;
    assert Frac3(g, 0, 6) == 0.0;
  }

  /** What makes a series stand still at first: the least rate, and wobbles that do not help. */
  ghost predicate Still(g: Draws) {
    && EpochRate(g, 0) == 0.1 && Frac3(g, 0, 7) == 0.75 && Frac3(g, 1, 7) == 0.0
    && EpochStart(g.p, g.s, 0) == EpochStart(g.p, g.s, 1) == 0
  }

  lemma {:induction false} StillSeriesIsStill(c: Texture, decimals: nat, pow10: PowTen)
    requires 1 <= decimals <= 3 && pow10(-1.0) == 0.1
    ensures Still(StillSeries(c, decimals, pow10))
  {
    StillEpoch(c, decimals, pow10);
    StillRate(c, decimals, pow10);
  }

  /** Its counter does not move from sweep 0 to sweep 1, unless it is precise enough. */
  lemma {:induction false} CounterStandsStill(g: Draws)
    ensures Still(g) && !Precise(SeriesTexture(g), Decimals(g)) ==> CounterValue(g, 0, 0) == CounterValue(g, 1, 0)
  {
    var c, m := SeriesTexture(g), TenTo(Decimals(g));
    match c
    case Idle => IdleAtFirst();
    case Integral => WholeAtFirst(m);
    case Decimal =>
      TenthStandsStill();
      assert Decimals(g) == 1 ==> m == 10.0;
    case Full =>
  }

  lemma {:induction false} IdleAtFirst()
    ensures IdleAt(0.1, 0) == IdleAt(0.1, 1) == 0
  {
  }

  lemma {:induction false} WholeAtFirst(m: real)
    requires m >= 1.0
    ensures CounterAt(Integral, m, 0.1, 0, 0.75) == CounterAt(Integral, m, 0.1, 1, 0.0) == 0.0
  {
    InSteps(Integral, m, 0.1, 0, 0.75);
    InSteps(Integral, m, 0.1, 1, 0.0);
  }

  /** A count at a tenth of an event per sweep or less is 0 at first. */
  lemma {:induction false} SlowCount(g: Draws, k: nat, rate: real, salt: Word)
    requires k <= 1 && 0.0 <= rate <= 0.1
    ensures MonotoneCount(g, k, 0, rate, salt) == 0
  {
    var x := k as real + 0.9 * Frac3(g, k, salt);
    WobblyFactored(rate, k, Frac3(g, k, salt));
    TimesSign(x, rate);
    TimesMonotone(x, 2.0, rate);
    TimesMonotone(rate, 0.1, 2.0);
    TimesCommutes(2.0, rate);
  }

  lemma {:induction false} SummaryStandsStill(g: Draws)
    requires Still(g)
    ensures SummaryCount(g, 0, 0) == SummaryCount(g, 1, 0) == 0
  {
    SlowCount(g, 0, 0.1, 20);
    SlowCount(g, 1, 0.1, 20);
  }

  lemma {:induction false} PartBelowSum(s: seq<real>, l: nat)
    requires l < |s| && forall i :: 0 <= i < |s| ==> s[i] > 0.0
    ensures s[l] <= RealSum(s)
  {
    var front := s[..|s| - 1];
    PositiveSum(front);
    if l < |front| {
      PartBelowSum(front, l);
    }
  }

  function NoCounts(n: nat): (counts: seq<nat>)
    ensures |counts| == n && forall l :: 0 <= l < n ==> counts[l] == 0
  {
    seq(n, _ => 0)
  }

  /** All buckets of a shape are 0 at first, at a tenth of an event per sweep or less. */
  lemma {:induction false} SlowBuckets(g: Draws, k: nat, rate: real, shape: HistShape, buckets: nat, salt: nat, n: nat)
    requires k <= 1 && 0.0 <= rate <= 0.1 && shape.Valid(buckets)
    ensures BucketCounts(g, true, k, 0, rate, shape.weights, salt, n) == NoCounts(n)
  {
    forall l: nat | l < n
      ensures BucketAt(g, true, k, 0, rate, shape.weights, salt, l) == 0
    {
      var w := shape.weights[l % |shape.weights|];
      PartBelowSum(shape.weights, l % |shape.weights|);
      TimesSign(w, rate);
      TimesMonotone(w, 1.0, rate);
      SlowCount(g, k, Times(w, rate), ToWord(l + salt));
    }
  }

  lemma {:induction false} ExplicitStandsStill(g: Draws, i: Instrument)
    requires i.Explicit? && i.Valid()
    ensures Still(g) ==> ReadingAt(g, i, 0) == ReadingAt(g, i, 1)
  {
    if Still(g) {
      SlowBuckets(g, 0, 0.1, i.shape, |i.bounds| + 1, 16, |i.shape.weights|);
      SlowBuckets(g, 1, 0.1, i.shape, |i.bounds| + 1, 16, |i.shape.weights|);
    }
  }

  lemma {:induction false} SlowSides(g: Draws, k: nat, hasNegative: bool, shape: HistShape)
    requires Still(g) && k <= 1 && shape.Valid(32)
    ensures var lens := ExpBucketLens(g, hasNegative);
      && PosCounts(g, true, k, 0, shape, lens.0) == NoCounts(lens.0)
      && NegCounts(g, true, k, 0, shape, lens.1) == NoCounts(lens.1)
      && ZeroCount(g, true, k, 0) == 0
  {
    var lens := ExpBucketLens(g, hasNegative);
    assert NegRate(g, true, 0) == 0.1 * 0.1 && ZeroRate(g, true, 0) == 0.1 * 0.01;
    SlowBuckets(g, k, 0.1, shape, 32, 64, lens.0);
    SlowBuckets(g, k, NegRate(g, true, 0), shape, 32, 128, lens.1);
    SlowCount(g, k, ZeroRate(g, true, 0), 192);
  }

  lemma {:induction false} ExponentialStandsStill(g: Draws, i: Instrument)
    requires i.Exponential? && i.Valid()
    ensures Still(g) ==> ReadingAt(g, i, 0) == ReadingAt(g, i, 1)
  {
    if Still(g) {
      SlowSides(g, 0, i.hasNegative, i.shape);
      SlowSides(g, 1, i.hasNegative, i.shape);
      SameSides(g, i, 0, 1);
    }
  }

  lemma {:induction false} SameSides(g: Draws, i: Instrument, j: nat, k: nat)
    requires i.Exponential? && i.Valid() && EpochStart(g.p, g.s, j) == EpochStart(g.p, g.s, k)
    requires var e, lens := EpochStart(g.p, g.s, k), ExpBucketLens(g, i.hasNegative);
      && PosCounts(g, true, j, e, i.shape, lens.0) == PosCounts(g, true, k, e, i.shape, lens.0)
      && NegCounts(g, true, j, e, i.shape, lens.1) == NegCounts(g, true, k, e, i.shape, lens.1)
      && ZeroCount(g, true, j, e) == ZeroCount(g, true, k, e)
    ensures ReadingAt(g, i, j) == ReadingAt(g, i, k)
  {
  }

  /** The series in numbers: at the least rate there is, its counter does not move from sweep 0 to
      sweep 1 of its first epoch unless it is precise, and its summary counts nothing. */
  lemma {:induction false} StillSeriesStands(c: Texture, decimals: nat, pow10: PowTen)
    requires 1 <= decimals <= 3 && pow10(-1.0) == 0.1
    ensures var g := StillSeries(c, decimals, pow10);
      && EpochStart(g.p, g.s, 0) == EpochStart(g.p, g.s, 1) == 0
      && (!Precise(c, decimals) ==> CounterValue(g, 0, 0) == CounterValue(g, 1, 0))
      && SummaryCount(g, 0, 0) == SummaryCount(g, 1, 0) == 0
  {
    var g := StillSeries(c, decimals, pow10);
    StillTexture(c, decimals, pow10);
    StillSeriesIsStill(c, decimals, pow10);
    SummaryStandsStill(g);
    if !Precise(c, decimals) {
      CounterStandsStill(g);
    }
  }

  // All that accumulates

  /** Whether readings of an instrument grow from each sweep of an epoch to every later one, for
      all series of one texture and number of decimals. */
  ghost predicate AlwaysGrows(i: Instrument, c: Texture, decimals: nat, pow10: PowTen)
    requires i.Valid()
  {
    forall g: Draws, j: nat, k: nat ::
      g.pow10 == pow10 && HasPrecision(g, c, decimals) && j < k && OneEpoch(g, j, k) ==>
        ReadingTrend(g, i, j, k) == Ahead
  }

  predicate HasPrecision(g: Draws, c: Texture, decimals: nat) {
    SeriesTexture(g) == c && Decimals(g) == decimals
  }

  predicate OneEpoch(g: Draws, j: nat, k: nat) {
    j <= k && EpochStart(g.p, g.s, j) == EpochStart(g.p, g.s, k)
  }

  /** How a later value stands to an earlier one. */
  datatype Trend = Ahead | Level | Behind

  ghost function ReadingTrend(g: Draws, i: Instrument, j: nat, k: nat): Trend
    requires i.Valid()
  {
    if ReadingAt(g, i, j) == ReadingAt(g, i, k) then Level
    else if Contains(ReadingAt(g, i, j), ReadingAt(g, i, k)) then Ahead
    else Behind
  }

  /** Strictly monotonic within an epoch: that holds if and only if the instrument is a counter
      that carries full precision or at least two decimals.  Other counters can stand still, and
      so can every histogram and every summary, whatever the precision of its series. */
  lemma {:induction false} GrowsIff(i: Instrument, c: Texture, decimals: nat, pow10: PowTen)
    requires i.Valid() && 1 <= decimals <= 3 && pow10(-1.0) == 0.1
    ensures AlwaysGrows(i, c, decimals, pow10) <==> i.Counter? && Precise(c, decimals)
  {
    if i.Counter? && Precise(c, decimals) {
      PreciseCountersGrow(c, decimals, pow10);
    } else {
      var g := StillSeries(c, decimals, pow10);
      StillTexture(c, decimals, pow10);
      StillSeriesIsStill(c, decimals, pow10);
      StandsStill(g, i);
      OneThatStands(g, i);
    }
  }

  lemma {:induction false} PreciseCountersGrow(c: Texture, decimals: nat, pow10: PowTen)
    requires Precise(c, decimals)
    ensures AlwaysGrows(Counter, c, decimals, pow10)
  {
    forall g: Draws, j: nat, k: nat |
      g.pow10 == pow10 && HasPrecision(g, c, decimals) && j < k && OneEpoch(g, j, k)
      ensures ReadingTrend(g, Counter, j, k) == Ahead
    {
      CounterReadingGrows(g, c, decimals, j, k);
    }
  }

  lemma {:induction false} CounterReadingGrows(g: Draws, c: Texture, decimals: nat, j: nat, k: nat)
    requires HasPrecision(g, c, decimals) && Precise(c, decimals) && j < k && OneEpoch(g, j, k)
    ensures ReadingTrend(g, Counter, j, k) == Ahead
  {
    CounterGrows(g, j, k);
    AmountGrows(g, j, k);
  }

  lemma {:induction false} AmountGrows(g: Draws, j: nat, k: nat)
    requires var e, e' := EpochStart(g.p, g.s, j), EpochStart(g.p, g.s, k);
      NumberValue(g, CounterValue(g, j, e)) < NumberValue(g, CounterValue(g, k, e'))
    ensures ReadingTrend(g, Counter, j, k) == Ahead
  {
  }

  lemma {:induction false} CounterGrows(g: Draws, j: nat, k: nat)
    requires j < k && EpochStart(g.p, g.s, j) == EpochStart(g.p, g.s, k)
    requires Precise(SeriesTexture(g), Decimals(g))
    ensures var e := EpochStart(g.p, g.s, k);
      NumberValue(g, CounterValue(g, j, e)) < NumberValue(g, CounterValue(g, k, e))
  {
    var c, m, e := SeriesTexture(g), TenTo(Decimals(g)), EpochStart(g.p, g.s, k);
    EpochStartIsLatestBoundary(g.p, g.s, j);
    StrictIncreaseIff(c, Decimals(g));
    StrictAtRate(c, m, EpochRate(g, e));
    CounterDraws(g, j, e);
    CounterDraws(g, k, e);
    StrictBetween(c, m, EpochRate(g, e), j - e, k - e,
                  g.p.mixers.mix3(g.s.seed, ToWord(j), 7), g.p.mixers.mix3(g.s.seed, ToWord(k), 7));
    PreciseIsFloat(g);
  }

  lemma {:induction false} StrictAtRate(c: Texture, m: real, rate: real)
    requires m >= 1.0 && AlwaysStrict(c, m) && rate >= 0.1
    ensures StrictAt(c, m, rate)
  {
  }

  lemma {:induction false} CounterDraws(g: Draws, k: nat, e: int)
    ensures CounterValue(g, k, e) ==
      CounterAt(SeriesTexture(g), TenTo(Decimals(g)), EpochRate(g, e), k - e,
                Frac(g.p.mixers.mix3(g.s.seed, ToWord(k), 7)))
  {
  }

  lemma {:induction false} PreciseIsFloat(g: Draws)
    requires Precise(SeriesTexture(g), Decimals(g))
    ensures !g.valueIsInt && forall v: real :: NumberValue(g, v) == v
  {
  }

  lemma {:induction false} StrictBetween(c: Texture, m: real, rate: real, age: nat, age': nat, h: Word, h': Word)
    requires m >= 1.0 && StrictAt(c, m, rate) && age < age'
    ensures CounterAt(c, m, rate, age, Frac(h)) < CounterAt(c, m, rate, age', Frac(h'))
  {
  }

  lemma {:induction false} StandsStill(g: Draws, i: Instrument)
    requires i.Valid()
    ensures Still(g) && !(i.Counter? && Precise(SeriesTexture(g), Decimals(g))) ==>
      ReadingAt(g, i, 0) == ReadingAt(g, i, 1)
  {
    if Still(g) && !(i.Counter? && Precise(SeriesTexture(g), Decimals(g))) {
      match i
      case Counter => CounterStandsStill(g);
      case Explicit(_, _) => ExplicitStandsStill(g, i);
      case Exponential(_, _, _, _) => ExponentialStandsStill(g, i);
      case Quantiles => SummaryStandsStill(g);
    }
  }

  lemma {:induction false} OneThatStands(g: Draws, i: Instrument)
    requires i.Valid()
    ensures EpochStart(g.p, g.s, 0) == EpochStart(g.p, g.s, 1) && ReadingAt(g, i, 0) == ReadingAt(g, i, 1) ==>
      !AlwaysGrows(i, SeriesTexture(g), Decimals(g), g.pow10)
  {
    if EpochStart(g.p, g.s, 0) == EpochStart(g.p, g.s, 1) && ReadingAt(g, i, 0) == ReadingAt(g, i, 1) {
      assert OneEpoch(g, 0, 1) && HasPrecision(g, SeriesTexture(g), Decimals(g));
      assert ReadingTrend(g, i, 0, 1) == Level;
    }
  }

  // Cumulative sums that are not monotonic

  /** Whether cumulative sums of one texture never decrease within an epoch. */
  ghost predicate NeverDecreases(monotonic: bool, c: Texture, pow10: PowTen, wave: Wave) {
    forall g: Draws, j: nat, k: nat ::
      g.pow10 == pow10 && SeriesTexture(g) == c && OneEpoch(g, j, k) ==>
        SumTrend(g, wave, monotonic, j, k) != Behind
  }

  function SumTrend(g: Draws, wave: Wave, monotonic: bool, j: nat, k: nat): Trend {
    var v, w := CumulativeSum(g, wave, monotonic, j), CumulativeSum(g, wave, monotonic, k);
    if v < w then Ahead else if v == w then Level else Behind
  }

  /** What makes a gauge fall: a level that halves within an epoch, and no draws to make up for it. */
  ghost predicate Falling(g: Draws) {
    && Decimals(g) == 1 && GaugeBase(g) == 10.0 && !g.valueIsInt
    && EpochStart(g.p, g.s, 0) == EpochStart(g.p, g.s, 500)
    && GaugeLevel(g, Regime(g, 0)) == 1.2 && GaugeLevel(g, Regime(g, 500)) == 0.6
    && Frac2(g, 3) == 0.0 && Frac3(g, 0, 5) == 0.0 && Frac3(g, 500, 5) == 0.0
  }

  /** The draws of a series without churn whose level falls with its first change of regime. */
  ghost predicate FallingDraws(g: Draws, c: Texture) {
    var mix2, mix3 := g.p.mixers.mix2, g.p.mixers.mix3;
    && g.p.lifetime == 0 && !g.valueIsInt && g.s.seed == 0
    && mix2(0, 30) == TextureWord(c) && mix2(0, 31) == 0 && mix2(0, 1) == 0x8000_0000_0000_0000
    && mix2(0, 41) == 0 && mix2(0, 9) == 0 && mix2(0, 3) == 0
    && mix3(0, 0, 42) == THREE_QUARTERS && mix3(0, 1, 42) == 0
    && mix3(0, 0, 5) == 0 && mix3(0, 500, 5) == 0
  }

  function FallingSeries(c: Texture, pow10: PowTen): Draws {
    var mix2 := (a: Word, b: Word) =>
      (if b == 30 then TextureWord(c) else if b == 1 then 0x8000_0000_0000_0000 else 0) as Word;
    var mix3 := (a: Word, k: Word, salt: Word) => (if k == 0 && salt == 42 then THREE_QUARTERS else 0) as Word;
    Draws(Plan(Mixers(mix2, mix3), 0, 1000, 0, true, 0), Series(0, 0), pow10, false)
  }

  lemma {:induction false} FallingTexture(g: Draws, c: Texture)
    requires FallingDraws(g, c)
    ensures SeriesTexture(g) == c && Decimals(g) == 1 && GaugeBase(g) == g.pow10(1.0)
  {
    TextureOf(c);
    assert Frac2(g, 1) == 0.5;
  }

  lemma {:induction false} FallingLevels(g: Draws, c: Texture)
    requires FallingDraws(g, c)
    ensures GaugeLevel(g, Regime(g, 0)) == 1.2 && GaugeLevel(g, Regime(g, 500)) == 0.6
  {
    assert RegimePeriod(g) == 500;
    assert Regime(g, 0) == 0 && Regime(g, 500) == 1;
    assert Frac(0) == 0.0 && Frac(THREE_QUARTERS) == 0.75;
  }

  lemma {:induction false} FallingNoise(g: Draws, c: Texture)
    requires FallingDraws(g, c)
    ensures Frac2(g, 3) == 0.0 && Frac3(g, 0, 5) == 0.0 && Frac3(g, 500, 5) == 0.0
  {
    assert Frac(0) == 0.0 && ToWord(500) == 500;
  }

  lemma {:induction false} DrawsFall(g: Draws, c: Texture)
    requires FallingDraws(g, c) && g.pow10(1.0) == 10.0
    ensures Falling(g) && SeriesTexture(g) == c
  {
    FallingTexture(g, c);
    FallingLevels(g, c);
    FallingNoise(g, c);
    QuietEpoch(g.p, g.s, 500);
  }

  /** Without draws a gauge is off its level by at most a tenth, and a little below. */
  lemma {:induction false} QuietSwing(g: Draws, wave: Wave, k: nat)
    requires Frac2(g, 3) == 0.0 && Frac3(g, k, 5) == 0.0
    ensures -0.15 <= GaugeSwing(g, wave, k) <= 0.05
  {
    SwingBounds(wave(k, WavePeriod(g), Frac2(g, 4)));
  }

  lemma {:induction false} SwingBounds(x: real)
    requires -1.0 <= x <= 1.0
    ensures -0.1 <= Times(0.1, x) <= 0.1
  {
  }

  /** From 1.2 to 0.6 times a base of 10, no wave makes up for the fall. */
  lemma {:induction false} LevelFalls(c: Texture, swing: real, swing': real)
    requires c != Idle && -0.15 <= swing && swing' <= 0.05
    ensures GaugeAt(c, 10.0, swing', 0.6, 10.0) < GaugeAt(c, 10.0, swing, 1.2, 10.0)
  {
    assert Times(1.2, 10.0) == 12.0 && Times(0.6, 10.0) == 6.0;
    var v, w := GaugeRaw(swing', 0.6, 10.0), GaugeRaw(swing, 1.2, 10.0);
    TimesMonotone(1.0 + swing', 1.05, 6.0);
    TimesMonotone(0.85, 1.0 + swing, 12.0);
    assert v <= 6.3 && w >= 10.2;
    assert Times(v, 10.0) + 1.0 <= Times(w, 10.0);
    QuantizeMonotone(v, w, c, 10.0);
  }

  /** Cumulative sums never decrease within an epoch if and only if they are monotonic or idle:
      one that is neither follows a gauge, and falls where the gauge does. */
  lemma {:induction false} SumNeverDecreasesIff(monotonic: bool, c: Texture, pow10: PowTen, wave: Wave)
    requires pow10(1.0) == 10.0
    ensures NeverDecreases(monotonic, c, pow10, wave) <==> monotonic || c == Idle
  {
    if monotonic {
      MonotonicSums(c, pow10, wave);
    } else if c == Idle {
      IdleSums(pow10, wave);
    } else {
      var g := SomeFall(FallingSeries(c, pow10), c);
      OneThatFalls(g, c, pow10, wave);
    }
  }

  lemma {:induction false} MonotonicSums(c: Texture, pow10: PowTen, wave: Wave)
    ensures NeverDecreases(true, c, pow10, wave)
  {
    forall g: Draws, j: nat, k: nat | g.pow10 == pow10 && SeriesTexture(g) == c && OneEpoch(g, j, k)
      ensures SumTrend(g, wave, true, j, k) != Behind
    {
      MonotonicSum(g, wave, j, k);
    }
  }

  lemma {:induction false} MonotonicSum(g: Draws, wave: Wave, j: nat, k: nat)
    requires OneEpoch(g, j, k)
    ensures SumTrend(g, wave, true, j, k) != Behind
  {
    CounterNeverDecreases(g, j, k);
  }

  /** An idle gauge does not move. */
  lemma {:induction false} IdleSums(pow10: PowTen, wave: Wave)
    ensures NeverDecreases(false, Idle, pow10, wave)
  {
    forall g: Draws, j: nat, k: nat | g.pow10 == pow10 && SeriesTexture(g) == Idle && OneEpoch(g, j, k)
      ensures SumTrend(g, wave, false, j, k) != Behind
    {
      assert GaugeValue(g, wave, j) == Quantize(GaugeBase(g), Decimal, 10.0) == GaugeValue(g, wave, k);
    }
  }

  lemma {:induction false} SumFalls(g: Draws, wave: Wave)
    requires Falling(g) && SeriesTexture(g) != Idle
    ensures OneEpoch(g, 0, 500) && SumTrend(g, wave, false, 0, 500) == Behind
  {
    QuietSwing(g, wave, 0);
    QuietSwing(g, wave, 500);
    LevelFalls(SeriesTexture(g), GaugeSwing(g, wave, 0), GaugeSwing(g, wave, 500));
    assert TenTo(1) == 10.0;
  }

  lemma {:induction false} SomeFall(d: Draws, c: Texture) returns (g: Draws)
    requires FallingDraws(d, c) && d.pow10(1.0) == 10.0
    ensures Falling(g) && SeriesTexture(g) == c && g.pow10 == d.pow10
  {
    DrawsFall(d, c);
    g := d;
  }

  lemma {:induction false} OneThatFalls(g: Draws, c: Texture, pow10: PowTen, wave: Wave)
    requires Falling(g) && SeriesTexture(g) == c && g.pow10 == pow10 && c != Idle
    ensures !NeverDecreases(false, c, pow10, wave)
  {
    SumFalls(g, wave);
  }
}
