/** Virtual time of a run: churn generations, reset epochs, timestamps and windows.

    Nothing is remembered between sweeps.  Every quantity is a function of the plan, the
    series and the sweep, and the lemmas show that the functions fit together the way the
    state of a real fleet would. */
module Sweeps {
  import opened Words

  /** The mixers a plan draws from.  Every result below holds for all of them. */
  datatype Mixers = Mixers(mix2: (Word, Word) -> Word, mix3: (Word, Word, Word) -> Word)

  datatype Plan = Plan(
    mixers: Mixers,
    startMs: int,
    intervalMs: int,
    jitterMs: int,
    aligned: bool,
    lifetime: nat  // resource lifetime in sweeps; 0 = no churn
  )
  {
    /** What configuration validation guarantees. */
    predicate Valid() {
      intervalMs >= 1 && 0 <= 2 * jitterMs < intervalMs
    }
  }

  /** One series: the resource that owns it and its value seed. */
  datatype Series = Series(resource: nat, seed: Word)

  const LIFE_SALT: Word := 0x6c696665
  const PHASE_SALT: Word := 0x7068617365
  const JITTER_SALT: Word := 0x6a697474

  // Generations

  function ChurnPhase(p: Plan, r: nat): (phase: nat)
    requires p.lifetime > 0
    ensures phase < p.lifetime
  {
    p.mixers.mix2(ToWord(r), LIFE_SALT) % p.lifetime
  }

  function Generation(p: Plan, r: nat, k: nat): nat {
    if p.lifetime == 0 then 0 else (k + ChurnPhase(p, r)) / p.lifetime
  }

  predicate GenerationChanged(p: Plan, r: nat, k: nat) {
    p.lifetime != 0 && k != 0 && (k + ChurnPhase(p, r)) % p.lifetime == 0
  }

  function GenerationStart(p: Plan, r: nat, k: nat): int {
    if p.lifetime == 0 then 0
    else
      var phase := ChurnPhase(p, r);
      var gen := (k + phase) / p.lifetime;
      if gen == 0 then 0 else gen * p.lifetime - phase
  }

  // Multiples of m among consecutive numbers.

  lemma {:induction false} MulMono(a: int, b: int, m: int)
    requires a <= b && m >= 0
    ensures a * m <= b * m
  {
  }

  lemma {:induction false} QuotientIs(x: nat, m: nat, q: int, r: int)
    requires m > 0 && x == q * m + r && 0 <= r < m
    ensures x / m == q && x % m == r
  {
    if x / m < q {
      MulMono(x / m + 1, q, m);
    } else if q < x / m {
      MulMono(q + 1, x / m, m);
    }
  }

  lemma {:induction false} DivStep(x: nat, m: nat)
    requires x > 0 && m > 0
    ensures x % m == 0 ==> x / m == (x - 1) / m + 1
    ensures x % m != 0 ==> x / m == (x - 1) / m
  {
    var q, r := x / m, x % m;
    if r == 0 {
      QuotientIs(x - 1, m, q - 1, m - 1);
    } else {
      QuotientIs(x - 1, m, q, r - 1);
    }
  }

  /** x - x % m is a multiple of m and no number after it up to x is. */
  lemma {:induction false} LastMultiple(x: nat, m: nat, y: int)
    requires m > 0 && x - x % m <= y <= x
    ensures y % m == 0 <==> y == x - x % m
    ensures y / m == x / m
  {
    QuotientIs(y, m, x / m, y - (x - x % m));
  }

  function ToMultiple(x: nat, m: nat): (d: nat)
    requires m > 0
    ensures d < m
  {
    if x % m == 0 then 0 else m - x % m
  }

  /** Of the m numbers from x on, exactly one is a multiple of m. */
  lemma {:induction false} OneMultiple(x: nat, m: nat, i: nat)
    requires i < m
    ensures (x + i) % m == 0 <==> i == ToMultiple(x, m)
  {
    var y := x % m + i;
    if y < m {
      QuotientIs(x + i, m, x / m, y);
    } else {
      NextQuotient(x, m, i);
    }
  }

  lemma {:induction false} NextQuotient(x: nat, m: nat, i: nat)
    requires i < m <= x % m + i
    ensures (x + i) % m == x % m + i - m
  {
    var q := x / m;
    assert (q + 1) * m == q * m + m;
    QuotientIs(x + i, m, q + 1, x % m + i - m);
  }

  /** A sweep begins a new generation exactly when its generation is the successor of the
      sweep before, and the generation is otherwise the one before. */
  lemma {:induction false} GenerationChangedIff(p: Plan, r: nat, k: nat)
    ensures GenerationChanged(p, r, k) <==> k > 0 && Generation(p, r, k) == Generation(p, r, k - 1) + 1
    ensures k > 0 && !GenerationChanged(p, r, k) ==> Generation(p, r, k) == Generation(p, r, k - 1)
  {
    if p.lifetime > 0 && k > 0 {
      DivStep(k + ChurnPhase(p, r), p.lifetime);
    }
  }

  /** Generations only ever advance. */
  lemma {:induction false} GenerationMonotone(p: Plan, r: nat, j: nat, k: nat)
    requires j <= k
    ensures Generation(p, r, j) <= Generation(p, r, k)
    decreases k
  {
    if j < k {
      GenerationMonotone(p, r, j, k - 1);
      GenerationChangedIff(p, r, k);
    }
  }

  /** A resource churns exactly once in as many consecutive sweeps as it lives. */
  lemma {:induction false} ChurnsOncePerLifetime(p: Plan, r: nat, from: nat) returns (k: nat)
    requires p.lifetime > 0 && from > 0
    ensures from <= k < from + p.lifetime
    ensures forall j :: from <= j < from + p.lifetime ==> (GenerationChanged(p, r, j) <==> j == k)
  {
    k := from + ToMultiple(from + ChurnPhase(p, r), p.lifetime);
    forall j | from <= j < from + p.lifetime
      ensures GenerationChanged(p, r, j) <==> j == k
    {
      OneMultiple(from + ChurnPhase(p, r), p.lifetime, j - from);
    }
  }

  /** The fleet does not churn as one: two resources may first churn at any two sweeps. */
  lemma {:induction false} ChurnIsStaggered(p: Plan, r: nat, k: nat, r': nat, k': nat) returns (chosen: Mixers)
    requires 1 <= k <= p.lifetime <= LIMIT && 1 <= k' <= p.lifetime && ToWord(r) != ToWord(r')
    ensures var q := p.(mixers := chosen);
      && GenerationChanged(q, r, k) && Generation(q, r, k - 1) == 0
      && GenerationChanged(q, r', k') && Generation(q, r', k' - 1) == 0
  {
    var life := p.lifetime;
    chosen := Mixers((a, salt) => if a == ToWord(r) then life - k else life - k', (a, b, c) => 0);
    var q := p.(mixers := chosen);
    QuotientIs(life - k, life, 0, life - k);
    QuotientIs(life - k', life, 0, life - k');
    FirstChurn(q, r, k);
    FirstChurn(q, r', k');
  }

  lemma {:induction false} FirstChurn(p: Plan, r: nat, k: nat)
    requires 1 <= k <= p.lifetime && ChurnPhase(p, r) == p.lifetime - k
    ensures GenerationChanged(p, r, k) && Generation(p, r, k - 1) == 0
  {
    QuotientIs(p.lifetime, p.lifetime, 1, 0);
    QuotientIs(p.lifetime - 1, p.lifetime, 0, p.lifetime - 1);
  }

  // Where the current generation began, once the resource has churned at all.
  lemma {:induction false} GenerationStartShape(p: Plan, r: nat, k: nat)
    requires p.lifetime > 0 && Generation(p, r, k) > 0
    ensures 0 < GenerationStart(p, r, k) == k - (k + ChurnPhase(p, r)) % p.lifetime
    ensures GenerationChanged(p, r, GenerationStart(p, r, k))
    ensures Generation(p, r, GenerationStart(p, r, k)) == Generation(p, r, k)
  {
    var x := k + ChurnPhase(p, r);
    MulMono(1, x / p.lifetime, p.lifetime);
    LastMultiple(x, p.lifetime, x - x % p.lifetime);
  }

  /** GenerationStart is the first sweep of the generation that k belongs to. */
  lemma {:induction false} GenerationStartIsFirst(p: Plan, r: nat, k: nat, j: nat)
    requires j <= k
    ensures 0 <= GenerationStart(p, r, k) <= k
    ensures GenerationStart(p, r, k) != 0 ==> GenerationChanged(p, r, GenerationStart(p, r, k))
    ensures Generation(p, r, j) == Generation(p, r, k) <==> GenerationStart(p, r, k) <= j
  {
    if Generation(p, r, k) == 0 {
      GenerationMonotone(p, r, j, k);
    } else {
      var g := GenerationStart(p, r, k);
      GenerationStartShape(p, r, k);
      GenerationChangedIff(p, r, g);
      if g <= j {
        GenerationMonotone(p, r, g, j);
        GenerationMonotone(p, r, j, k);
      } else {
        GenerationMonotone(p, r, j, g - 1);
      }
    }
  }

  // Epochs

  const MIN_RESET_PERIOD := 2000
  const RESET_PERIOD_SPAN := 20000

  function ResetPeriod(p: Plan, s: Series): (period: nat)
    ensures MIN_RESET_PERIOD <= period < MIN_RESET_PERIOD + RESET_PERIOD_SPAN
  {
    MIN_RESET_PERIOD + p.mixers.mix2(s.seed, 8) % RESET_PERIOD_SPAN
  }

  function ResetPhase(p: Plan, s: Series): (phase: nat)
    ensures phase < ResetPeriod(p, s)
  {
    p.mixers.mix2(s.seed, 9) % ResetPeriod(p, s)
  }

  /** A counter resets at this sweep. */
  predicate Resets(p: Plan, s: Series, k: nat) {
    (k + ResetPhase(p, s)) % ResetPeriod(p, s) == 0
  }

  /** A counter resets exactly once in as many consecutive sweeps as its period. */
  lemma {:induction false} ResetsOncePerPeriod(p: Plan, s: Series, from: nat) returns (k: nat)
    ensures from <= k < from + ResetPeriod(p, s)
    ensures forall j :: from <= j < from + ResetPeriod(p, s) ==> (Resets(p, s, j) <==> j == k)
  {
    k := from + ToMultiple(from + ResetPhase(p, s), ResetPeriod(p, s));
    forall j | from <= j < from + ResetPeriod(p, s)
      ensures Resets(p, s, j) <==> j == k
    {
      OneMultiple(from + ResetPhase(p, s), ResetPeriod(p, s), j - from);
    }
  }

  /** Two series may have any two periods from 2000 to 21999 sweeps, and first reset at any sweep
      of theirs. */
  lemma {:induction false} ResetsAreStaggered(
    p: Plan, s: Series, period: nat, k: nat, t: Series, period': nat, k': nat) returns (chosen: Mixers)
    requires MIN_RESET_PERIOD <= period < MIN_RESET_PERIOD + RESET_PERIOD_SPAN && k < period
    requires MIN_RESET_PERIOD <= period' < MIN_RESET_PERIOD + RESET_PERIOD_SPAN && k' < period'
    requires s.seed != t.seed
    ensures var q := p.(mixers := chosen);
      && ResetPeriod(q, s) == period && Resets(q, s, k) && ResetPeriod(q, t) == period' && Resets(q, t, k')
  {
    var seed, d8, d9 := s.seed, DrawReset(8, period, k), DrawReset(9, period, k);
    var d8', d9' := DrawReset(8, period', k'), DrawReset(9, period', k');
    chosen := Mixers(
      (a, salt) => if a == seed then (if salt == 8 then d8 else d9) else if salt == 8 then d8' else d9',
      (a, b, c) => 0);
    FirstReset(p.(mixers := chosen), s, period, k);
    FirstReset(p.(mixers := chosen), t, period', k');
  }

  function DrawReset(salt: Word, period: nat, k: nat): Word {
    ToWord(if salt == 8 then period - MIN_RESET_PERIOD else period - k)
  }

  lemma {:induction false} FirstReset(p: Plan, s: Series, period: nat, k: nat)
    requires MIN_RESET_PERIOD <= period < MIN_RESET_PERIOD + RESET_PERIOD_SPAN && k < period
    requires p.mixers.mix2(s.seed, 8) == DrawReset(8, period, k)
    requires p.mixers.mix2(s.seed, 9) == DrawReset(9, period, k)
    ensures ResetPeriod(p, s) == period && Resets(p, s, k)
  {
    QuotientIs(period - k, period, if k == 0 then 1 else 0, if k == 0 then 0 else period - k);
    QuotientIs(period, period, 1, 0);
    QuotientIs(0, period, 0, 0);
  }

  /** The sweep at which the cumulative epoch of sweep k began. */
  function EpochStart(p: Plan, s: Series, k: nat): int {
    var resetStart := k - (k + ResetPhase(p, s)) % ResetPeriod(p, s);
    var genStart := GenerationStart(p, s.resource, k);
    if genStart > resetStart then genStart else resetStart
  }

  /** What ends an epoch: the start of the run, a counter reset, or a churn boundary. */
  predicate EpochBoundary(p: Plan, s: Series, k: nat) {
    k == 0 || Resets(p, s, k) || GenerationChanged(p, s.resource, k)
  }

  /** EpochStart is the latest epoch boundary not after k.  In particular it is never
      negative, although resets that would have happened before the run have no sweep. */
  lemma {:induction false} EpochStartIsLatestBoundary(p: Plan, s: Series, k: nat)
    ensures 0 <= EpochStart(p, s, k) <= k
    ensures EpochBoundary(p, s, EpochStart(p, s, k))
    ensures forall b: nat :: EpochStart(p, s, k) < b <= k ==> !EpochBoundary(p, s, b)
  {
    var period, phase := ResetPeriod(p, s), ResetPhase(p, s);
    var x := k + phase;
    var resetStart := x - x % period - phase;
    var genStart := GenerationStart(p, s.resource, k);
    GenerationStartIsFirst(p, s.resource, k, 0);
    if resetStart >= 0 {
      LastMultiple(x, period, resetStart + phase);
    }
    forall b: nat | EpochStart(p, s, k) < b <= k
      ensures !EpochBoundary(p, s, b)
    {
      LastMultiple(x, period, b + phase);
      GenerationStartIsFirst(p, s.resource, k, b);
      GenerationStartIsFirst(p, s.resource, k, b - 1);
      GenerationChangedIff(p, s.resource, b);
    }
  }

  /** A latest boundary is unique, so two sweeps with no boundary between them share it. */
  lemma {:induction false} LatestBoundaryUnique(p: Plan, s: Series, k: nat, e: nat)
    requires e <= k && EpochBoundary(p, s, e)
    requires forall b: nat :: e < b <= k ==> !EpochBoundary(p, s, b)
    ensures EpochStart(p, s, k) == e
  {
    EpochStartIsLatestBoundary(p, s, k);
  }

  /** Epochs as intervals of sweeps: the epoch start is the same for every sweep of the
      epoch, no sweep of it lies in another generation, and a sweep opens an epoch exactly
      at a boundary. */
  lemma {:induction false} EpochStructure(p: Plan, s: Series, k: nat, j: nat)
    requires EpochStart(p, s, k) <= j <= k
    ensures EpochStart(p, s, j) == EpochStart(p, s, k)
    ensures Generation(p, s.resource, j) == Generation(p, s.resource, k)
    ensures EpochStart(p, s, k) == k <==> EpochBoundary(p, s, k)
    ensures !EpochBoundary(p, s, k) ==> EpochStart(p, s, k) == EpochStart(p, s, k - 1)
  {
    EpochStartIsLatestBoundary(p, s, k);
    LatestBoundaryUnique(p, s, j, EpochStart(p, s, k));
    GenerationStartIsFirst(p, s.resource, k, j);
    if !EpochBoundary(p, s, k) {
      LatestBoundaryUnique(p, s, k - 1, EpochStart(p, s, k));
    }
  }

  /** Epochs follow one another in time. */
  lemma {:induction false} EpochStartMonotone(p: Plan, s: Series, j: nat, k: nat)
    requires j <= k
    ensures EpochStart(p, s, j) <= EpochStart(p, s, k)
  {
    EpochStartIsLatestBoundary(p, s, j);
    EpochStartIsLatestBoundary(p, s, k);
  }

  // Timestamps

  function SweepTimeMs(p: Plan, k: int, r: nat): int
    requires p.intervalMs >= 1
  {
    p.startMs + k * p.intervalMs +
    if p.aligned then 0 else p.mixers.mix2(ToWord(r), PHASE_SALT) % p.intervalMs
  }

  function PointTimeMs(p: Plan, s: Series, k: int): int
    requires p.intervalMs >= 1
  {
    SweepTimeMs(p, k, s.resource) +
    if p.jitterMs > 0 then p.mixers.mix3(s.seed, ToWord(k), JITTER_SALT) % (2 * p.jitterMs + 1) - p.jitterMs else 0
  }

  /** Where a point stands in time: at its sweep's instant, counted from the start of the run, plus
      its resource's phase within the interval unless timestamps are aligned, give or take the
      jitter. */
  lemma {:induction false} PointInstant(p: Plan, s: Series, k: int)
    requires p.Valid()
    ensures var instant := p.startMs + k * p.intervalMs;
      && instant - p.jitterMs <= PointTimeMs(p, s, k)
      && PointTimeMs(p, s, k) <= instant + p.jitterMs + if p.aligned then 0 else p.intervalMs - 1
  {
  }

  /** Every such instant is reached: any phase and any jitter in range is that of some mixer. */
  lemma {:induction false} PointInstantReached(p: Plan, s: Series, k: int, phase: nat, jitter: int)
    returns (chosen: Mixers)
    requires p.Valid() && 2 * p.intervalMs < LIMIT
    requires phase < p.intervalMs && (p.aligned ==> phase == 0) && -p.jitterMs <= jitter <= p.jitterMs
    ensures PointTimeMs(p.(mixers := chosen), s, k) == p.startMs + k * p.intervalMs + phase + jitter
  {
    chosen := Mixers((a, b) => phase, (a, b, c) => jitter + p.jitterMs);
    QuotientIs(phase, p.intervalMs, 0, phase);
    QuotientIs(jitter + p.jitterMs, 2 * p.jitterMs + 1, 0, jitter + p.jitterMs);
    var q := p.(mixers := chosen);
    assert SweepTimeMs(q, k, s.resource) == p.startMs + k * p.intervalMs + phase;
  }

  /** Series of one resource are scraped together: at one sweep they are at most two jitters apart,
      and without jitter not at all. */
  lemma {:induction false} ScrapedTogether(p: Plan, s: Series, t: Series, k: int)
    requires p.Valid() && s.resource == t.resource
    ensures -2 * p.jitterMs <= PointTimeMs(p, s, k) - PointTimeMs(p, t, k) <= 2 * p.jitterMs
  {
  }

  /** ... and no closer than that: some mixer puts two series exactly two jitters apart. */
  lemma {:induction false} TogetherIsTight(p: Plan, s: Series, t: Series, k: int) returns (chosen: Mixers)
    requires p.Valid() && s.resource == t.resource && s.seed != t.seed && 2 * p.jitterMs < LIMIT
    ensures PointTimeMs(p.(mixers := chosen), s, k) - PointTimeMs(p.(mixers := chosen), t, k) == 2 * p.jitterMs
  {
    var seed := s.seed;
    chosen := Mixers((a, b) => 0, (a, b, c) => if a == seed then 2 * p.jitterMs else 0);
    QuotientIs(2 * p.jitterMs, 2 * p.jitterMs + 1, 0, 2 * p.jitterMs);
    QuotientIs(0, 2 * p.jitterMs + 1, 0, 0);
  }

  /** The phase of a resource within the interval has nothing to do with when it churns: both may be
      anything. */
  lemma {:induction false} PhaseAndChurnApart(p: Plan, r: nat, k: nat, phase: nat) returns (chosen: Mixers)
    requires p.Valid() && !p.aligned && phase < p.intervalMs <= LIMIT && 1 <= k <= p.lifetime <= LIMIT
    ensures var q := p.(mixers := chosen);
      && SweepTimeMs(q, 0, r) == p.startMs + phase
      && GenerationChanged(q, r, k) && Generation(q, r, k - 1) == 0
  {
    chosen := Mixers((a, salt) => if salt == LIFE_SALT then p.lifetime - k else phase, (a, b, c) => 0);
    QuotientIs(phase, p.intervalMs, 0, phase);
    QuotientIs(p.lifetime - k, p.lifetime, 0, p.lifetime - k);
    FirstChurn(p.(mixers := chosen), r, k);
  }

  /** The gap between two points is the gap between their sweeps, give or take two jitters. */
  lemma {:induction false} PointGap(p: Plan, s: Series, j: int, k: int)
    requires p.Valid()
    ensures (k - j) * p.intervalMs - 2 * p.jitterMs
         <= PointTimeMs(p, s, k) - PointTimeMs(p, s, j)
         <= (k - j) * p.intervalMs + 2 * p.jitterMs
  {
    assert (k - j) * p.intervalMs == k * p.intervalMs - j * p.intervalMs;
  }

  /** Timestamps order points the way sweeps do. */
  lemma {:induction false} PointTimesIncrease(p: Plan, s: Series, j: int, k: int)
    requires p.Valid()
    ensures PointTimeMs(p, s, j) < PointTimeMs(p, s, k) <==> j < k
  {
    PointGap(p, s, j, k);
    if j < k {
      MulMono(1, k - j, p.intervalMs);
    } else if k < j {
      MulMono(1, j - k, p.intervalMs);
      assert (k - j) * p.intervalMs == -((j - k) * p.intervalMs);
    }
  }

  /** The jitter bound that validation enforces is the weakest there is: with twice the
      jitter at the interval or above, some mixer makes neighbouring points meet or cross. */
  lemma {:induction false} JitterBoundIsTight(p: Plan) returns (chosen: Mixers)
    requires 1 <= p.intervalMs <= 2 * p.jitterMs && p.intervalMs < LIMIT
    ensures PointTimeMs(p.(mixers := chosen), Series(0, 0), 1) <= PointTimeMs(p.(mixers := chosen), Series(0, 0), 0)
  {
    chosen := Mixers((a, b) => 0, (a, k, salt) => if k == 0 then p.intervalMs else 0);
    var span := 2 * p.jitterMs + 1;
    QuotientIs(p.intervalMs, span, 0, p.intervalMs);
    QuotientIs(0, span, 0, 0);
    var q := p.(mixers := chosen);
    assert PointTimeMs(q, Series(0, 0), 0) == SweepTimeMs(q, 0, 0) + p.intervalMs - p.jitterMs;
    assert PointTimeMs(q, Series(0, 0), 1) == SweepTimeMs(q, 1, 0) - p.jitterMs;
  }

  // Nanoseconds on the wire: negative instants clamp to 0 and the product wraps at 2^64.

  const MAX_MS := 18446744073709  // the last millisecond whose nanoseconds fit in 64 bits

  function MsToNano(ms: int): Word {
    if ms < 0 then 0 else ToWord(ms * 1000000)
  }

  /** On the wire two instants in range keep their order exactly when the later one is
      after the Unix epoch; up to it, both clamp to 0. */
  lemma {:induction false} NanoOrder(a: int, b: int)
    requires a < b <= MAX_MS
    ensures MsToNano(a) < MsToNano(b) <==> b > 0
    ensures MsToNano(a) <= MsToNano(b)
  {
  }

  /** In range the wire tells an instant to the millisecond; the millisecond after the range wraps. */
  lemma {:induction false} NanoReadBack(ms: int)
    ensures 0 <= ms <= MAX_MS ==> MsToNano(ms) / 1000000 == ms && MsToNano(ms) % 1000000 == 0
    ensures MsToNano(MAX_MS + 1) < MsToNano(MAX_MS)
    ensures ms <= 0 ==> MsToNano(ms) == 0
  {
  }

  lemma {:induction false} WireTimesIncrease(p: Plan, s: Series, j: int, k: int)
    requires p.Valid() && j < k && PointTimeMs(p, s, k) <= MAX_MS
    ensures MsToNano(PointTimeMs(p, s, j)) < MsToNano(PointTimeMs(p, s, k)) <==> PointTimeMs(p, s, k) > 0
  {
    PointTimesIncrease(p, s, j, k);
    NanoOrder(PointTimeMs(p, s, j), PointTimeMs(p, s, k));
  }
}
