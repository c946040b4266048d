/** The 64-bit mixing primitives and the seeds derived from them.  The point of this
    module is that SplitMix64 loses nothing, so seeds that start apart stay apart. */
module Mixing {
  import opened Words

  /** The shape of a 64-bit finalizer: add a constant, then fold the high bits down and
      multiply, twice, then fold once more. */
  datatype Finalizer = Finalizer(add: Word, shift1: nat, mul1: Word, shift2: nat, mul2: Word, shift3: nat)
  {
    function Mix(x: Word): Word {
      var x := Add(x, add);
      var x := Mul(XorShift(x, shift1), mul1);
      var x := Mul(XorShift(x, shift2), mul2);
      XorShift(x, shift3)
    }

    /** Takes the steps of Mix back in the opposite order, given inverses of the multipliers. */
    function Unmix(y: Word, inverse1: Word, inverse2: Word): Word {
      var x := UnXorShift(y, shift3);
      var x := UnXorShift(Mul(x, inverse2), shift2);
      var x := UnXorShift(Mul(x, inverse1), shift1);
      Sub(x, add)
    }

    predicate Invertible(inverse1: Word, inverse2: Word) {
      && 3 * shift1 >= 64 && 3 * shift2 >= 64 && 3 * shift3 >= 64
      && Mul(mul1, inverse1) == 1 && Mul(mul2, inverse2) == 1
    }
  }

  const GOLDEN: Word := 0x9E3779B97F4A7C15
  const INV_GOLDEN: Word := 0xF1DE83E19937733D
  const PLAN_SEED1: Word := 0x6d65747269637067

  const SPLITMIX := Finalizer(0x9E3779B97F4A7C15, 30, 0xBF58476D1CE4E5B9, 27, 0x94D049BB133111EB, 31)

  function Splitmix64(x: Word): Word {
    SPLITMIX.Mix(x)
  }

  function Unsplitmix64(y: Word): Word {
    SPLITMIX.Unmix(y, 0x96DE1B173F119089, 0x319642B2D24D8EC3)
  }

  /** A finalizer whose shifts cover a third of the word and whose multipliers are
      invertible is a bijection on machine words. */
  lemma {:induction false} FinalizerBijective(f: Finalizer, inverse1: Word, inverse2: Word, x: Word)
    requires f.Invertible(inverse1, inverse2)
    ensures f.Unmix(f.Mix(x), inverse1, inverse2) == x
    ensures f.Mix(f.Unmix(x, inverse1, inverse2)) == x
  {
    // forwards
    AddSub(x, f.add);
    var a := Add(x, f.add);
    var b := Mul(XorShift(a, f.shift1), f.mul1);
    RoundInverse(a, f.shift1, f.mul1, inverse1);
    RoundInverse(b, f.shift2, f.mul2, inverse2);
    XorShiftInverse(Mul(XorShift(b, f.shift2), f.mul2), f.shift3);
    // backwards
    var p := UnXorShift(x, f.shift3);
    XorShiftInverse(x, f.shift3);
    RoundInverse(p, f.shift2, f.mul2, inverse2);
    var q := UnXorShift(Mul(p, inverse2), f.shift2);
    RoundInverse(q, f.shift1, f.mul1, inverse1);
    AddSub(UnXorShift(Mul(q, inverse1), f.shift1), f.add);
  }

  lemma {:induction false} RoundInverse(x: Word, n: nat, m: Word, inverse: Word)
    requires 3 * n >= 64 && Mul(m, inverse) == 1
    ensures UnXorShift(Mul(Mul(XorShift(x, n), m), inverse), n) == x
    ensures Mul(XorShift(UnXorShift(Mul(x, inverse), n), n), m) == x
  {
    XorShiftInverse(x, n);
    MulInverse(XorShift(x, n), m, inverse);
    XorShiftInverse(Mul(x, inverse), n);
    MulInverse(x, m, inverse);
  }

  /** SplitMix64 is a bijection on machine words. */
  lemma {:induction false} SplitmixBijective(x: Word)
    ensures Unsplitmix64(Splitmix64(x)) == x
    ensures Splitmix64(Unsplitmix64(x)) == x
  {
    FinalizerBijective(SPLITMIX, 0x96DE1B173F119089, 0x319642B2D24D8EC3, x);
  }

  ghost predicate Injective(f: Word -> Word) {
    forall x, y :: f(x) == f(y) ==> x == y
  }

  lemma {:induction false} SplitmixInjective()
    ensures Injective(Splitmix64)
  {
    forall x, y | Splitmix64(x) == Splitmix64(y)
      ensures x == y
    {
      SplitmixBijective(x);
      SplitmixBijective(y);
    }
  }

  // The two- and three-word mixers, over any finalizer.

  function Mix2(mix: Word -> Word, a: Word, b: Word): Word {
    mix(Xor(mix(a), b))
  }

  function Mix3(mix: Word -> Word, a: Word, b: Word, c: Word): Word {
    mix(Xor(Mix2(mix, a, b), c))
  }

  /** Mix2 loses nothing in either argument while the other is fixed ... */
  lemma {:induction false} Mix2Injective(mix: Word -> Word, a: Word, b: Word, a': Word, b': Word)
    requires Injective(mix)
    ensures Mix2(mix, a, b) == Mix2(mix, a, b') <==> b == b'
    ensures Mix2(mix, a, b) == Mix2(mix, a', b) <==> a == a'
  {
    XorCancel(mix(a), b, b');
    XorCancelRight(b, mix(a), mix(a'));
  }

  /** ... and neither does Mix3 in any one of its three. */
  lemma {:induction false} Mix3Injective(mix: Word -> Word, a: Word, b: Word, c: Word, a': Word, b': Word, c': Word)
    requires Injective(mix)
    ensures Mix3(mix, a, b, c) == Mix3(mix, a, b, c') <==> c == c'
    ensures Mix3(mix, a, b, c) == Mix3(mix, a, b', c) <==> b == b'
    ensures Mix3(mix, a, b, c) == Mix3(mix, a', b, c) <==> a == a'
  {
    var m := Mix2(mix, a, b);
    Mix2Injective(mix, a, b, a', b');
    XorCancel(m, c, c');
    XorCancelRight(c, m, Mix2(mix, a, b'));
    XorCancelRight(c, m, Mix2(mix, a', b));
  }

  // Seeds of a metric and of its series.

  /** The seed a metric's index is spread into before anything is drawn for it. */
  function MetricSeed(mix: Word -> Word, index: Word): Word {
    mix(Xor(PLAN_SEED1, Mul(index, GOLDEN)))
  }

  function ValueSeed(mix: Word -> Word, seedHash: Word, index: Word): Word {
    mix(Xor(seedHash, MetricSeed(mix, index)))
  }

  /** The value seed of series j of a metric. */
  function SeriesSeed(mix: Word -> Word, seedHash: Word, index: Word, j: Word): Word {
    Mix2(mix, ValueSeed(mix, seedHash, index), j)
  }

  lemma {:induction false} GoldenInjective(i: Word, i': Word)
    requires Mul(i, GOLDEN) == Mul(i', GOLDEN)
    ensures i == i'
  {
    MulInverse(i, GOLDEN, INV_GOLDEN);
    MulInverse(i', GOLDEN, INV_GOLDEN);
  }

  /** Two metrics never share a seed, whatever the application seed. */
  lemma {:induction false} MetricSeedsDistinct(mix: Word -> Word, seedHash: Word, i: Word, i': Word)
    requires Injective(mix)
    requires i != i'
    ensures MetricSeed(mix, i) != MetricSeed(mix, i')
    ensures ValueSeed(mix, seedHash, i) != ValueSeed(mix, seedHash, i')
  {
    var m, m' := Mul(i, GOLDEN), Mul(i', GOLDEN);
    if m == m' {
      GoldenInjective(i, i');
    }
    if Xor(PLAN_SEED1, m) == Xor(PLAN_SEED1, m') {
      XorCancel(PLAN_SEED1, m, m');
    }
    var s, s' := MetricSeed(mix, i), MetricSeed(mix, i');
    if Xor(seedHash, s) == Xor(seedHash, s') {
      XorCancel(seedHash, s, s');
    }
  }

  /** Under SplitMix64, distinct series of one metric never share a value seed, the same
      series index in two metrics does not either, and another application seed moves every
      series. */
  lemma {:induction false} SeriesSeedsDistinct(seedHash: Word, seedHash': Word, i: Word, i': Word, j: Word, j': Word)
    ensures j != j' ==> SeriesSeed(Splitmix64, seedHash, i, j) != SeriesSeed(Splitmix64, seedHash, i, j')
    ensures i != i' ==> SeriesSeed(Splitmix64, seedHash, i, j) != SeriesSeed(Splitmix64, seedHash, i', j)
    ensures seedHash != seedHash' ==>
      SeriesSeed(Splitmix64, seedHash, i, j) != SeriesSeed(Splitmix64, seedHash', i, j)
  {
    SplitmixInjective();
    SeedsDistinct(Splitmix64, seedHash, seedHash', i, i', j, j');
  }

  lemma {:induction false} SeedsDistinct(
    mix: Word -> Word, seedHash: Word, seedHash': Word, i: Word, i': Word, j: Word, j': Word)
    requires Injective(mix)
    ensures j != j' ==> SeriesSeed(mix, seedHash, i, j) != SeriesSeed(mix, seedHash, i, j')
    ensures i != i' ==> SeriesSeed(mix, seedHash, i, j) != SeriesSeed(mix, seedHash, i', j)
    ensures seedHash != seedHash' ==> SeriesSeed(mix, seedHash, i, j) != SeriesSeed(mix, seedHash', i, j)
  {
    var v := ValueSeed(mix, seedHash, i);
    Mix2Injective(mix, v, j, v, j');
    if i != i' {
      MetricSeedsDistinct(mix, seedHash, i, i');
      Mix2Injective(mix, v, j, ValueSeed(mix, seedHash, i'), j);
    }
    if seedHash != seedHash' {
      var s := MetricSeed(mix, i);
      if Xor(seedHash, s) == Xor(seedHash', s) {
        XorCancelRight(s, seedHash, seedHash');
      }
      Mix2Injective(mix, v, j, ValueSeed(mix, seedHash', i), j);
    }
  }
}
