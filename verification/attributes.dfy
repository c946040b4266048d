/** The attribute space of a metric: how big each dimension is, and which value of each
    dimension a series gets. */
module Attributes {
  import opened Sweeps

  function Max(a: int, b: int): (m: int)
    ensures m >= a && m >= b && (m == a || m == b)
  {
    if a >= b then a else b
  }

  function Product(sizes: seq<nat>): nat {
    if sizes == [] then 1 else sizes[0] * Product(sizes[1..])
  }

  ghost predicate Positive(sizes: seq<nat>) {
    forall d :: 0 <= d < |sizes| ==> sizes[d] >= 1
  }

  lemma {:induction false} ProductAppend(sizes: seq<nat>, t: nat)
    ensures Product(sizes + [t]) == Product(sizes) * t
  {
    if sizes != [] {
      ProductAppend(sizes[1..], t);
      assert (sizes + [t])[1..] == sizes[1..] + [t];
      assert sizes[0] * (Product(sizes[1..]) * t) == sizes[0] * Product(sizes[1..]) * t;
    }
  }

  lemma {:induction false} ProductPositive(sizes: seq<nat>)
    requires Positive(sizes)
    ensures Product(sizes) >= 1
  {
    if sizes != [] {
      ProductPositive(sizes[1..]);
      MulMono(1, sizes[0], Product(sizes[1..]));
    }
  }

  // Sizes

  /** Rounding up loses nothing: t times the rounded-up quotient covers what was divided. */
  lemma {:induction false} CeilingCovers(p: nat, remaining: nat, t: nat, c: nat)
    requires t >= 1 && p * remaining >= c
    ensures p * t * ((remaining + t - 1) / t) >= c
  {
    var q := (remaining + t - 1) / t;
    assert t * q >= remaining;
    MulMono(remaining, t * q, p);
    assert t * q * p == p * t * q;
  }

  /** Splits a cardinality over k dimensions.  Whatever sizes the root and the draw for the
      head dimension suggest, every dimension has a value and the space is large enough. */
  method DimSizes(root: (nat, nat) -> int, headSize: nat, c: nat, k: nat) returns (sizes: array<nat>)
    requires k >= 1
    ensures fresh(sizes) && sizes.Length == k && Positive(sizes[..])
    ensures Product(sizes[..]) >= c
  {
    sizes := new nat[k](_ => 1);
    var remaining: nat := c;
    for d := 0 to k - 1
      invariant Positive(sizes[..d]) && Product(sizes[..d]) * remaining >= c
    {
      var t := root(remaining, k - d);
      if d == 0 && headSize < t {
        t := headSize;
      }
      t := Max(1, t);
      CeilingCovers(Product(sizes[..d]), remaining, t, c);
      ProductAppend(sizes[..d], t);
      sizes[d] := t;
      assert sizes[..d + 1] == sizes[..d] + [t];
      remaining := (remaining + t - 1) / t;
    }
    var last := Max(1, remaining);
    MulMono(remaining, last, Product(sizes[..k - 1]));
    ProductAppend(sizes[..k - 1], last);
    sizes[k - 1] := last;
    assert sizes[..] == sizes[..k - 1] + [last];
  }

  // Digits

  /** The value a series picks in each dimension, lowest dimension first. */
  function Digits(j: nat, sizes: seq<nat>): (digits: seq<nat>)
    requires Positive(sizes)
    ensures |digits| == |sizes|
  {
    if sizes == [] then [] else [j % sizes[0]] + Digits(j / sizes[0], sizes[1..])
  }

  /** The series with given digits. */
  function Compose(digits: seq<nat>, sizes: seq<nat>): nat
    requires |digits| == |sizes|
  {
    if sizes == [] then 0 else digits[0] + sizes[0] * Compose(digits[1..], sizes[1..])
  }

  ghost predicate InSpace(digits: seq<nat>, sizes: seq<nat>) {
    |digits| == |sizes| && forall d :: 0 <= d < |sizes| ==> digits[d] < sizes[d]
  }

  method AppendAttrs(j: nat, sizes: seq<nat>) returns (digits: seq<nat>)
    requires Positive(sizes)
    ensures digits == Digits(j, sizes)
  {
    digits := [];
    var rem := j;
    for d := 0 to |sizes|
      invariant digits + Digits(rem, sizes[d..]) == Digits(j, sizes)
      invariant |digits| == d
    {
      NextDigit(digits, rem, sizes, d);
      digits := digits + [rem % sizes[d]];
      rem := rem / sizes[d];
    }
    assert sizes[|sizes|..] == [];
  }

  lemma {:induction false} NextDigit(digits: seq<nat>, rem: nat, sizes: seq<nat>, d: nat)
    requires Positive(sizes) && d < |sizes|
    ensures digits + Digits(rem, sizes[d..]) == digits + [rem % sizes[d]] + Digits(rem / sizes[d], sizes[d + 1..])
  {
    DigitsStep(rem, sizes[d..]);
    assert sizes[d..][0] == sizes[d] && sizes[d..][1..] == sizes[d + 1..];
  }

  lemma {:induction false} DigitsStep(j: nat, sizes: seq<nat>)
    requires Positive(sizes) && sizes != []
    ensures Digits(j, sizes) == [j % sizes[0]] + Digits(j / sizes[0], sizes[1..])
  {
  }

  lemma {:induction false} DigitsInSpace(j: nat, sizes: seq<nat>)
    requires Positive(sizes)
    ensures InSpace(Digits(j, sizes), sizes)
  {
    if sizes != [] {
      var digits, rest := Digits(j, sizes), Digits(j / sizes[0], sizes[1..]);
      DigitsInSpace(j / sizes[0], sizes[1..]);
      assert forall d :: 1 <= d < |sizes| ==> digits[d] == rest[d - 1] && sizes[d] == sizes[1..][d - 1];
    }
  }

  /** Digits tell the series: decoding recovers the index. */
  lemma {:induction false} DigitsDecode(j: nat, sizes: seq<nat>)
    requires Positive(sizes) && j < Product(sizes)
    ensures Compose(Digits(j, sizes), sizes) == j
  {
    if sizes != [] {
      var s, rest := sizes[0], sizes[1..];
      QuotientBelow(j, s, Product(rest));
      DigitsDecode(j / s, rest);
      assert Digits(j, sizes)[1..] == Digits(j / s, rest);
      DivMod(j, s);
    }
  }

  lemma {:induction false} DivMod(j: nat, s: nat)
    requires s >= 1
    ensures j % s + s * (j / s) == j
  {
  }

  lemma {:induction false} QuotientBelow(j: nat, s: nat, p: nat)
    requires s >= 1
    ensures j < s * p ==> j / s < p
    ensures j / s * s <= j
  {
    if j / s >= p {
      MulMono(p, j / s, s);
    }
  }

  /** Conversely every digit vector in range is the digits of a series in range. */
  lemma {:induction false} ComposeEncodes(digits: seq<nat>, sizes: seq<nat>)
    requires Positive(sizes) && InSpace(digits, sizes)
    ensures Compose(digits, sizes) < Product(sizes)
    ensures Digits(Compose(digits, sizes), sizes) == digits
  {
    if sizes != [] {
      var s, rest := sizes[0], Compose(digits[1..], sizes[1..]);
      ComposeEncodes(digits[1..], sizes[1..]);
      MulMono(rest + 1, Product(sizes[1..]), s);
      assert (rest + 1) * s == s * rest + s;
      QuotientIs(digits[0] + s * rest, s, rest, digits[0]);
    }
  }

  /** Cardinality is exact: the series below the cardinality have pairwise distinct digits. */
  lemma {:induction false} DigitsDistinct(i: nat, j: nat, sizes: seq<nat>)
    requires Positive(sizes) && i < Product(sizes) && j < Product(sizes)
    ensures Digits(i, sizes) == Digits(j, sizes) <==> i == j
  {
    DigitsDecode(i, sizes);
    DigitsDecode(j, sizes);
  }

  // Where a single dimension is exercised.

  /** How many values of dimension d the first c series use. */
  function Used(sizes: seq<nat>, c: nat, d: nat): nat
    requires Positive(sizes) && d < |sizes|
  {
    ProductPositive(sizes[..d]);
    var stride := Product(sizes[..d]);
    var turns := (c + stride - 1) / stride;
    if turns < sizes[d] then turns else sizes[d]
  }

  /** Digit d counts the strides of the dimensions below it. */
  lemma {:induction false} DigitAt(j: nat, sizes: seq<nat>, d: nat, stride: nat)
    requires Positive(sizes) && d < |sizes| && stride == Product(sizes[..d])
    ensures stride >= 1 && Digits(j, sizes)[d] == j / stride % sizes[d]
  {
    ProductPositive(sizes[..d]);
    if d == 0 {
      assert stride == 1 && j / 1 == j;
    } else {
      var p := Product(sizes[1..][..d - 1]);
      StrideStep(sizes, d);
      DigitAt(j / sizes[0], sizes[1..], d - 1, p);
      DivideTwice(j, sizes[0], p);
    }
  }

  lemma {:induction false} StrideStep(sizes: seq<nat>, d: nat)
    requires 0 < d < |sizes|
    ensures Product(sizes[..d]) == sizes[0] * Product(sizes[1..][..d - 1])
  {
    assert sizes[..d][1..] == sizes[1..][..d - 1];
  }

  lemma {:induction false} DivideTwice(x: nat, m: nat, n: nat)
    requires m >= 1 && n >= 1
    ensures m * n >= 1 && x / m / n == x / (m * n)
  {
    var q := x / m;
    var r, q', r' := x - q * m, q / n, q - q / n * n;
    MulMono(1, m, n);
    Remainder(x, m);
    Remainder(q, n);
    Regroup(q', n, r', m);
    MulMono(r' + 1, n, m);
    Distributed(r', m);
    QuotientIs(x, m * n, q', r' * m + r);
  }

  lemma {:induction false} Remainder(x: nat, m: nat)
    requires m >= 1
    ensures 0 <= x - x / m * m < m
  {
    assert x == x / m * m + x % m;
  }

  lemma {:induction false} Regroup(a: int, n: int, b: int, m: int)
    ensures (a * n + b) * m == a * (m * n) + b * m
    ensures n * m == m * n
  {
  }

  lemma {:induction false} Distributed(b: int, m: int)
    ensures (b + 1) * m == b * m + m
  {
  }

  /** The first c series use no value of a dimension beyond the count Used gives it. */
  lemma {:induction false} DigitUsed(j: nat, sizes: seq<nat>, c: nat, d: nat)
    requires Positive(sizes) && j < c && d < |sizes|
    ensures Digits(j, sizes)[d] < Used(sizes, c, d)
  {
    DigitAt(j, sizes, d, Product(sizes[..d]));
    WithinTurns(j, Product(sizes[..d]), c, sizes[d]);
  }

  lemma {:induction false} WithinTurns(j: nat, p: nat, c: nat, m: nat)
    requires p >= 1 && m >= 1 && j < c
    ensures j / p % m < m && j / p % m < (c + p - 1) / p
  {
    QuotientBelow(j, p, 0);
    TurnsCover(j / p, p, c);
    Wrapped(j / p, m);
  }

  lemma {:induction false} Wrapped(q: nat, m: nat)
    requires m >= 1
    ensures q % m < m && q % m <= q
  {
  }

  lemma {:induction false} TurnsCover(q: nat, p: nat, c: nat)
    requires p >= 1
    ensures q < (c + p - 1) / p <==> q * p < c
  {
    var turns := (c + p - 1) / p;
    var r := (c + p - 1) % p;
    assert c + p - 1 == turns * p + r;
    if q < turns {
      MulMono(q + 1, turns, p);
      assert (q + 1) * p == q * p + p;
    } else {
      MulMono(turns, q, p);
    }
  }

  function Zeros(n: nat): (z: seq<nat>)
    ensures |z| == n && forall i :: 0 <= i < n ==> z[i] == 0
  {
    seq(n, _ => 0)
  }

  lemma {:induction false} ComposeUnit(sizes: seq<nat>, d: nat, v: nat)
    requires d < |sizes|
    ensures Compose(Zeros(|sizes|)[d := v], sizes) == v * Product(sizes[..d])
  {
    var s, rest := sizes[0], sizes[1..];
    if d == 0 {
      ComposeZero(rest);
      assert Zeros(|sizes|)[0 := v][1..] == Zeros(|rest|);
    } else {
      var p := Product(rest[..d - 1]);
      ComposeUnit(rest, d - 1, v);
      ComposeShift(sizes, d, v);
      StrideStep(sizes, d);
      Reassociate(s, v, p);
    }
  }

  lemma {:induction false} ComposeShift(sizes: seq<nat>, d: nat, v: nat)
    requires 0 < d < |sizes|
    ensures Compose(Zeros(|sizes|)[d := v], sizes) == sizes[0] * Compose(Zeros(|sizes| - 1)[d - 1 := v], sizes[1..])
  {
    assert Zeros(|sizes|)[d := v][1..] == Zeros(|sizes| - 1)[d - 1 := v];
  }

  lemma {:induction false} Reassociate(s: int, v: int, p: int)
    ensures s * (v * p) == v * (s * p)
  {
  }

  lemma {:induction false} ComposeZero(sizes: seq<nat>)
    ensures Compose(Zeros(|sizes|), sizes) == 0
  {
    if sizes != [] {
      ComposeZero(sizes[1..]);
      assert Zeros(|sizes|)[1..] == Zeros(|sizes[1..]|);
    }
  }

  /** And it uses every value below: one of the first c series differs from series 0 exactly
      by holding value v in dimension d. */
  lemma {:induction false} ValueReached(sizes: seq<nat>, c: nat, d: nat, v: nat) returns (j: nat)
    requires Positive(sizes) && d < |sizes| && v < Used(sizes, c, d)
    ensures j < c && Digits(j, sizes) == Zeros(|sizes|)[d := v]
  {
    var digits := Zeros(|sizes|)[d := v];
    j := Compose(digits, sizes);
    ComposeUnit(sizes, d, v);
    ProductPositive(sizes[..d]);
    TurnsCover(v, Product(sizes[..d]), c);
    ComposeEncodes(digits, sizes);
  }
}
