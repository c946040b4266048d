/** The strings attributes carry, and exactly when they tell series apart.

    Digit vectors are always distinct; the strings the digits select need not be, because two
    of the vocabularies repeat. */
module Vocabularies {
  import opened Sweeps
  import opened Attributes

  const WORDS := 40

  /** The word tables behind the formatted values. */
  datatype Tables = Tables(adjectives: seq<string>, nouns: seq<string>)
  {
    predicate Valid() {
      && |adjectives| == WORDS && Distinct(adjectives) && AllPlain(adjectives)
      && |nouns| == WORDS && Distinct(nouns) && AllPlain(nouns)
    }
  }

  /** How an attribute key turns an index into a value. */
  datatype Vocabulary =
    | Pool(words: seq<string>)  // a natural pool of words, numbered once exhausted
    | Route
    | RpcService
    | Table
    | Operation
    | Numbered
  {
    predicate Valid() {
      Pool? ==> words != [] && Distinct(words) && forall i :: 0 <= i < |words| ==> '-' !in words[i]
    }
  }

  predicate Distinct(words: seq<string>) {
    forall i, j :: 0 <= i < j < |words| ==> words[i] != words[j]
  }

  /** Words of lower-case letters, so that no separator occurs in them. */
  predicate AllPlain(words: seq<string>) {
    forall i :: 0 <= i < |words| ==> IsPlain(words[i])
  }

  predicate IsPlain(word: string) {
    forall c :: c in word ==> 'a' <= c <= 'z'
  }

  // Decimal numerals

  function Digit(n: nat): (c: char)
    requires n < 10
    ensures '0' <= c <= '9'
  {
    '0' + n as char
  }

  function Itoa(n: nat): (s: string)
    ensures s != []
  {
    if n < 10 then [Digit(n)] else Itoa(n / 10) + [Digit(n % 10)]
  }

  lemma {:induction false} ItoaInjective(m: nat, n: nat)
    ensures Itoa(m) == Itoa(n) <==> m == n
  {
    if Itoa(m) == Itoa(n) {
      var s := Itoa(m);
      assert s[|s| - 1] == Digit(m % 10) == Digit(n % 10);
      if m >= 10 && n >= 10 {
        assert Itoa(m / 10) == s[..|s| - 1] == Itoa(n / 10);
        ItoaInjective(m / 10, n / 10);
      }
    }
  }

  /** The first separator of a + [d] + x stands right after a, when a has none. */
  lemma {:induction false} FirstSeparator(a: string, x: string, d: char)
    requires d !in a
    ensures var s := a + [d] + x; s[|a|] == d && forall i :: 0 <= i < |a| ==> s[i] != d
  {
    assert forall i :: 0 <= i < |a| ==> (a + [d] + x)[i] == a[i];
  }

  /** A separator that occurs in neither left part splits a string in one way only. */
  lemma {:induction false} SplitAt(a: string, x: string, b: string, y: string, d: char)
    requires d !in a && d !in b
    requires a + [d] + x == b + [d] + y
    ensures a == b && x == y
  {
    var s, t := a + [d] + x, b + [d] + y;
    FirstSeparator(a, x, d);
    FirstSeparator(b, y, d);
    assert |a| == |b|;
    assert a == s[..|a|] && b == t[..|b|];
    assert x == s[|a| + 1..] && y == t[|b| + 1..];
  }

  // Values

  function AttrValue(t: Tables, v: Vocabulary, idx: nat): string
    requires t.Valid() && v.Valid()
  {
    match v
    case Pool(words) =>
      if idx < |words| then words[idx] else words[idx % |words|] + "-" + Itoa(idx / |words|)
    case Route => "/api/v1/" + t.nouns[idx % WORDS] + "/" + Itoa(idx / WORDS)
    case RpcService => t.nouns[idx % WORDS] + "." + t.adjectives[idx % WORDS] + "Service"
    case Table => t.adjectives[idx % WORDS] + "_" + (t.nouns[idx / 3 % WORDS] + "_" + Itoa(idx / WORDS))
    case Operation => t.adjectives[idx % WORDS] + "-" + t.nouns[idx / 7 % WORDS]
    case Numbered => t.nouns[idx % WORDS] + "-" + Itoa(idx)
  }

  /** The index from which a vocabulary repeats, if it does. */
  predicate WithinPeriod(v: Vocabulary, n: nat) {
    (v.RpcService? ==> n <= 40) && (v.Operation? ==> n <= 280)
  }

  lemma {:induction false} SameWord(words: seq<string>, i: nat, j: nat)
    requires Distinct(words) && i < |words| && j < |words| && words[i] == words[j]
    ensures i == j
  {
  }

  lemma {:induction false} NumberedHaveHyphen(words: seq<string>, i: nat, t: Tables)
    requires t.Valid() && Pool(words).Valid()
    ensures '-' in AttrValue(t, Pool(words), i) <==> i >= |words|
  {
    if i >= |words| {
      assert AttrValue(t, Pool(words), i)[|words[i % |words|]|] == '-';
    }
  }

  lemma {:induction false} PoolInjective(words: seq<string>, i: nat, j: nat, t: Tables)
    requires t.Valid() && Pool(words).Valid()
    requires AttrValue(t, Pool(words), i) == AttrValue(t, Pool(words), j)
    ensures i == j
  {
    var n := |words|;
    NumberedHaveHyphen(words, i, t);
    NumberedHaveHyphen(words, j, t);
    if i < n && j < n {
      SameWord(words, i, j);
    } else if i >= n && j >= n {
      SplitAt(words[i % n], Itoa(i / n), words[j % n], Itoa(j / n), '-');
      SameWord(words, i % n, j % n);
      ItoaInjective(i / n, j / n);
      DivMod(i, n);
      DivMod(j, n);
    }
  }

  lemma {:induction false} TableInjective(t: Tables, i: nat, j: nat)
    requires t.Valid() && AttrValue(t, Table, i) == AttrValue(t, Table, j)
    ensures i == j
  {
    var x, y := t.nouns[i / 3 % WORDS] + "_" + Itoa(i / WORDS), t.nouns[j / 3 % WORDS] + "_" + Itoa(j / WORDS);
    NoSeparator(t.adjectives, i % WORDS, '_');
    NoSeparator(t.adjectives, j % WORDS, '_');
    SplitAt(t.adjectives[i % WORDS], x, t.adjectives[j % WORDS], y, '_');
    SameWord(t.adjectives, i % WORDS, j % WORDS);
    NoSeparator(t.nouns, i / 3 % WORDS, '_');
    NoSeparator(t.nouns, j / 3 % WORDS, '_');
    SplitAt(t.nouns[i / 3 % WORDS], Itoa(i / WORDS), t.nouns[j / 3 % WORDS], Itoa(j / WORDS), '_');
    ItoaInjective(i / WORDS, j / WORDS);
  }

  lemma {:induction false} NoSeparator(words: seq<string>, i: nat, d: char)
    requires AllPlain(words) && i < |words| && !('a' <= d <= 'z')
    ensures d !in words[i]
  {
    assert IsPlain(words[i]);
  }

  lemma {:induction false} RouteInjective(t: Tables, i: nat, j: nat)
    requires t.Valid() && AttrValue(t, Route, i) == AttrValue(t, Route, j)
    ensures i == j
  {
    var x, y := t.nouns[i % WORDS] + "/" + Itoa(i / WORDS), t.nouns[j % WORDS] + "/" + Itoa(j / WORDS);
    assert AttrValue(t, Route, i)[8..] == x && AttrValue(t, Route, j)[8..] == y;
    NoSeparator(t.nouns, i % WORDS, '/');
    NoSeparator(t.nouns, j % WORDS, '/');
    SplitAt(t.nouns[i % WORDS], Itoa(i / WORDS), t.nouns[j % WORDS], Itoa(j / WORDS), '/');
    SameWord(t.nouns, i % WORDS, j % WORDS);
    ItoaInjective(i / WORDS, j / WORDS);
  }

  lemma {:induction false} NumberedInjective(t: Tables, i: nat, j: nat)
    requires t.Valid() && AttrValue(t, Numbered, i) == AttrValue(t, Numbered, j)
    ensures i == j
  {
    NoSeparator(t.nouns, i % WORDS, '-');
    NoSeparator(t.nouns, j % WORDS, '-');
    SplitAt(t.nouns[i % WORDS], Itoa(i), t.nouns[j % WORDS], Itoa(j), '-');
    ItoaInjective(i, j);
  }

  lemma {:induction false} RpcServiceRepeats(t: Tables, i: nat, j: nat)
    requires t.Valid()
    ensures AttrValue(t, RpcService, i) == AttrValue(t, RpcService, j) <==> i % WORDS == j % WORDS
  {
    if AttrValue(t, RpcService, i) == AttrValue(t, RpcService, j) {
      var x, y := t.adjectives[i % WORDS] + "Service", t.adjectives[j % WORDS] + "Service";
      assert AttrValue(t, RpcService, i) == t.nouns[i % WORDS] + "." + x;
      assert AttrValue(t, RpcService, j) == t.nouns[j % WORDS] + "." + y;
      NoSeparator(t.nouns, i % WORDS, '.');
      NoSeparator(t.nouns, j % WORDS, '.');
      SplitAt(t.nouns[i % WORDS], x, t.nouns[j % WORDS], y, '.');
      SameWord(t.nouns, i % WORDS, j % WORDS);
    }
  }

  /** Below 280 an index is determined by its remainder modulo 40 and its quotient by 7. */
  lemma {:induction false} PicksTell(i: nat, j: nat)
    ensures i < 280 && j < 280 && i % 40 == j % 40 && i / 7 % 40 == j / 7 % 40 ==> i == j
  {
    if i < 280 && j < 280 && i / 7 % 40 == j / 7 % 40 {
      QuotientIs(i / 7, 40, 0, i / 7);
      QuotientIs(j / 7, 40, 0, j / 7);
      assert i / 7 == j / 7;
      assert -7 < i - j < 7;
    }
  }

  lemma {:induction false} OperationRepeats(t: Tables, i: nat, j: nat)
    requires t.Valid()
    ensures AttrValue(t, Operation, i) == AttrValue(t, Operation, j)
      <==> i % WORDS == j % WORDS && i / 7 % WORDS == j / 7 % WORDS
    ensures i < 280 && j < 280 ==>
      (AttrValue(t, Operation, i) == AttrValue(t, Operation, j) <==> i == j)
  {
    PicksTell(i, j);
    if AttrValue(t, Operation, i) == AttrValue(t, Operation, j) {
      NoSeparator(t.adjectives, i % WORDS, '-');
      NoSeparator(t.adjectives, j % WORDS, '-');
      SplitAt(t.adjectives[i % WORDS], t.nouns[i / 7 % WORDS], t.adjectives[j % WORDS], t.nouns[j / 7 % WORDS], '-');
      SameWord(t.adjectives, i % WORDS, j % WORDS);
      SameWord(t.nouns, i / 7 % WORDS, j / 7 % WORDS);
    }
  }

  /** Within its period a vocabulary never gives two indexes the same string. */
  lemma {:induction false} ValuesDistinct(t: Tables, v: Vocabulary, n: nat, i: nat, j: nat)
    requires t.Valid() && v.Valid() && WithinPeriod(v, n) && i < n && j < n
    ensures AttrValue(t, v, i) == AttrValue(t, v, j) <==> i == j
  {
    if AttrValue(t, v, i) == AttrValue(t, v, j) {
      match v
      case Pool(words) => PoolInjective(words, i, j, t);
      case Route => RouteInjective(t, i, j);
      case RpcService => RpcServiceRepeats(t, i, j);
      case Table => TableInjective(t, i, j);
      case Operation => OperationRepeats(t, i, j);
      case Numbered => NumberedInjective(t, i, j);
    }
  }

  /** Beyond its period it does: some index below n repeats index 0. */
  lemma {:induction false} ValuesRepeat(t: Tables, v: Vocabulary, n: nat) returns (i: nat)
    requires t.Valid() && v.Valid() && !WithinPeriod(v, n)
    ensures 0 < i < n && AttrValue(t, v, i) == AttrValue(t, v, 0)
  {
    if v.RpcService? {
      i := 40;
      RpcServiceRepeats(t, 40, 0);
    } else {
      i := 280;
      OperationRepeats(t, 280, 0);
    }
  }

  // Attribute vectors

  datatype Dimension = Dimension(vocabulary: Vocabulary, size: nat)

  ghost predicate ValidDims(dims: seq<Dimension>) {
    forall d :: 0 <= d < |dims| ==> dims[d].vocabulary.Valid() && dims[d].size >= 1
  }

  function Sizes(dims: seq<Dimension>): (sizes: seq<nat>)
    ensures |sizes| == |dims| && forall d :: 0 <= d < |dims| ==> sizes[d] == dims[d].size
  {
    seq(|dims|, d requires 0 <= d < |dims| => dims[d].size)
  }

  /** The attribute values series j carries. */
  ghost function Vector(t: Tables, dims: seq<Dimension>, j: nat): (values: seq<string>)
    requires t.Valid() && ValidDims(dims)
    ensures |values| == |dims|
    ensures forall d :: 0 <= d < |dims| ==> values[d] == AttrValue(t, dims[d].vocabulary, Digits(j, Sizes(dims))[d])
  {
    seq(|dims|, d requires 0 <= d < |dims| => AttrValue(t, dims[d].vocabulary, Digits(j, Sizes(dims))[d]))
  }

  ghost predicate AllDistinct(t: Tables, dims: seq<Dimension>, c: nat)
    requires t.Valid() && ValidDims(dims)
  {
    forall i: nat, j: nat :: i < j < c ==> Vector(t, dims, i) != Vector(t, dims, j)
  }

  /** No dimension is driven past the period of its vocabulary by the first c series. */
  ghost predicate WithinPeriods(dims: seq<Dimension>, c: nat)
    requires ValidDims(dims)
  {
    forall d :: 0 <= d < |dims| ==> WithinPeriod(dims[d].vocabulary, Used(Sizes(dims), c, d))
  }

  /** Exact cardinality on the wire: the c series of a metric carry pairwise distinct
      attributes if and only if no rpc.service dimension uses more than 40 values and no
      operation dimension more than 280. */
  lemma {:induction false} VectorsDistinctIff(t: Tables, dims: seq<Dimension>, c: nat)
    requires t.Valid() && ValidDims(dims) && c <= Product(Sizes(dims))
    ensures AllDistinct(t, dims, c) <==> WithinPeriods(dims, c)
  {
    if WithinPeriods(dims, c) {
      forall i: nat, j: nat | i < j < c
        ensures Vector(t, dims, i) != Vector(t, dims, j)
      {
        DifferSomewhere(t, dims, c, i, j);
      }
    } else {
      var d :| 0 <= d < |dims| && !WithinPeriod(dims[d].vocabulary, Used(Sizes(dims), c, d));
      CollideSomewhere(t, dims, c, d);
    }
  }

  /** With 41 series over 41 values of rpc.service, series 0 and 40 carry the same attributes. */
  lemma {:induction false} FortyFirstRepeats(t: Tables)
    requires t.Valid()
    ensures var dims := [Dimension(RpcService, 41)];
      ValidDims(dims) && Vector(t, dims, 0) == Vector(t, dims, 40) && !AllDistinct(t, dims, 41)
  {
    var dims := [Dimension(RpcService, 41)];
    DigitAt(0, Sizes(dims), 0, 1);
    DigitAt(40, Sizes(dims), 0, 1);
    RpcServiceRepeats(t, 0, 40);
    assert Vector(t, dims, 0)[0] == Vector(t, dims, 40)[0];
    assert Vector(t, dims, 0) == Vector(t, dims, 40);
  }

  lemma {:induction false} DifferSomewhere(t: Tables, dims: seq<Dimension>, c: nat, i: nat, j: nat)
    requires t.Valid() && ValidDims(dims) && c <= Product(Sizes(dims)) && WithinPeriods(dims, c) && i < j < c
    ensures Vector(t, dims, i) != Vector(t, dims, j)
  {
    var sizes := Sizes(dims);
    DigitsDistinct(i, j, sizes);
    var a, b := Digits(i, sizes), Digits(j, sizes);
    var d :| 0 <= d < |dims| && a[d] != b[d];
    DigitUsed(i, sizes, c, d);
    DigitUsed(j, sizes, c, d);
    ValuesDistinct(t, dims[d].vocabulary, Used(sizes, c, d), a[d], b[d]);
    assert Vector(t, dims, i)[d] != Vector(t, dims, j)[d];
  }

  lemma {:induction false} CollideSomewhere(t: Tables, dims: seq<Dimension>, c: nat, d: nat)
    requires t.Valid() && ValidDims(dims) && d < |dims|
    requires !WithinPeriod(dims[d].vocabulary, Used(Sizes(dims), c, d))
    ensures !AllDistinct(t, dims, c)
  {
    var sizes := Sizes(dims);
    var v := ValuesRepeat(t, dims[d].vocabulary, Used(sizes, c, d));
    var i := ValueReached(sizes, c, d, 0);
    var j := ValueReached(sizes, c, d, v);
    assert Digits(i, sizes)[d] != Digits(j, sizes)[d];
    assert Vector(t, dims, i) == Vector(t, dims, j);
    assert i != j;
    assert if i < j then Vector(t, dims, i) == Vector(t, dims, j) else Vector(t, dims, j) == Vector(t, dims, i);
  }
}
