/** Fingerprints of texts and of attribute sets, and what they tell apart. */
module Fingerprints {
  import opened Words
  import Mixing

  type Byte = x: int | 0 <= x < 256

  type Text = seq<Byte>

  datatype KV = KV(key: Text, value: Text)

  // Digests of texts

  const FNV_OFFSET: Word := 14695981039346656037
  const FNV_PRIME: Word := 1099511628211

  /** FNV-1a over the first n bytes. */
  function FnvPrefix(h: Word, s: Text, n: nat): Word
    requires n <= |s|
  {
    if n == 0 then h else Mul(Xor(FnvPrefix(h, s, n - 1), s[n - 1]), FNV_PRIME)
  }

  function Fnv(h: Word, s: Text): Word {
    FnvPrefix(h, s, |s|)
  }

  method FnvStr(h: Word, s: Text) returns (r: Word)
    ensures r == Fnv(h, s)
  {
    r := h;
    for i := 0 to |s|
      invariant r == FnvPrefix(h, s, i)
    {
      r := Xor(r, s[i]);
      r := Mul(r, FNV_PRIME);
    }
  }

  /** Closes a field with a delimiter so that neighbouring fields cannot run together. */
  function Delimit(h: Word, mark: Byte): Word {
    Mul(Xor(h, mark), FNV_PRIME)
  }

  function FnvKVPair(kv: KV): Word {
    Delimit(Fnv(Delimit(Fnv(FNV_OFFSET, kv.key), 0x1f), kv.value), 0x1e)
  }

  // What the digest of a text tells

  lemma {:induction false} FnvPrefixIs(h: Word, s: Text, t: Text, n: nat)
    requires n <= |s| && s <= t
    ensures FnvPrefix(h, s, n) == FnvPrefix(h, t, n)
  {
    if n > 0 {
      FnvPrefixIs(h, s, t, n - 1);
    }
  }

  lemma {:induction false} FnvBeyond(h: Word, s: Text, t: Text, n: nat)
    requires n <= |t|
    ensures FnvPrefix(h, s + t, |s| + n) == FnvPrefix(Fnv(h, s), t, n)
  {
    if n == 0 {
      FnvPrefixIs(h, s, s + t, |s|);
    } else {
      FnvBeyond(h, s, t, n - 1);
    }
  }

  /** Hashing can be continued: the digest of a text is the digest of its end from the digest
      of its beginning. */
  lemma {:induction false} FnvAppend(h: Word, s: Text, t: Text)
    ensures Fnv(h, s + t) == Fnv(Fnv(h, s), t)
  {
    FnvBeyond(h, s, t, |t|);
  }

  lemma {:induction false} FnvDelimit(h: Word, s: Text, mark: Byte)
    ensures Fnv(h, s + [mark]) == Delimit(Fnv(h, s), mark)
  {
    FnvAppend(h, s, [mark]);
    assert FnvPrefix(Fnv(h, s), [mark], 0) == Fnv(h, s);
  }

  const INV_FNV_PRIME: Word := 14886173955864302971

  lemma {:induction false} DelimitInjective(h: Word, b: Byte, h': Word, b': Byte)
    ensures Delimit(h, b) == Delimit(h', b) <==> h == h'
    ensures Delimit(h, b) == Delimit(h, b') <==> b == b'
  {
    FnvPrimeInverse(Xor(h, b));
    FnvPrimeInverse(Xor(h', b));
    FnvPrimeInverse(Xor(h, b'));
    XorCancelRight(b, h, h');
    XorCancel(h, b, b');
  }

  lemma {:induction false} FnvPrimeInverse(x: Word)
    ensures Mul(Mul(x, FNV_PRIME), INV_FNV_PRIME) == x
  {
    MulInverse(x, FNV_PRIME, INV_FNV_PRIME);
  }

  /** The same text from different digests gives different digests. */
  lemma {:induction false} FnvKeepsApart(h: Word, h': Word, s: Text, n: nat)
    requires n <= |s|
    ensures FnvPrefix(h, s, n) == FnvPrefix(h', s, n) <==> h == h'
  {
    if n > 0 {
      FnvKeepsApart(h, h', s, n - 1);
      DelimitInjective(FnvPrefix(h, s, n - 1), s[n - 1], FnvPrefix(h', s, n - 1), s[n - 1]);
    }
  }

  /** Every byte counts: texts that differ in one byte have different digests. */
  lemma {:induction false} EveryByteCounts(h: Word, s: Text, i: nat, b: Byte)
    requires i < |s|
    ensures Fnv(h, s[i := b]) == Fnv(h, s) <==> b == s[i]
  {
    var p, q := s[..i], s[i + 1..];
    assert s == p + [s[i]] + q && s[i := b] == p + [b] + q;
    FnvAppend(h, p + [s[i]], q);
    FnvAppend(h, p + [b], q);
    FnvDelimit(h, p, s[i]);
    FnvDelimit(h, p, b);
    FnvKeepsApart(Fnv(h, p + [b]), Fnv(h, p + [s[i]]), q, |q|);
    DelimitInjective(Fnv(h, p), b, Fnv(h, p), s[i]);
  }

  // Joined texts

  /** Fields run together with a mark between each two of them. */
  function Join(fields: seq<Text>, marks: seq<Byte>): Text
    requires |fields| == |marks| + 1
    decreases |marks|
  {
    if marks == [] then fields[0] else fields[0] + [marks[0]] + Join(fields[1..], marks[1..])
  }

  /** Folding fields and marks one after the other, as the group keys do. */
  function FoldMarked(h: Word, fields: seq<Text>, marks: seq<Byte>): Word
    requires |fields| == |marks| + 1
    decreases |marks|
  {
    if marks == [] then Fnv(h, fields[0])
    else FoldMarked(Delimit(Fnv(h, fields[0]), marks[0]), fields[1..], marks[1..])
  }

  /** ... is hashing the joined text. */
  lemma {:induction false} FoldMarkedIs(h: Word, fields: seq<Text>, marks: seq<Byte>)
    requires |fields| == |marks| + 1
    ensures FoldMarked(h, fields, marks) == Fnv(h, Join(fields, marks))
    decreases |marks|
  {
    if marks != [] {
      var rest := Join(fields[1..], marks[1..]);
      FoldMarkedIs(Delimit(Fnv(h, fields[0]), marks[0]), fields[1..], marks[1..]);
      FnvAppend(h, fields[0] + [marks[0]], rest);
      FnvDelimit(h, fields[0], marks[0]);
    }
  }

  /** Some mark occurs in one of its two neighbouring fields. */
  predicate Ambiguous(fields: seq<Text>, marks: seq<Byte>)
    requires |fields| == |marks| + 1
  {
    exists i :: 0 <= i < |marks| && Strays(fields, marks, i)
  }

  predicate Strays(fields: seq<Text>, marks: seq<Byte>, i: nat)
    requires |fields| == |marks| + 1 && i < |marks|
  {
    marks[i] in fields[i] || marks[i] in fields[i + 1]
  }

  predicate Different(marks: seq<Byte>) {
    forall i, j :: 0 <= i < j < |marks| ==> marks[i] != marks[j]
  }

  lemma {:induction false} RestClear(fields: seq<Text>, marks: seq<Byte>)
    requires |fields| == |marks| + 1 && marks != [] && Different(marks) && !Ambiguous(fields, marks)
    ensures marks[0] !in fields[0] && marks[0] !in fields[1]
    ensures Different(marks[1..]) && !Ambiguous(fields[1..], marks[1..])
  {
    assert !Strays(fields, marks, 0);
    forall i | 0 <= i < |marks| - 1
      ensures !Strays(fields[1..], marks[1..], i)
    {
      assert !Strays(fields, marks, i + 1);
    }
  }

  /** A second reading of an unambiguous text cannot put a mark behind the next one of the
      first: from there on every mark would be late, and the last has nowhere to go. */
  lemma {:induction false} NeverLate(fields: seq<Text>, marks: seq<Byte>, skipped: Text, others: seq<Text>)
    requires |fields| == |others| == |marks| + 1 && marks != [] && Different(marks) && !Ambiguous(fields, marks)
    ensures Join(fields[1..], marks[1..]) != skipped + Join(others, marks)
    decreases |marks|
  {
    RestClear(fields, marks);
    var s, t := Join(fields[1..], marks[1..]), skipped + Join(others, marks);
    var p, q := |skipped| + |others[0]|, |fields[1]|;
    assert p < |t| && t[p] == marks[0];
    if |marks| == 1 {
      assert s == fields[1];
    } else if p <= q {
      JoinTail(fields, marks);
      assert s[p] == if p < q then fields[1][p] else marks[1];
    } else {
      RestClear(fields[1..], marks[1..]);
      JoinTail(fields, marks);
      var late := t[q + 1..p + 1];
      assert t[p + 1..] == Join(others[1..], marks[1..]);
      assert s[q + 1..] == Join(fields[2..], marks[2..]);
      assert t[q + 1..] == late + Join(others[1..], marks[1..]);
      assert fields[1..][1..] == fields[2..] && marks[1..][1..] == marks[2..];
      NeverLate(fields[1..], marks[1..], late, others[1..]);
    }
  }

  lemma {:induction false} SameCut(a: Text, x: Text, b: Text, y: Text, mark: Byte)
    requires |a| == |b|
    ensures a + [mark] + x == b + [mark] + y <==> a == b && x == y
  {
    var s, t := a + [mark] + x, b + [mark] + y;
    assert s[..|a|] == a && t[..|b|] == b && s[|a| + 1..] == x && t[|b| + 1..] == y;
  }

  /** An unambiguous text has one reading. */
  lemma {:induction false} OneReading(fields: seq<Text>, marks: seq<Byte>, others: seq<Text>)
    requires |fields| == |others| == |marks| + 1 && Different(marks) && !Ambiguous(fields, marks)
    ensures Join(fields, marks) == Join(others, marks) <==> fields == others
    decreases |marks|
  {
    var s, t := Join(fields, marks), Join(others, marks);
    var p, q := |fields[0]|, |others[0]|;
    if marks == [] {
      assert fields == [fields[0]] && others == [others[0]];
    } else if q < p {
      RestClear(fields, marks);
      assert s[q] == fields[0][q] && t[q] == marks[0];
    } else if p == q {
      RestClear(fields, marks);
      SameCut(fields[0], Join(fields[1..], marks[1..]), others[0], Join(others[1..], marks[1..]), marks[0]);
      OneReading(fields[1..], marks[1..], others[1..]);
      assert fields == [fields[0]] + fields[1..] && others == [others[0]] + others[1..];
    } else {
      var late := [others[0][p + 1..]] + others[1..];
      assert late[1..] == others[1..];
      assert s[p + 1..] == Join(fields[1..], marks[1..]);
      assert t[p + 1..] == Join(late, marks) == [] + Join(late, marks);
      NeverLate(fields, marks, [], late);
    }
  }

  /** Two neighbouring fields can be cut anew without changing the joined text. */
  lemma {:induction false} Recut(fields: seq<Text>, marks: seq<Byte>, i: nat, a: Text, b: Text)
    requires |fields| == |marks| + 1 && i < |marks|
    requires a + [marks[i]] + b == fields[i] + [marks[i]] + fields[i + 1]
    ensures Join(fields[i := a][i + 1 := b], marks) == Join(fields, marks)
    decreases |marks|
  {
    var others := fields[i := a][i + 1 := b];
    if i == 0 {
      RecutFirst(fields, marks, a, b);
    } else {
      Recut(fields[1..], marks[1..], i - 1, a, b);
      assert others[1..] == fields[1..][i - 1 := a][i := b];
    }
  }

  lemma {:induction false} RecutFirst(fields: seq<Text>, marks: seq<Byte>, a: Text, b: Text)
    requires |fields| == |marks| + 1 && marks != []
    requires a + [marks[0]] + b == fields[0] + [marks[0]] + fields[1]
    ensures Join(fields[0 := a][1 := b], marks) == Join(fields, marks)
  {
    var others := fields[0 := a][1 := b];
    if |marks| == 1 {
      assert Join(others[1..], marks[1..]) == b && Join(fields[1..], marks[1..]) == fields[1];
    } else {
      var rest := [marks[1]] + Join(fields[2..], marks[2..]);
      JoinTail(fields, marks);
      JoinTail(others, marks);
      assert others[2..] == fields[2..];
      assert Join(others, marks) == a + [marks[0]] + (b + rest) == a + [marks[0]] + b + rest;
      assert Join(fields, marks) == fields[0] + [marks[0]] + (fields[1] + rest) ==
        fields[0] + [marks[0]] + fields[1] + rest;
    }
  }

  lemma {:induction false} JoinTail(fields: seq<Text>, marks: seq<Byte>)
    requires |fields| == |marks| + 1 && |marks| > 1
    ensures Join(fields[1..], marks[1..]) == fields[1] + ([marks[1]] + Join(fields[2..], marks[2..]))
  {
    assert fields[1..][1..] == fields[2..] && marks[1..][1..] == marks[2..];
  }

  /** A stray mark makes for another reading. */
  lemma {:induction false} OtherReading(fields: seq<Text>, marks: seq<Byte>) returns (others: seq<Text>)
    requires |fields| == |marks| + 1 && Ambiguous(fields, marks)
    ensures |others| == |fields| && others != fields && Join(others, marks) == Join(fields, marks)
  {
    var i :| 0 <= i < |marks| && Strays(fields, marks, i);
    var (a, b) := CutAnew(fields[i], marks[i], fields[i + 1]);
    Recut(fields, marks, i, a, b);
    others := fields[i := a][i + 1 := b];
    assert others[i] == a;
  }

  /** Another cut of two fields around a mark. */
  ghost function CutAnew(s: Text, mark: Byte, t: Text): (cut: (Text, Text))
    requires mark in s || mark in t
    ensures cut.0 + [mark] + cut.1 == s + [mark] + t && cut.0 != s
  {
    if mark in s then
      var x :| 0 <= x < |s| && s[x] == mark;
      assert s == s[..x] + [mark] + s[x + 1..];
      (s[..x], s[x + 1..] + [mark] + t)
    else
      var x :| 0 <= x < |t| && t[x] == mark;
      assert t == t[..x] + [mark] + t[x + 1..];
      (s + [mark] + t[..x], t[x + 1..])
  }

  /** Marks keep fields apart exactly as far as they stay out of their neighbours: a joined text
      has a second reading if and only if some mark occurs in one of the two fields beside it. */
  lemma {:induction false} AmbiguousIff(fields: seq<Text>, marks: seq<Byte>)
    requires |fields| == |marks| + 1 && Different(marks)
    ensures (exists others :: |others| == |fields| && others != fields && Join(others, marks) == Join(fields, marks))
      <==> Ambiguous(fields, marks)
  {
    if Ambiguous(fields, marks) {
      var others := OtherReading(fields, marks);
    } else {
      forall others | |others| == |fields| && Join(others, marks) == Join(fields, marks)
        ensures others == fields
      {
        OneReading(fields, marks, others);
      }
    }
  }

  // Pairs

  const KEY_END: Byte := 0x1f
  const VALUE_END: Byte := 0x1e

  /** The text a pair is hashed as. */
  function PairText(kv: KV): Text {
    kv.key + [KEY_END] + kv.value + [VALUE_END]
  }

  lemma {:induction false} PairDigest(kv: KV)
    ensures FnvKVPair(kv) == Fnv(FNV_OFFSET, PairText(kv))
  {
    FnvDelimit(FNV_OFFSET, kv.key, KEY_END);
    FnvAppend(FNV_OFFSET, kv.key + [KEY_END], kv.value);
    FnvDelimit(FNV_OFFSET, kv.key + [KEY_END] + kv.value, VALUE_END);
  }

  lemma {:induction false} PairJoined(kv: KV)
    ensures PairText(kv) == Join([kv.key, kv.value], [KEY_END]) + [VALUE_END]
  {
    var fields, marks := [kv.key, kv.value], [KEY_END];
    assert fields[1..] == [kv.value] && marks[1..] == [];
  }

  lemma {:induction false} SamePairText(kv: KV, other: KV)
    ensures PairText(kv) == PairText(other) <==>
      Join([kv.key, kv.value], [KEY_END]) == Join([other.key, other.value], [KEY_END])
  {
    PairJoined(kv);
    PairJoined(other);
    var s, t := Join([kv.key, kv.value], [KEY_END]), Join([other.key, other.value], [KEY_END]);
    assert PairText(kv)[..|PairText(kv)| - 1] == s && PairText(other)[..|PairText(other)| - 1] == t;
  }

  /** The mark between key and value keeps pairs apart exactly as far as it does not occur in
      them: another pair is hashed as the same text if and only if this one contains it. */
  lemma {:induction false} PairAmbiguousIff(kv: KV)
    ensures (exists other: KV :: other != kv && PairText(other) == PairText(kv)) <==>
      KEY_END in kv.key || KEY_END in kv.value
  {
    var fields, marks := [kv.key, kv.value], [KEY_END];
    assert Strays(fields, marks, 0) <==> KEY_END in kv.key || KEY_END in kv.value;
    if Ambiguous(fields, marks) {
      var others := OtherReading(fields, marks);
      var other := KV(others[0], others[1]);
      assert others == [other.key, other.value];
      SamePairText(kv, other);
      assert other != kv && PairText(other) == PairText(kv);
    } else {
      forall other: KV | PairText(other) == PairText(kv)
        ensures other == kv
      {
        SamePairText(kv, other);
        OneReading(fields, marks, [other.key, other.value]);
        assert fields[0] == [other.key, other.value][0] && fields[1] == [other.key, other.value][1];
      }
    }
  }

  // Fingerprints of attribute sets

  const MIX64 := Mixing.SPLITMIX.(add := 0)

  const COUNT_LIMIT: int := 0x1_0000_0000

  /** The fingerprint of an attribute set: an exclusive or, a sum of mixed digests, a count. */
  datatype SetHash = SetHash(xor: Word, sum: Word, n: nat)

  const EMPTY := SetHash(0, 0, 0)

  function Fold(h: SetHash, digest: Word): SetHash {
    SetHash(Xor(h.xor, digest), Add(h.sum, MIX64.Mix(digest)), (h.n + 1) % COUNT_LIMIT)
  }

  function FoldKV(h: SetHash, kv: KV): SetHash {
    Fold(h, FnvKVPair(kv))
  }

  /** Folding a sequence from the left, up to position n. */
  function FoldUpTo<A, D>(f: (A, D) -> A, init: A, s: seq<D>, n: nat): A
    requires n <= |s|
  {
    if n == 0 then init else f(FoldUpTo(f, init, s, n - 1), s[n - 1])
  }

  function KVSetHash(kvs: seq<KV>): SetHash {
    FoldUpTo(FoldKV, EMPTY, kvs, |kvs|)
  }

  method HashKVSet(kvs: seq<KV>) returns (out: SetHash)
    ensures out == KVSetHash(kvs)
  {
    out := EMPTY;
    for i := 0 to |kvs|
      invariant out == FoldUpTo(FoldKV, EMPTY, kvs, i)
    {
      out := Fold(out, FnvKVPair(kvs[i]));
    }
  }

  /** Two digests can be folded in either order. */
  lemma {:induction false} FoldCommutes(h: SetHash, d: Word, d': Word)
    ensures Fold(Fold(h, d), d') == Fold(Fold(h, d'), d)
  {
    XorGroup(h.xor, d, d');
    XorGroup(h.xor, d', d);
    XorGroup(d, d', d);
    AddCommutes(h.sum, MIX64.Mix(d), MIX64.Mix(d'));
  }

  ghost predicate Commutes<A(!new), D(!new)>(f: (A, D) -> A) {
    forall a, d, d' :: f(f(a, d), d') == f(f(a, d'), d)
  }

  lemma {:induction false} SamePrefixFold<A, D>(f: (A, D) -> A, init: A, a: seq<D>, b: seq<D>, n: nat)
    requires n <= |a| && n <= |b| && forall i :: 0 <= i < n ==> a[i] == b[i]
    ensures FoldUpTo(f, init, a, n) == FoldUpTo(f, init, b, n)
  {
    if n > 0 {
      SamePrefixFold(f, init, a, b, n - 1);
    }
  }

  /** An element can be moved from any position to the end. */
  lemma {:induction false} MoveLast<A(!new), D(!new)>(f: (A, D) -> A, init: A, a: seq<D>, d: D, b: seq<D>, n: nat)
    requires Commutes(f) && n <= |b|
    ensures FoldUpTo(f, init, a + [d] + b, |a| + 1 + n) == f(FoldUpTo(f, init, a + b, |a| + n), d)
  {
    var s, t := a + [d] + b, a + b;
    if n == 0 {
      SamePrefixFold(f, init, s, t, |a|);
      assert s[|a|] == d;
    } else {
      MoveLast(f, init, a, d, b, n - 1);
      assert s[|a| + n] == t[|a| + n - 1] == b[n - 1];
    }
  }

  lemma {:induction false} WithoutOne<D>(s: seq<D>, i: nat)
    requires i < |s|
    ensures multiset(s[..i] + s[i + 1..]) == multiset(s) - multiset{s[i]}
    ensures s == s[..i] + [s[i]] + s[i + 1..]
  {
    assert s == s[..i] + [s[i]] + s[i + 1..];
  }

  lemma {:induction false} FoldWithout<A(!new), D(!new)>(f: (A, D) -> A, init: A, s: seq<D>, i: nat)
    requires Commutes(f) && i < |s|
    ensures var rest := s[..i] + s[i + 1..];
      FoldUpTo(f, init, s, |s|) == f(FoldUpTo(f, init, rest, |rest|), s[i])
  {
    WithoutOne(s, i);
    MoveLast(f, init, s[..i], s[i], s[i + 1..], |s| - i - 1);
  }

  lemma {:induction false} SameMultisetSameLength<D>(a: seq<D>, b: seq<D>)
    requires multiset(a) == multiset(b)
    ensures |a| == |b|
  {
    assert |multiset(a)| == |a| && |multiset(b)| == |b|;
  }

  /** Folding a commuting function does not depend on the order of the elements. */
  lemma {:induction false} FoldOrderless<A(!new), D(!new)>(f: (A, D) -> A, init: A, a: seq<D>, b: seq<D>)
    requires Commutes(f) && multiset(a) == multiset(b)
    ensures FoldUpTo(f, init, a, |a|) == FoldUpTo(f, init, b, |b|)
  {
    SameMultisetSameLength(a, b);
    if a != [] {
      assert a[0] in multiset(a);
      var i :| 0 <= i < |b| && b[i] == a[0];
      WithoutOne(a, 0);
      WithoutOne(b, i);
      FoldOrderless(f, init, a[..0] + a[1..], b[..i] + b[i + 1..]);
      FoldWithout(f, init, a, 0);
      FoldWithout(f, init, b, i);
    }
  }

  /** The fingerprint of an attribute set does not depend on the order of its pairs. */
  lemma {:induction false} SetHashOrderless(a: seq<KV>, b: seq<KV>)
    requires multiset(a) == multiset(b)
    ensures KVSetHash(a) == KVSetHash(b)
  {
    FoldKVCommutes();
    FoldOrderless(FoldKV, EMPTY, a, b);
  }

  // What a fingerprint tells

  lemma {:induction false} FoldTells(h: SetHash, d: Word, d': Word)
    ensures Fold(h, d) == Fold(h, d') <==> d == d'
  {
    XorCancel(h.xor, d, d');
  }

  lemma {:induction false} FoldKVCommutes()
    ensures Commutes(FoldKV)
  {
    forall h, kv, kv'
      ensures FoldKV(FoldKV(h, kv), kv') == FoldKV(FoldKV(h, kv'), kv)
    {
      FoldCommutes(h, FnvKVPair(kv), FnvKVPair(kv'));
    }
  }

  /** Every pair counts: putting another in the place of one changes the fingerprint of the set
      exactly if the two have different digests. */
  lemma {:induction false} EveryPairCounts(s: seq<KV>, i: nat, kv: KV)
    requires i < |s|
    ensures KVSetHash(s[i := kv]) == KVSetHash(s) <==> FnvKVPair(kv) == FnvKVPair(s[i])
  {
    var t := s[i := kv];
    var rest := s[..i] + s[i + 1..];
    FoldKVCommutes();
    FoldWithout(FoldKV, EMPTY, s, i);
    FoldWithout(FoldKV, EMPTY, t, i);
    assert t[..i] + t[i + 1..] == rest;
    FoldTells(FoldUpTo(FoldKV, EMPTY, rest, |rest|), FnvKVPair(kv), FnvKVPair(s[i]));
  }

  lemma {:induction false} CountIs(s: seq<KV>, n: nat)
    requires n <= |s|
    ensures FoldUpTo(FoldKV, EMPTY, s, n).n == n % COUNT_LIMIT
  {
    if n > 0 {
      CountIs(s, n - 1);
      CountGrows(FoldUpTo(FoldKV, EMPTY, s, n - 1), s[n - 1], n - 1);
    }
  }

  lemma {:induction false} CountGrows(h: SetHash, kv: KV, n: nat)
    requires h.n == n % COUNT_LIMIT
    ensures FoldKV(h, kv).n == (n + 1) % COUNT_LIMIT
  {
    NextCount(n);
  }

  lemma {:induction false} NextCount(n: nat)
    ensures (n % COUNT_LIMIT + 1) % COUNT_LIMIT == (n + 1) % COUNT_LIMIT != n % COUNT_LIMIT
  {
    var q, r := n / COUNT_LIMIT, n % COUNT_LIMIT;
    assert n + 1 == q * COUNT_LIMIT + (r + 1);
  }

  /** Sets of different sizes, modulo 2^32, have different fingerprints. */
  lemma {:induction false} SizeCounts(s: seq<KV>, t: seq<KV>)
    ensures KVSetHash(s).n == |s| % COUNT_LIMIT
    ensures KVSetHash(s) == KVSetHash(t) ==> |s| % COUNT_LIMIT == |t| % COUNT_LIMIT
    ensures |t| == |s| + 1 ==> KVSetHash(s) != KVSetHash(t)
  {
    CountIs(s, |s|);
    CountIs(t, |t|);
    NextCount(|s|);
  }

  lemma {:induction false} FoldLast(s: seq<KV>, kv: KV)
    ensures KVSetHash(s + [kv]) == FoldKV(KVSetHash(s), kv)
  {
    SamePrefixFold(FoldKV, EMPTY, s + [kv], s, |s|);
  }

  const HALF: int := 0x8000_0000_0000_0000

  lemma {:induction false} AddTwice(x: Word, m: Word, m': Word)
    ensures Add(Add(x, m), m) == Add(Add(x, m'), m') <==> m % HALF == m' % HALF
  {
    TwiceIs(x, m);
    TwiceIs(x, m');
    AddCancel(x, 2 * (m % HALF), 2 * (m' % HALF));
  }

  lemma {:induction false} TwiceIs(x: Word, m: Word)
    ensures Add(Add(x, m), m) == Add(x, 2 * (m % HALF))
  {
    SameRemainder(Add(x, m) + m, x + 2 * (m % HALF), m / HALF - (x + m) / LIMIT);
  }

  /** Where the exclusive or is blind the sum is not: a pair taken twice leaves no trace in the
      former, and another pair taken twice in its place has the same fingerprint exactly if their
      mixed digests agree modulo 2^63. */
  lemma {:induction false} TwiceCounts(s: seq<KV>, a: KV, b: KV)
    ensures KVSetHash(s + [a, a]).xor == KVSetHash(s).xor
    ensures KVSetHash(s + [a, a]) == KVSetHash(s + [b, b]) <==>
      MIX64.Mix(FnvKVPair(a)) % HALF == MIX64.Mix(FnvKVPair(b)) % HALF
  {
    var h := KVSetHash(s);
    FoldTwice(s, a);
    FoldTwice(s, b);
    XorGroup(h.xor, FnvKVPair(a), FnvKVPair(a));
    XorGroup(h.xor, FnvKVPair(b), FnvKVPair(b));
    AddTwice(h.sum, MIX64.Mix(FnvKVPair(a)), MIX64.Mix(FnvKVPair(b)));
  }

  lemma {:induction false} FoldTwice(s: seq<KV>, kv: KV)
    ensures KVSetHash(s + [kv, kv]) == FoldKV(FoldKV(KVSetHash(s), kv), kv)
  {
    FoldLast(s, kv);
    FoldLast(s + [kv], kv);
    assert s + [kv] + [kv] == s + [kv, kv];
  }

  /** Mixing a digest for the sum loses nothing of it. */
  lemma {:induction false} MixTells(d: Word, d': Word)
    ensures MIX64.Mix(d) == MIX64.Mix(d') <==> d == d'
  {
    Mixing.FinalizerBijective(MIX64, 0x96DE1B173F119089, 0x319642B2D24D8EC3, d);
    Mixing.FinalizerBijective(MIX64, 0x96DE1B173F119089, 0x319642B2D24D8EC3, d');
  }
}
