/** Unsigned 64-bit machine words as the integers below 2^64: exclusive or, right shift
    and wrapping multiplication, with the laws the mixers and hashes rest on. */
module Words {

  const LIMIT: int := 0x1_0000_0000_0000_0000

  type Word = x: int | 0 <= x < LIMIT

  /** The unsigned word a signed or larger integer converts to. */
  function ToWord(x: int): (w: Word)
    ensures 0 <= x < LIMIT ==> w == x
  {
    x % LIMIT
  }

  function Pow2(n: nat): (p: nat)
    ensures p >= 1
  {
    if n == 0 then 1 else 2 * Pow2(n - 1)
  }

  function XorNat(a: nat, b: nat): nat
    decreases a + b
  {
    if a == 0 && b == 0 then 0 else (a + b) % 2 + 2 * XorNat(a / 2, b / 2)
  }

  function Shr(x: nat, n: nat): nat {
    if n == 0 then x else Shr(x / 2, n - 1)
  }

  function Xor(a: Word, b: Word): Word {
    Pow2At64();
    XorBound(a, b, 64);
    XorNat(a, b)
  }

  function Mul(a: Word, b: Word): Word {
    a * b % LIMIT
  }

  function Add(a: Word, b: Word): Word {
    (a + b) % LIMIT
  }

  function Sub(a: Word, b: Word): Word {
    (a - b) % LIMIT
  }

  lemma {:induction false} AddSub(a: Word, b: Word)
    ensures Sub(Add(a, b), b) == a && Add(Sub(a, b), b) == a
  {
    assert Add(a, b) == if a + b < LIMIT then a + b else a + b - LIMIT;
    assert Sub(a, b) == if a >= b then a - b else a - b + LIMIT;
  }

  lemma {:induction false} Pow2At64()
    ensures Pow2(64) == LIMIT
  {
    Pow2Double(4, 0x10);
    Pow2Double(8, 0x100);
    Pow2Double(16, 0x1_0000);
    Pow2Double(32, 0x1_0000_0000);
  }

  lemma {:induction false} Pow2Double(n: nat, p: nat)
    requires Pow2(n) == p
    ensures Pow2(2 * n) == p * p
  {
    Pow2Sum(n, n);
  }

  lemma {:induction false} Pow2Sum(m: nat, n: nat)
    ensures Pow2(m + n) == Pow2(m) * Pow2(n)
  {
    if m > 0 {
      Pow2Sum(m - 1, n);
      assert Pow2(m + n) == 2 * Pow2(m - 1 + n);
    }
  }

  lemma {:induction false} XorBound(a: nat, b: nat, n: nat)
    requires a < Pow2(n) && b < Pow2(n)
    ensures XorNat(a, b) < Pow2(n)
  {
    if n > 0 && (a != 0 || b != 0) {
      XorBound(a / 2, b / 2, n - 1);
    }
  }

  lemma {:induction false} XorNatComm(a: nat, b: nat)
    ensures XorNat(a, b) == XorNat(b, a)
    decreases a + b
  {
    if a != 0 || b != 0 {
      XorNatComm(a / 2, b / 2);
    }
  }

  lemma {:induction false} XorHalf(a: nat, b: nat)
    ensures XorNat(a, b) / 2 == XorNat(a / 2, b / 2)
    ensures XorNat(a, b) % 2 == (a + b) % 2
  {
  }

  lemma {:induction false} SameHalves(x: nat, y: nat)
    requires x / 2 == y / 2 && x % 2 == y % 2
    ensures x == y
  {
  }

  lemma {:induction false} Parities(a: nat, b: nat, c: nat, ab: nat, bc: nat)
    requires ab % 2 == (a + b) % 2 && bc % 2 == (b + c) % 2
    ensures (ab + c) % 2 == (a + bc) % 2
  {
  }

  lemma {:induction false} XorNatAssoc(a: nat, b: nat, c: nat)
    ensures XorNat(XorNat(a, b), c) == XorNat(a, XorNat(b, c))
    decreases a + b + c
  {
    if a != 0 || b != 0 || c != 0 {
      var ab, bc := XorNat(a, b), XorNat(b, c);
      XorNatAssoc(a / 2, b / 2, c / 2);
      XorHalf(a, b);
      XorHalf(b, c);
      XorHalf(ab, c);
      XorHalf(a, bc);
      Parities(a, b, c, ab, bc);
      SameHalves(XorNat(ab, c), XorNat(a, bc));
    }
  }

  lemma {:induction false} XorNatUnits(a: nat)
    ensures XorNat(a, 0) == a && XorNat(0, a) == a && XorNat(a, a) == 0
  {
    if a != 0 {
      XorNatUnits(a / 2);
    }
  }

  /** Words under exclusive or form an abelian group in which every word is its own inverse. */
  lemma {:induction false} XorGroup(a: Word, b: Word, c: Word)
    ensures Xor(a, b) == Xor(b, a)
    ensures Xor(Xor(a, b), c) == Xor(a, Xor(b, c))
    ensures Xor(a, 0) == a && Xor(a, a) == 0
    ensures Xor(Xor(a, b), b) == a
  {
    XorNatComm(a, b);
    XorNatAssoc(a, b, c);
    XorNatAssoc(a, b, b);
    XorNatUnits(a);
    XorNatUnits(b);
  }

  lemma {:induction false} ShrXor(a: nat, b: nat, n: nat)
    ensures Shr(XorNat(a, b), n) == XorNat(Shr(a, n), Shr(b, n))
  {
    if n > 0 {
      XorHalf(a, b);
      ShrXor(a / 2, b / 2, n - 1);
    }
  }

  lemma {:induction false} ShrShr(x: nat, m: nat, n: nat)
    ensures Shr(Shr(x, m), n) == Shr(x, m + n)
  {
    if m > 0 {
      ShrShr(x / 2, m - 1, n);
    }
  }

  lemma {:induction false} ShrBound(x: nat, n: nat)
    ensures Shr(x, n) <= x
    ensures x < Pow2(n) ==> Shr(x, n) == 0
  {
    if n > 0 {
      ShrBound(x / 2, n - 1);
    }
  }

  /** x ^ (x >> n) */
  function XorShift(x: Word, n: nat): Word {
    ShrBound(x, n);
    Xor(x, Shr(x, n))
  }

  /** What takes XorShift back when 3n covers the whole word: x ^ (x >> n) ^ (x >> 2n) */
  function UnXorShift(x: Word, n: nat): Word {
    ShrBound(x, n);
    ShrBound(x, 2 * n);
    Xor(Xor(x, Shr(x, n)), Shr(x, 2 * n))
  }

  lemma {:induction false} XorShiftInverse(x: Word, n: nat)
    requires 3 * n >= 64
    ensures UnXorShift(XorShift(x, n), n) == x
    ensures XorShift(UnXorShift(x, n), n) == x
  {
    ShrBound(x, n);
    ShrBound(x, 2 * n);
    var a, b := Shr(x, n), Shr(x, 2 * n);
    ShiftedParts(x, n);
    ShrXor(x, a, n);
    ShrXor(x, a, 2 * n);
    XorGroup(b, 0, 0);
    ShrXor(Xor(x, a), b, n);
    XorGroup(Xor(a, b), 0, 0);
    Telescope(x, a, b);
  }

  // Shifting the parts of an xor-shift again: three shifts by n leave nothing.
  lemma {:induction false} ShiftedParts(x: Word, n: nat)
    requires 3 * n >= 64
    ensures Shr(Shr(x, n), n) == Shr(x, 2 * n)
    ensures Shr(Shr(x, n), 2 * n) == 0 && Shr(Shr(x, 2 * n), n) == 0
  {
    ShrShr(x, n, n);
    ShrShr(x, n, 2 * n);
    ShrShr(x, 2 * n, n);
    TopBitsGone(x, 3 * n);
  }

  lemma {:induction false} Telescope(x: Word, a: Word, b: Word)
    ensures Xor(Xor(Xor(x, a), Xor(a, b)), b) == x
    ensures Xor(Xor(Xor(x, a), b), Xor(a, b)) == x
  {
    XorGroup(x, a, b);               // x ^ a ^ b == x ^ (a ^ b)
    XorGroup(x, Xor(a, b), 0);       // ... and xoring a ^ b again leaves x
    XorGroup(Xor(x, a), Xor(a, b), b);
    XorGroup(a, b, 0);               // (a ^ b) ^ b == a
    XorGroup(x, a, 0);
  }

  lemma {:induction false} TopBitsGone(x: Word, n: nat)
    requires n >= 64
    ensures Shr(x, n) == 0
  {
    Pow2At64();
    ShrBound(x, 64);
    ShrShr(x, 64, n - 64);
    ShrBound(0, n - 64);
  }

  lemma {:induction false} MulAssoc(x: Word, a: Word, b: Word)
    ensures Mul(Mul(x, a), b) == Mul(x, Mul(a, b))
  {
    var p, q := x * a / LIMIT, a * b / LIMIT;
    assert x * a == p * LIMIT + Mul(x, a);
    assert a * b == q * LIMIT + Mul(a, b);
    var left, right := Mul(x, a) * b, x * Mul(a, b);
    assert left - right == (x * q - p * b) * LIMIT by {
      assert left == (x * a - p * LIMIT) * b == x * a * b - p * b * LIMIT;
      assert right == x * (a * b - q * LIMIT) == x * a * b - x * q * LIMIT;
    }
    SameRemainder(left, right, x * q - p * b);
  }

  lemma {:induction false} SameRemainder(a: int, b: int, k: int)
    requires a - b == k * LIMIT
    ensures a % LIMIT == b % LIMIT
  {
  }

  lemma {:induction false} AddCommutes(a: Word, b: Word, c: Word)
    ensures Add(Add(a, b), c) == Add(Add(a, c), b)
  {
    var p := if a + b < LIMIT then 0 else 1;
    var q := if a + c < LIMIT then 0 else 1;
    assert Add(a, b) == a + b - p * LIMIT && Add(a, c) == a + c - q * LIMIT;
    SameRemainder(Add(a, b) + c, Add(a, c) + b, q - p);
  }

  /** Multiplying by an odd word loses nothing: its inverse modulo 2^64 takes it back. */
  lemma {:induction false} MulInverse(x: Word, a: Word, b: Word)
    requires Mul(a, b) == 1
    ensures Mul(Mul(x, a), b) == x && Mul(Mul(x, b), a) == x
  {
    MulAssoc(x, a, b);
    MulAssoc(x, b, a);
  }

  lemma {:induction false} AddCancel(x: Word, a: Word, b: Word)
    ensures Add(x, a) == Add(x, b) <==> a == b
  {
    AddSub(a, x);
    AddSub(b, x);
  }

  /** a ^ b tells b when a is known, and a when b is. */
  lemma {:induction false} XorCancel(a: Word, b: Word, c: Word)
    ensures Xor(a, b) == Xor(a, c) <==> b == c
  {
    XorGroup(b, a, a);
    XorGroup(c, a, a);
    XorGroup(a, b, a);
    XorGroup(a, c, a);
  }

  lemma {:induction false} XorCancelRight(a: Word, b: Word, c: Word)
    ensures Xor(b, a) == Xor(c, a) <==> b == c
  {
    XorGroup(b, a, a);
    XorGroup(c, a, a);
  }
}
