/** Mutation of trace and span identifiers between replay loops: the last three characters of
    every identifier in a column buffer are shifted in place, each within the hex alphabet, by
    the base-16 digits of the loop index. */
module IdColumns {
  import Sweeps

  type Byte = x: int | 0 <= x < 256

  const SHIFT_BYTES := 3

  predicate IsHex(b: Byte) {
    48 <= b <= 57 || 97 <= b <= 102
  }

  function HexValue(b: Byte): (v: nat)
    requires IsHex(b)
    ensures v < 16 && b == if v < 10 then 48 + v else 97 + v - 10
  {
    if b <= 57 then b - 48 else b - 97 + 10
  }

  function HexByte(v: nat): (b: Byte)
    requires v < 16
    ensures IsHex(b) && HexValue(b) == v
  {
    if v < 10 then 48 + v else 97 + v - 10
  }

  /** A hex value turned n places on. */
  function Rotate(v: nat, n: nat): (r: nat)
    ensures r < 16
  {
    (v + n) % 16
  }

  /** Shifts within the hex alphabet; other bytes move by plain addition, which wraps. */
  function ShiftHexByte(b: Byte, n: nat): Byte {
    if IsHex(b) then HexByte(Rotate(HexValue(b), n)) else (b + n) % 256
  }

  /** The loop index without its lowest n base-16 digits. */
  function DropDigits(loopIndex: nat, n: nat): nat {
    if n == 0 then loopIndex else DropDigits(loopIndex, n - 1) / 16
  }

  /** Base-16 digit d of the loop index. */
  function LoopDigit(loopIndex: nat, d: nat): (n: nat)
    ensures n < 16
  {
    DropDigits(loopIndex, d) % 16
  }

  /** An identifier after a loop: its last three characters each shifted by one digit, the
      last by the lowest. */
  function Shifted(id: seq<Byte>, loopIndex: nat): (r: seq<Byte>)
    ensures |r| == |id|
    ensures forall i :: 0 <= i < |id| ==>
      r[i] == if i + SHIFT_BYTES >= |id| then ShiftHexByte(id[i], LoopDigit(loopIndex, |id| - 1 - i)) else id[i]
  {
    seq(|id|, i requires 0 <= i < |id| =>
      if i + SHIFT_BYTES >= |id| then ShiftHexByte(id[i], LoopDigit(loopIndex, |id| - 1 - i)) else id[i])
  }

  // In place

  /** Where a cell lies in the buffer. */
  datatype Cell = Cell(start: nat, end: nat)

  ghost predicate ValidCells(cells: seq<Cell>, length: nat) {
    && (forall i :: 0 <= i < |cells| ==> cells[i].start <= cells[i].end <= length)
    && (forall i, j :: 0 <= i < j < |cells| ==> cells[i].end <= cells[j].start || cells[j].end <= cells[i].start)
  }

  lemma {:induction false} ShiftedIs(id: seq<Byte>, r: seq<Byte>, loopIndex: nat)
    requires |r| == |id|
    requires forall i :: 0 <= i < |id| ==>
      r[i] == if i + SHIFT_BYTES >= |id| then ShiftHexByte(id[i], LoopDigit(loopIndex, |id| - 1 - i)) else id[i]
    ensures r == Shifted(id, loopIndex)
  {
  }

  /** Shifts one cell. */
  method ShiftCell(buf: array<Byte>, cell: Cell, loopIndex: nat)
    requires cell.start <= cell.end <= buf.Length
    modifies buf
    ensures buf[cell.start..cell.end] == Shifted(old(buf[cell.start..cell.end]), loopIndex)
    ensures forall x :: 0 <= x < buf.Length && !(cell.start <= x < cell.end) ==> buf[x] == old(buf[x])
  {
    var length := cell.end - cell.start;
    var n := if length < SHIFT_BYTES then length else SHIFT_BYTES;
    var rem := loopIndex;
    for j := 1 to n + 1
      invariant rem == DropDigits(loopIndex, j - 1)
      invariant forall x :: cell.end - j < x < cell.end ==>
        buf[x] == ShiftHexByte(old(buf[x]), LoopDigit(loopIndex, cell.end - 1 - x))
      invariant forall x :: 0 <= x <= cell.end - j || cell.end <= x < buf.Length ==> buf[x] == old(buf[x])
    {
      buf[cell.end - j] := ShiftHexByte(buf[cell.end - j], rem % 16);
      rem := rem / 16;
    }
    ShiftedIs(old(buf[cell.start..cell.end]), buf[cell.start..cell.end], loopIndex);
  }

  /** A position in none of the first n cells. */
  ghost predicate Outside(cells: seq<Cell>, n: nat, x: int)
    requires n <= |cells|
  {
    forall l :: 0 <= l < n ==> !(cells[l].start <= x < cells[l].end)
  }

  /** A buffer with one cell shifted. */
  function ShiftOne(buf: seq<Byte>, cell: Cell, loopIndex: nat): (r: seq<Byte>)
    requires cell.start <= cell.end <= |buf|
    ensures |r| == |buf|
  {
    buf[..cell.start] + Shifted(buf[cell.start..cell.end], loopIndex) + buf[cell.end..]
  }

  /** A buffer with its first n cells shifted, one after the other. */
  ghost function ShiftFirst(buf: seq<Byte>, cells: seq<Cell>, n: nat, loopIndex: nat): (r: seq<Byte>)
    requires n <= |cells| && ValidCells(cells, |buf|)
    ensures |r| == |buf|
  {
    if n == 0 then buf else ShiftOne(ShiftFirst(buf, cells, n - 1, loopIndex), cells[n - 1], loopIndex)
  }

  /** Shifts every cell of a column. */
  method ShiftColumn(buf: array<Byte>, cells: seq<Cell>, loopIndex: nat)
    requires ValidCells(cells, buf.Length)
    modifies buf
    ensures buf[..] == ShiftFirst(old(buf[..]), cells, |cells|, loopIndex)
  {
    for i := 0 to |cells|
      invariant buf[..] == ShiftFirst(old(buf[..]), cells, i, loopIndex)
    {
      ghost var before := buf[..];
      var cell := cells[i];
      if cell.start < cell.end {
        ShiftCell(buf, cell, loopIndex);
      }
      OneShifted(before, buf[..], cell, loopIndex);
    }
  }

  lemma {:induction false} OneShifted(before: seq<Byte>, after: seq<Byte>, cell: Cell, loopIndex: nat)
    requires cell.start <= cell.end <= |before| == |after|
    requires after[cell.start..cell.end] == Shifted(before[cell.start..cell.end], loopIndex)
    requires forall x :: 0 <= x < |before| && !(cell.start <= x < cell.end) ==> after[x] == before[x]
    ensures after == ShiftOne(before, cell, loopIndex)
  {
    assert after == after[..cell.start] + after[cell.start..cell.end] + after[cell.end..];
    assert after[..cell.start] == before[..cell.start] && after[cell.end..] == before[cell.end..];
  }

  lemma {:induction false} OneShiftedAt(buf: seq<Byte>, cell: Cell, loopIndex: nat)
    requires cell.start <= cell.end <= |buf|
    ensures ShiftOne(buf, cell, loopIndex)[cell.start..cell.end] == Shifted(buf[cell.start..cell.end], loopIndex)
    ensures forall x :: 0 <= x < |buf| && !(cell.start <= x < cell.end) ==> ShiftOne(buf, cell, loopIndex)[x] == buf[x]
  {
  }

  lemma {:induction false} SameCell(a: seq<Byte>, b: seq<Byte>, cell: Cell)
    requires cell.start <= cell.end <= |a| == |b|
    requires forall x :: cell.start <= x < cell.end ==> a[x] == b[x]
    ensures a[cell.start..cell.end] == b[cell.start..cell.end]
  {
  }

  /** Every identifier of a column becomes its shifted self. */
  lemma {:induction false} CellShifted(buf: seq<Byte>, cells: seq<Cell>, n: nat, loopIndex: nat, i: nat)
    requires i < n <= |cells| && ValidCells(cells, |buf|)
    ensures ShiftFirst(buf, cells, n, loopIndex)[cells[i].start..cells[i].end]
         == Shifted(buf[cells[i].start..cells[i].end], loopIndex)
  {
    var before, cell := ShiftFirst(buf, cells, n - 1, loopIndex), cells[n - 1];
    OneShiftedAt(before, cell, loopIndex);
    if i == n - 1 {
      CellUntouched(buf, cells, n - 1, loopIndex, i);
    } else {
      CellShifted(buf, cells, n - 1, loopIndex, i);
      assert cells[i].end <= cell.start || cell.end <= cells[i].start;
      SameCell(ShiftOne(before, cell, loopIndex), before, cells[i]);
    }
  }

  lemma {:induction false} CellUntouched(buf: seq<Byte>, cells: seq<Cell>, n: nat, loopIndex: nat, i: nat)
    requires n <= i < |cells| && ValidCells(cells, |buf|)
    ensures ShiftFirst(buf, cells, n, loopIndex)[cells[i].start..cells[i].end] == buf[cells[i].start..cells[i].end]
  {
    if n > 0 {
      var before, cell := ShiftFirst(buf, cells, n - 1, loopIndex), cells[n - 1];
      CellUntouched(buf, cells, n - 1, loopIndex, i);
      OneShiftedAt(before, cell, loopIndex);
      assert cells[i].end <= cell.start || cell.end <= cells[i].start;
      SameCell(ShiftOne(before, cell, loopIndex), before, cells[i]);
    }
  }

  /** No byte outside the cells changes. */
  lemma {:induction false} OutsideUntouched(buf: seq<Byte>, cells: seq<Cell>, n: nat, loopIndex: nat, x: nat)
    requires n <= |cells| && ValidCells(cells, |buf|) && x < |buf| && Outside(cells, n, x)
    ensures ShiftFirst(buf, cells, n, loopIndex)[x] == buf[x]
  {
    if n > 0 {
      OutsideUntouched(buf, cells, n - 1, loopIndex, x);
      OneShiftedAt(ShiftFirst(buf, cells, n - 1, loopIndex), cells[n - 1], loopIndex);
    }
  }

  // What shifting does to identifiers

  ghost predicate AllHex(id: seq<Byte>) {
    forall i :: 0 <= i < |id| ==> IsHex(id[i])
  }

  lemma {:induction false} RotateIs(v: nat, n: nat)
    requires v < 16 && n < 16
    ensures Rotate(v, n) == if v + n < 16 then v + n else v + n - 16
  {
  }

  lemma {:induction false} RotateGroup(v: nat, m: nat, n: nat)
    requires v < 16 && m < 16 && n < 16
    ensures Rotate(Rotate(v, m), n) == Rotate(v, Rotate(m, n))
    ensures Rotate(v, m) == Rotate(v, n) <==> m == n
    ensures Rotate(v, m) == Rotate(n, m) <==> v == n
    ensures Rotate(v, 0) == v
  {
    RotateIs(v, m);
    RotateIs(v, n);
    RotateIs(n, m);
    RotateIs(v, 0);
    RotateIs(m, n);
    RotateIs(Rotate(v, m), n);
    RotateIs(v, Rotate(m, n));
  }

  lemma {:induction false} ShiftByteGroup(b: Byte, m: nat, n: nat)
    requires IsHex(b) && m < 16 && n < 16
    ensures IsHex(ShiftHexByte(b, m))
    ensures ShiftHexByte(ShiftHexByte(b, m), n) == ShiftHexByte(b, Rotate(m, n))
    ensures ShiftHexByte(b, m) == ShiftHexByte(b, n) <==> m == n
    ensures ShiftHexByte(b, 0) == b
  {
    RotateGroup(HexValue(b), m, n);
  }

  lemma {:induction false} ShiftByteInjective(a: Byte, b: Byte, n: nat)
    requires IsHex(a) && IsHex(b) && n < 16
    ensures ShiftHexByte(a, n) == ShiftHexByte(b, n) <==> a == b
  {
    RotateGroup(HexValue(a), n, HexValue(b));
  }

  /** Shifting keeps identifiers hexadecimal and keeps apart what was apart, so links between
      spans, parents and traces survive: two identifiers are equal after a loop exactly when
      they were equal before. */
  lemma {:induction false} ShiftedKeepsLinks(a: seq<Byte>, b: seq<Byte>, loopIndex: nat)
    requires AllHex(a) && AllHex(b)
    ensures AllHex(Shifted(a, loopIndex))
    ensures Shifted(a, loopIndex) == Shifted(b, loopIndex) <==> a == b
  {
    var r, s := Shifted(a, loopIndex), Shifted(b, loopIndex);
    forall i | 0 <= i < |a|
      ensures IsHex(r[i])
      ensures |a| == |b| ==> (r[i] == s[i] <==> a[i] == b[i])
    {
      if i + SHIFT_BYTES >= |a| {
        var n := LoopDigit(loopIndex, |a| - 1 - i);
        ShiftByteGroup(a[i], n, 0);
        if |a| == |b| {
          ShiftByteInjective(a[i], b[i], n);
        }
      }
    }
    if r == s {
      assert |a| == |b|;
      assert forall i :: 0 <= i < |a| ==> r[i] == s[i];
    }
  }

  /** What a loop does to the end of an identifier does not depend on what stands before, and the
      beginning stays as it is. */
  lemma {:induction false} OnlyTheEndChanges(front: seq<Byte>, end: seq<Byte>, loopIndex: nat)
    requires |end| >= SHIFT_BYTES
    ensures Shifted(front + end, loopIndex) == front + Shifted(end, loopIndex)
  {
    var id := front + end;
    var r, s := Shifted(id, loopIndex), front + Shifted(end, loopIndex);
    forall i | 0 <= i < |id|
      ensures r[i] == s[i]
    {
      assert i < |front| ==> id[i] == front[i];
      assert i >= |front| ==> id[i] == end[i - |front|];
    }
  }

  /** The modulus of the loop indexes an identifier of a given length tells apart. */
  function Distinguished(length: nat): nat {
    if length == 0 then 1 else if length == 1 then 16 else if length == 2 then 256 else 4096
  }

  /** The first n digits of two loop indexes agree. */
  ghost predicate SameDigits(k: nat, l: nat, n: nat) {
    forall d :: 0 <= d < n ==> LoopDigit(k, d) == LoopDigit(l, d)
  }

  lemma {:induction false} SameShiftIff(id: seq<Byte>, k: nat, l: nat)
    requires AllHex(id)
    ensures Shifted(id, k) == Shifted(id, l) <==> SameDigits(k, l, if |id| < SHIFT_BYTES then |id| else SHIFT_BYTES)
  {
    var r, s := Shifted(id, k), Shifted(id, l);
    var n := if |id| < SHIFT_BYTES then |id| else SHIFT_BYTES;
    forall i | 0 <= i < |id|
      ensures r[i] == s[i] <==> |id| - 1 - i < n ==> LoopDigit(k, |id| - 1 - i) == LoopDigit(l, |id| - 1 - i)
    {
      ShiftByteGroup(id[i], LoopDigit(k, |id| - 1 - i), LoopDigit(l, |id| - 1 - i));
    }
    if r == s {
      forall d | 0 <= d < n
        ensures LoopDigit(k, d) == LoopDigit(l, d)
      {
        assert r[|id| - 1 - d] == s[|id| - 1 - d];
      }
    }
  }

  /** Two loops give an identifier the same value exactly when their indexes agree modulo
      4096, or modulo 16 to the length for shorter identifiers. */
  lemma {:induction false} LoopsDistinguished(id: seq<Byte>, k: nat, l: nat)
    requires AllHex(id)
    ensures Shifted(id, k) == Shifted(id, l) <==> k % Distinguished(|id|) == l % Distinguished(|id|)
  {
    SameShiftIff(id, k, l);
    var n := if |id| < SHIFT_BYTES then |id| else SHIFT_BYTES;
    SameDigitsIff(k, l, n);
    assert Distinguished(n) == Distinguished(|id|);
  }

  lemma {:induction false} SameDigitsIff(k: nat, l: nat, n: nat)
    requires n <= SHIFT_BYTES
    ensures SameDigits(k, l, n) <==> k % Distinguished(n) == l % Distinguished(n)
  {
    LowDigits(k);
    LowDigits(l);
    var a, b, c := LoopDigit(k, 0), LoopDigit(k, 1), LoopDigit(k, 2);
    var x, y, z := LoopDigit(l, 0), LoopDigit(l, 1), LoopDigit(l, 2);
    assert SameDigits(k, l, n) <==> (n > 0 ==> a == x) && (n > 1 ==> b == y) && (n > 2 ==> c == z);
    NumeralsDiffer(a, b, c, x, y, z);
  }

  lemma {:induction false} NumeralsDiffer(a: nat, b: nat, c: nat, x: nat, y: nat, z: nat)
    requires a < 16 && x < 16 && b < 16 && y < 16
    ensures a + 16 * b == x + 16 * y <==> a == x && b == y
    ensures a + 16 * b + 256 * c == x + 16 * y + 256 * z <==> a == x && b == y && c == z
  {
    assert a + 16 * (b + 16 * c) == x + 16 * (y + 16 * z) ==> a == x;
  }

  lemma {:induction false} LowDigits(k: nat)
    ensures k % 16 == LoopDigit(k, 0)
    ensures k % 256 == LoopDigit(k, 0) + 16 * LoopDigit(k, 1)
    ensures k % 4096 == LoopDigit(k, 0) + 16 * LoopDigit(k, 1) + 256 * LoopDigit(k, 2)
  {
    var a, b, c := LoopDigit(k, 0), LoopDigit(k, 1), LoopDigit(k, 2);
    var q := DropDigits(k, 1);
    var p := DropDigits(k, 2);
    assert k == 16 * q + a && q == 16 * p + b && p == 16 * (p / 16) + c;
    Sweeps.QuotientIs(k, 256, p, a + 16 * b);
    Sweeps.QuotientIs(k, 4096, p / 16, a + 16 * b + 256 * c);
  }

  /** The place a hex value must be turned on to get back to 0. */
  function Negated(v: nat): (r: nat)
    requires v < 16
    ensures r < 16 && Rotate(v, r) == 0
  {
    if v == 0 then 0 else 16 - v
  }

  /** The loop index whose digits undo those of another. */
  function Inverse(loopIndex: nat): nat {
    Negated(LoopDigit(loopIndex, 0)) + 16 * Negated(LoopDigit(loopIndex, 1)) + 256 * Negated(LoopDigit(loopIndex, 2))
  }

  /** Every loop's mutation is undone by another's, and loop 0 changes nothing. */
  lemma {:induction false} ShiftedInverse(id: seq<Byte>, loopIndex: nat)
    requires AllHex(id)
    ensures Shifted(Shifted(id, loopIndex), Inverse(loopIndex)) == id
    ensures Shifted(id, 0) == id
  {
    InverseDigits(loopIndex);
    forall i | 0 <= i < |id|
      ensures Shifted(Shifted(id, loopIndex), Inverse(loopIndex))[i] == id[i] && Shifted(id, 0)[i] == id[i]
    {
      if i + SHIFT_BYTES >= |id| {
        var d := |id| - 1 - i;
        ShiftByteGroup(id[i], LoopDigit(loopIndex, d), LoopDigit(Inverse(loopIndex), d));
        assert LoopDigit(0, d) == 0;
      }
    }
  }

  lemma {:induction false} InverseDigits(loopIndex: nat)
    ensures forall d: nat :: d < 3 ==> LoopDigit(Inverse(loopIndex), d) == Negated(LoopDigit(loopIndex, d))
    ensures forall d: nat :: d < 3 ==> LoopDigit(0, d) == 0
  {
    DigitsAre(Inverse(loopIndex), Negated(LoopDigit(loopIndex, 0)), Negated(LoopDigit(loopIndex, 1)),
      Negated(LoopDigit(loopIndex, 2)));
    DigitsAre(0, 0, 0, 0);
  }

  lemma {:induction false} DigitsAre(k: nat, x: nat, y: nat, z: nat)
    requires x < 16 && y < 16 && z < 16 && k == x + 16 * y + 256 * z
    ensures LoopDigit(k, 0) == x && LoopDigit(k, 1) == y && LoopDigit(k, 2) == z
  {
    Sweeps.QuotientIs(k, 16, y + 16 * z, x);
    Sweeps.QuotientIs(y + 16 * z, 16, z, y);
    assert DropDigits(k, 1) == y + 16 * z && DropDigits(k, 2) == z;
  }

  /** Hexadecimal identifiers are what keeps this safe: another byte can be shifted onto a hex
      digit that a hex digit is shifted onto as well exactly when it lies less than 16 below
      one of the two hex ranges. */
  lemma {:induction false} NonHexCollidesIff(b: Byte)
    requires !IsHex(b)
    ensures (exists n: nat, h: Byte :: n < 16 && IsHex(h) && ShiftHexByte(b, n) == ShiftHexByte(h, n))
      <==> 33 <= b <= 47 || 82 <= b <= 96
  {
    if 33 <= b <= 47 {
      NonHexCollision(b, 48 - b);
    } else if 82 <= b <= 96 {
      NonHexCollision(b, 97 - b);
    }
    forall n: nat, h: Byte | n < 16 && IsHex(h) && ShiftHexByte(b, n) == ShiftHexByte(h, n)
      ensures 33 <= b <= 47 || 82 <= b <= 96
    {
      ShiftByteGroup(h, n, 0);
      RawShiftOntoHex(b, n);
    }
  }

  lemma {:induction false} RawShiftOntoHex(b: Byte, n: nat)
    requires !IsHex(b) && n < 16 && IsHex(ShiftHexByte(b, n))
    ensures 33 <= b <= 47 || 82 <= b <= 96
  {
    assert ShiftHexByte(b, n) == if b + n < 256 then b + n else b + n - 256;
  }

  lemma {:induction false} NonHexCollision(b: Byte, n: nat)
    requires !IsHex(b) && n < 16 && b + n < 256 && IsHex(b + n)
    ensures exists h: Byte :: IsHex(h) && ShiftHexByte(b, n) == ShiftHexByte(h, n)
  {
    var v := HexValue(b + n);
    var h := HexByte(Rotate(v, Negated(n)));
    RotateGroup(v, Negated(n), n);
    RotateIs(n, Negated(n));
    RotateIs(Negated(n), n);
    RotateGroup(v, 0, 0);
    assert IsHex(h) && ShiftHexByte(b, n) == ShiftHexByte(h, n);
  }

  /** Two hexadecimal identifiers can become the same in two loops exactly when they have one
      length and differ in their last three characters only. */
  lemma {:induction false} LoopsMeetIff(a: seq<Byte>, b: seq<Byte>)
    requires AllHex(a) && AllHex(b)
    ensures (exists k: nat, l: nat :: Shifted(a, k) == Shifted(b, l)) <==> SameFront(a, b)
  {
    if SameFront(a, b) {
      var k, l := MeetingLoops(a, b);
    }
    forall k: nat, l: nat | Shifted(a, k) == Shifted(b, l)
      ensures SameFront(a, b)
    {
      var r, s := Shifted(a, k), Shifted(b, l);
      assert |r| == |s| && forall i :: 0 <= i < |a| - SHIFT_BYTES ==> r[i] == s[i];
    }
  }

  ghost predicate SameFront(a: seq<Byte>, b: seq<Byte>) {
    |a| == |b| && forall i :: 0 <= i < |a| - SHIFT_BYTES ==> a[i] == b[i]
  }

  /** The shift that takes a hex digit to 0. */
  function ToZero(id: seq<Byte>, d: nat): (n: nat)
    requires forall i :: 0 <= i < |id| ==> IsHex(id[i])
    ensures n < 16 && (d < |id| ==> ShiftHexByte(id[|id| - 1 - d], n) == 48)
  {
    if d < |id| then Negated(HexValue(id[|id| - 1 - d])) else 0
  }

  lemma {:induction false} MeetingLoops(a: seq<Byte>, b: seq<Byte>) returns (k: nat, l: nat)
    requires AllHex(a) && AllHex(b) && SameFront(a, b)
    ensures Shifted(a, k) == Shifted(b, l)
  {
    k := LoopOfDigits(ToZero(a, 0), ToZero(a, 1), ToZero(a, 2));
    l := LoopOfDigits(ToZero(b, 0), ToZero(b, 1), ToZero(b, 2));
    EndsInZeros(a, k);
    EndsInZeros(b, l);
    var r, s := Shifted(a, k), Shifted(b, l);
    assert forall i :: 0 <= i < |a| ==> r[i] == s[i];
  }

  lemma {:induction false} EndsInZeros(id: seq<Byte>, k: nat)
    requires AllHex(id)
    requires LoopDigit(k, 0) == ToZero(id, 0) && LoopDigit(k, 1) == ToZero(id, 1) && LoopDigit(k, 2) == ToZero(id, 2)
    ensures forall i :: 0 <= i < |id| ==> Shifted(id, k)[i] == if i + SHIFT_BYTES >= |id| then 48 else id[i]
  {
    forall i | 0 <= i < |id| && i + SHIFT_BYTES >= |id|
      ensures Shifted(id, k)[i] == 48
    {
      var d := |id| - 1 - i;
      assert LoopDigit(k, d) == ToZero(id, d);
    }
  }

  // Identifiers that are not hexadecimal

  /** The hex value a byte below one of the hex ranges behaves like once it is shifted into it. */
  function PartnerValue(p: Byte): (v: nat)
    requires 33 <= p <= 47 || 82 <= p <= 96
    ensures v < 16
  {
    if p <= 47 then p - 32 else if p >= 87 then p - 87 else p - 71
  }

  /** One of two bytes is a hex digit, and the other behaves like it. */
  predicate Partners(x: Byte, y: Byte) {
    || (IsHex(x) && (33 <= y <= 47 || 82 <= y <= 96) && HexValue(x) == PartnerValue(y))
    || (IsHex(y) && (33 <= x <= 47 || 82 <= x <= 96) && HexValue(y) == PartnerValue(x))
  }

  /** A shift that takes a byte and its partner to one digit, the first of the range. */
  function MergingShift(x: Byte, y: Byte): (n: nat)
    requires x == y || Partners(x, y)
    ensures n < 16
  {
    if x == y then 0
    else
      var p := if IsHex(x) then y else x;
      if p <= 47 then 48 - p else 97 - p
  }

  lemma {:induction false} PartnersMeet(h: Byte, p: Byte)
    requires IsHex(h) && !IsHex(p) && Partners(h, p)
    ensures var n := if p <= 47 then 48 - p else 97 - p;
      ShiftHexByte(h, n) == ShiftHexByte(p, n)
  {
    var n := if p <= 47 then 48 - p else 97 - p;
    RotateIs(HexValue(h), n);
    assert ShiftHexByte(p, n) == p + n;
  }

  /** Only partners meet. */
  lemma {:induction false} MeetingPartners(h: Byte, p: Byte, n: nat)
    requires IsHex(h) && !IsHex(p) && n < 16 && ShiftHexByte(h, n) == ShiftHexByte(p, n)
    ensures Partners(h, p)
  {
    RotateIs(HexValue(h), n);
    RawShiftOntoHex(p, n);
    assert ShiftHexByte(p, n) == p + n;
  }

  lemma {:induction false} RawShiftInjective(x: Byte, y: Byte, n: nat)
    requires !IsHex(x) && !IsHex(y) && n < 16 && ShiftHexByte(x, n) == ShiftHexByte(y, n)
    ensures x == y
  {
    assert ShiftHexByte(x, n) == if x + n < 256 then x + n else x + n - 256;
    assert ShiftHexByte(y, n) == if y + n < 256 then y + n else y + n - 256;
  }

  lemma {:induction false} MergingShiftMerges(x: Byte, y: Byte)
    requires x == y || Partners(x, y)
    ensures ShiftHexByte(x, MergingShift(x, y)) == ShiftHexByte(y, MergingShift(x, y))
  {
    if x != y {
      if IsHex(x) {
        PartnersMeet(x, y);
      } else {
        PartnersMeet(y, x);
      }
    }
  }

  /** Some shift takes two bytes to one exactly when they are equal or partners. */
  lemma {:induction false} BytesMergedIff(x: Byte, y: Byte)
    ensures (exists n: nat :: n < 16 && ShiftHexByte(x, n) == ShiftHexByte(y, n)) <==> x == y || Partners(x, y)
  {
    if x == y || Partners(x, y) {
      MergingShiftMerges(x, y);
    }
    forall n: nat | n < 16 && ShiftHexByte(x, n) == ShiftHexByte(y, n)
      ensures x == y || Partners(x, y)
    {
      ShiftsMeet(x, y, n);
    }
  }

  lemma {:induction false} ShiftsMeet(x: Byte, y: Byte, n: nat)
    requires n < 16 && ShiftHexByte(x, n) == ShiftHexByte(y, n)
    ensures x == y || Partners(x, y)
  {
    if IsHex(x) && IsHex(y) {
      ShiftByteInjective(x, y, n);
    } else if IsHex(x) {
      MeetingPartners(x, y, n);
    } else if IsHex(y) {
      MeetingPartners(y, x, n);
    } else {
      RawShiftInjective(x, y, n);
    }
  }

  /** Two identifiers agree but for partners among their last three characters. */
  ghost predicate Mergeable(a: seq<Byte>, b: seq<Byte>) {
    && |a| == |b|
    && forall i :: 0 <= i < |a| ==> a[i] == b[i] || (i + SHIFT_BYTES >= |a| && Partners(a[i], b[i]))
  }

  /** The digit of a merging loop for position d from the end. */
  ghost function MergingDigit(a: seq<Byte>, b: seq<Byte>, d: nat): (n: nat)
    requires Mergeable(a, b)
    ensures n < 16
  {
    if d < |a| then MergingShift(a[|a| - 1 - d], b[|a| - 1 - d]) else 0
  }

  /** Some loop gives two identifiers one value exactly when they are mergeable.  Of hexadecimal
      identifiers only equal ones are. */
  lemma {:induction false} IdsMergedIff(a: seq<Byte>, b: seq<Byte>)
    ensures (exists loopIndex: nat :: Shifted(a, loopIndex) == Shifted(b, loopIndex)) <==> Mergeable(a, b)
    ensures AllHex(a) && AllHex(b) ==> (Mergeable(a, b) <==> a == b)
  {
    if Mergeable(a, b) {
      var loopIndex := MergingLoop(a, b);
    }
    forall loopIndex: nat | Shifted(a, loopIndex) == Shifted(b, loopIndex)
      ensures Mergeable(a, b)
    {
      MergedAreMergeable(a, b, loopIndex);
    }
    if AllHex(a) && AllHex(b) && Mergeable(a, b) {
      assert forall i :: 0 <= i < |a| ==> !Partners(a[i], b[i]) && a[i] == b[i];
    }
  }

  lemma {:induction false} MergingLoop(a: seq<Byte>, b: seq<Byte>) returns (loopIndex: nat)
    requires Mergeable(a, b)
    ensures Shifted(a, loopIndex) == Shifted(b, loopIndex)
  {
    loopIndex := LoopOfDigits(MergingDigit(a, b, 0), MergingDigit(a, b, 1), MergingDigit(a, b, 2));
    forall d: nat | d < SHIFT_BYTES && d < |a|
      ensures SameAfter(a, b, d, LoopDigit(loopIndex, d))
    {
      MergedAt(a, b, d);
    }
    SameEnds(a, b, loopIndex);
  }

  /** The characters at distance d from the end become the same. */
  ghost predicate SameAfter(a: seq<Byte>, b: seq<Byte>, d: nat, n: nat)
    requires |a| == |b| && d < |a|
  {
    ShiftHexByte(a[|a| - 1 - d], n) == ShiftHexByte(b[|a| - 1 - d], n)
  }

  lemma {:induction false} SameEnds(a: seq<Byte>, b: seq<Byte>, loopIndex: nat)
    requires |a| == |b| && forall i :: 0 <= i < |a| - SHIFT_BYTES ==> a[i] == b[i]
    requires forall d: nat :: d < SHIFT_BYTES && d < |a| ==> SameAfter(a, b, d, LoopDigit(loopIndex, d))
    ensures Shifted(a, loopIndex) == Shifted(b, loopIndex)
  {
    var r, s := Shifted(a, loopIndex), Shifted(b, loopIndex);
    forall i | 0 <= i < |a|
      ensures r[i] == s[i]
    {
      if i + SHIFT_BYTES >= |a| {
        assert SameAfter(a, b, |a| - 1 - i, LoopDigit(loopIndex, |a| - 1 - i));
      }
    }
  }

  lemma {:induction false} LoopOfDigits(x: nat, y: nat, z: nat) returns (loopIndex: nat)
    requires x < 16 && y < 16 && z < 16
    ensures LoopDigit(loopIndex, 0) == x && LoopDigit(loopIndex, 1) == y && LoopDigit(loopIndex, 2) == z
  {
    loopIndex := x + 16 * y + 256 * z;
    DigitsAre(loopIndex, x, y, z);
  }

  lemma {:induction false} MergedAt(a: seq<Byte>, b: seq<Byte>, d: nat)
    requires Mergeable(a, b) && d < |a|
    ensures SameAfter(a, b, d, MergingDigit(a, b, d))
  {
    MergingShiftMerges(a[|a| - 1 - d], b[|a| - 1 - d]);
  }

  lemma {:induction false} MergedAreMergeable(a: seq<Byte>, b: seq<Byte>, loopIndex: nat)
    requires Shifted(a, loopIndex) == Shifted(b, loopIndex)
    ensures Mergeable(a, b)
  {
    var r, s := Shifted(a, loopIndex), Shifted(b, loopIndex);
    assert |a| == |r| == |b|;
    forall i | 0 <= i < |a|
      ensures a[i] == b[i] || (i + SHIFT_BYTES >= |a| && Partners(a[i], b[i]))
    {
      assert r[i] == s[i];
      if i + SHIFT_BYTES >= |a| {
        ShiftsMeet(a[i], b[i], LoopDigit(loopIndex, |a| - 1 - i));
      }
    }
  }

  /** Loop 1 makes "ab/" and "abf" the same identifier, "ab0". */
  lemma {:induction false} SlashMeetsF()
    ensures Shifted([97, 98, 47], 1) == Shifted([97, 98, 102], 1) == [97, 98, 48]
  {
    DigitsAre(1, 1, 0, 0);
    RotateIs(15, 1);
    RotateIs(10, 0);
    RotateIs(11, 0);
  }
}
