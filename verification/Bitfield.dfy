/**
  Integers of any width at any bit offset (src/bitops.c): reading and writing them in a bitmap.
 */
module Bitfield {
  import opened Bits

  // ---- Numbers in a bitmap ------------------------------------------------------------------------------------

  /** Bit i of a string that goes on with zeros. */
  predicate PadBit(s: Bytes, i: nat) { i < 8 * |s| && Bit(s, i) }

  /** The number in bits off to off + n - 1, most significant first. */
  function Number(s: Bytes, off: nat, n: nat): (v: nat)
    ensures v < Pow2(n)
  {
    if n == 0 then 0 else 2 * Number(s, off, n - 1) + I(PadBit(s, off + n - 1))
  }

  /** Bit k of a number, the least significant being bit 0. */
  predicate BitOf(v: nat, k: nat) { v / Pow2(k) % 2 == 1 }

  // ---- Writing --------------------------------------------------------------------------------------------------

  /** Bits off to off + n - 1 hold the low n bits of v, in a field of `bits` of which they are the first. */
  ghost predicate Holds(s: Bytes, off: nat, bits: nat, v: nat, n: nat)
    requires n <= bits && off + n <= 8 * |s|
  {
    forall i :: off <= i < off + n ==> Bit(s, i) == BitOf(v, bits - 1 - (i - off))
  }

  ghost predicate SameOutside(s: Bytes, t: Bytes, off: nat, n: nat) {
    |s| == |t| && forall i :: 0 <= i < 8 * |s| && !(off <= i < off + n) ==> Bit(t, i) == Bit(s, i)
  }

  /** One bit of a string changed. */
  lemma BitSet(s: Bytes, i: nat, one: bool, q: nat)
    requires i < 8 * |s| && q < 8 * |s|
    ensures var t := s[i / 8 := s[i / 8][i % 8 := one]]; Bit(t, q) == if q == i then one else Bit(s, q)
  {
  }

  /** setUnsignedBitfield. */
  method SetUnsignedBitfield(p: array<Byte>, offset: nat, bits: nat, value: nat)
    requires offset + bits <= 8 * p.Length
    modifies p
    ensures Holds(p[..], offset, bits, value, bits) && SameOutside(old(p[..]), p[..], offset, bits)
  {
    hide BitOf, Bit;
    ghost var s := p[..];
    var j := 0;
    while j < bits
      invariant 0 <= j <= bits && Holds(p[..], offset, bits, value, j) && SameOutside(s, p[..], offset, j)
    {
      var bitval := BitOf(value, bits - 1 - j);
      var byte, bit := (offset + j) / 8, (offset + j) % 8;
      ghost var t := p[..];
      p[byte] := p[byte][bit := bitval];
      assert p[..] == t[byte := t[byte][bit := bitval]];
      forall q | 0 <= q < 8 * |t| ensures Bit(p[..], q) == if q == offset + j then bitval else Bit(t, q) {
        BitSet(t, offset + j, bitval, q);
      }
      j := j + 1;
    }
  }

  /** getUnsignedBitfield. */
  method GetUnsignedBitfield(p: Bytes, offset: nat, bits: nat) returns (value: nat)
    requires offset + bits <= 8 * |p|
    ensures value == Number(p, offset, bits)
  {
    value := 0;
    var j := 0;
    while j < bits
      invariant 0 <= j <= bits && value == Number(p, offset, j)
    {
      value := 2 * value + I(p[(offset + j) / 8][(offset + j) % 8]);
      j := j + 1;
    }
  }

  // ---- Writing and reading back ------------------------------------------------------------------------------------

  lemma Product(d: int, m: int)
    requires m >= 0
    ensures d >= 1 ==> d * m >= m
    ensures d <= -1 ==> d * m <= -m
  {
    if d >= 1 { assert d * m == (d - 1) * m + m; }
    if d <= -1 { assert d * m == (d + 1) * m - m; }
  }

  /** Quotient and remainder are unique. */
  lemma ModIs(x: int, m: nat, k: int, r: nat)
    requires m > 0 && r < m && x == k * m + r
    ensures x % m == r && x / m == k
  {
    var k', r' := x / m, x % m;
    DivMod(x, m);
    Product(k' - k, m);
    Distribute(k', k, m);
  }

  lemma DivMod(x: int, m: nat)
    requires m > 0
    ensures x == (x / m) * m + x % m && 0 <= x % m < m
  {
  }

  lemma Distribute(a: int, b: int, m: nat)
    ensures (a - b) * m == a * m - b * m
  {
  }

  lemma HalfMod(q: nat, m: nat)
    requires m > 0
    ensures q % (2 * m) == 2 * (q / 2 % m) + q % 2
  {
    var h, r := q / 2, q % 2;
    var k, x := h / m, h % m;
    DivMod(h, m);
    assert q == 2 * (k * m) + (2 * x + r);
    Twice(k, m);
    ModIs(q, 2 * m, k, 2 * x + r);
  }

  lemma Twice(k: int, m: nat)
    ensures k * (2 * m) == 2 * (k * m)
  {
  }

  lemma DivTwice(v: nat, m: nat)
    requires m > 0
    ensures v / m / 2 == v / (2 * m)
  {
    var q, r := v / m, v % m;
    var h, b := q / 2, q % 2;
    DivMod(v, m);
    Twice(h, m);
    assert q == 2 * h + b;
    Split(h, b, m);
    ModIs(v, 2 * m, h, (if b == 1 then m else 0) + r);
  }

  lemma Split(h: nat, b: nat, m: nat)
    requires b < 2
    ensures (2 * h + b) * m == 2 * (h * m) + if b == 1 then m else 0
  {
  }

  lemma TopDigits(v: nat, k: nat, n: nat)
    requires n > 0
    ensures v / Pow2(k) % Pow2(n) == 2 * (v / Pow2(k + 1) % Pow2(n - 1)) + I(BitOf(v, k))
  {
    hide Pow2;
    Pow2Next(k);
    Pow2Next(n - 1);
    DivTwice(v, Pow2(k));
    HalfMod(v / Pow2(k), Pow2(n - 1));
  }

  lemma Pow2Next(k: nat)
    ensures Pow2(k + 1) == 2 * Pow2(k)
  {
  }

  /** The first n bits of a field that holds v spell the top n of its `bits` binary digits. */
  lemma {:induction false} NumberHeld(s: Bytes, off: nat, bits: nat, v: nat, n: nat)
    requires n <= bits && off + n <= 8 * |s| && Holds(s, off, bits, v, n)
    ensures Number(s, off, n) == v / Pow2(bits - n) % Pow2(n)
    decreases n
  {
    hide Bit, BitOf, Pow2;
    if n == 0 {
      ModOne(v / Pow2(bits), n);
    } else {
      NumberHeld(s, off, bits, v, n - 1);
      assert Bit(s, off + n - 1) == BitOf(v, bits - n);
      TopDigits(v, bits - n, n);
    }
  }

  lemma ModOne(x: nat, n: nat)
    requires n == 0
    ensures x % Pow2(n) == 0
  {
  }

  /** Reading what was written gives the value reduced to the width. */
  lemma WriteRead(s: Bytes, off: nat, bits: nat, v: nat)
    requires off + bits <= 8 * |s| && Holds(s, off, bits, v, bits)
    ensures Number(s, off, bits) == v % Pow2(bits)
  {
    NumberHeld(s, off, bits, v, bits);
    assert v / Pow2(0) == v;
  }
}
