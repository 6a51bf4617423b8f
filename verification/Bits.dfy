/** Bytes as their eight bits, strings of bytes as strings of bits, and bitwise AND on numbers. */
module Bits {

  /** Bit 0 is the most significant. */
  type Byte = b: seq<bool> | |b| == 8 witness [false, false, false, false, false, false, false, false]

  const ZERO: Byte := [false, false, false, false, false, false, false, false]
  const FULL: Byte := [true, true, true, true, true, true, true, true]

  type Bytes = seq<Byte>

  function I(one: bool): nat { if one then 1 else 0 }

  /** The number a byte stands for. */
  function Val(b: Byte): (n: nat)
    ensures n < 256
  {
    128 * I(b[0]) + 64 * I(b[1]) + 32 * I(b[2]) + 16 * I(b[3]) + 8 * I(b[4]) + 4 * I(b[5]) + 2 * I(b[6]) + I(b[7])
  }

  /** Bit i of a string. */
  predicate Bit(s: Bytes, i: nat)
    requires i < 8 * |s|
  {
    s[i / 8][i % 8]
  }

  lemma BitAt(s: Bytes, n: nat, k: nat)
    requires n < |s| && k < 8
    ensures 8 * n + k < 8 * |s| && Bit(s, 8 * n + k) == s[n][k]
  {
  }

  function Pow2(k: nat): (p: nat)
    ensures p > 0
  {
    if k == 0 then 1 else 2 * Pow2(k - 1)
  }

  /** Bitwise AND of two numbers. */
  function And(x: nat, y: nat): nat
    decreases x
  {
    if x == 0 then 0 else 2 * And(x / 2, y / 2) + I(x % 2 == 1 && y % 2 == 1)
  }

  lemma AndBit(x: nat, a: bool, y: nat, c: bool)
    ensures And(2 * x + I(a), 2 * y + I(c)) == 2 * And(x, y) + I(a && c)
  {
  }

  /** Two bits at a time. */
  lemma AndPair(x: nat, a: bool, b: bool, y: nat, c: bool, d: bool)
    ensures And(4 * x + (2 * I(a) + I(b)), 4 * y + (2 * I(c) + I(d))) == 4 * And(x, y) + (2 * I(a && c) + I(b && d))
  {
    hide And;
    AndBit(x, a, y, c);
    AndBit(2 * x + I(a), b, 2 * y + I(c), d);
  }
}
