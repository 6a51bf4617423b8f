/**
  Counting bits (src/bitops.c): the table lookup and the 28-byte parallel loop of redisPopcount,
  against a count bit by bit.
 */
module Popcount {
  import opened Bits

  /** How many of the first k bits are set. */
  function Ones(s: Bytes, k: nat): nat
    requires k <= 8 * |s|
  {
    if k == 0 then 0 else Ones(s, k - 1) + I(Bit(s, k - 1))
  }

  /** bitsinbyte. */
  function ByteOnes(b: Byte): (n: nat)
    ensures n <= 8
  {
    I(b[0]) + I(b[1]) + I(b[2]) + I(b[3]) + I(b[4]) + I(b[5]) + I(b[6]) + I(b[7])
  }

  lemma OnesNext(s: Bytes, n: nat, k: nat)
    requires n < |s| && k < 8
    ensures Ones(s, 8 * n + k + 1) == Ones(s, 8 * n + k) + I(s[n][k])
  {
    BitAt(s, n, k);
  }

  lemma OnesByte(s: Bytes, n: nat)
    requires n < |s|
    ensures Ones(s, 8 * n + 8) == Ones(s, 8 * n) + ByteOnes(s[n])
  {
    hide Ones, I;
    OnesNext(s, n, 0);
    OnesNext(s, n, 1);
    OnesNext(s, n, 2);
    OnesNext(s, n, 3);
    OnesNext(s, n, 4);
    OnesNext(s, n, 5);
    OnesNext(s, n, 6);
    OnesNext(s, n, 7);
  }

  // ---- Counting in parallel ---------------------------------------------------------------------------------------

  lemma {:induction false} AndBelow(x: nat, y: nat)
    ensures And(x, y) <= x
    decreases x
  {
    if x > 0 { AndBelow(x / 2, y / 2); }
  }

  /** A mask that repeats the same byte n times: 0x55555555, 0x33333333, 0x0F0F0F0F. */
  function Mask(one: nat, n: nat): nat {
    if n == 0 then 0 else 256 * Mask(one, n - 1) + one
  }

  /** Pairs of bits: x - ((x >> 1) & 0x55...). */
  function Pairs(x: nat, n: nat): (r: nat) {
    AndBelow(x / 2, Mask(0x55, n));
    x - And(x / 2, Mask(0x55, n))
  }

  /** Groups of four: (x & 0x33...) + ((x >> 2) & 0x33...). */
  function Nibbles(x: nat, n: nat): nat { And(x, Mask(0x33, n)) + And(x / 4, Mask(0x33, n)) }

  /** Groups of eight: (x + (x >> 4)) & 0x0F... */
  function Octets(x: nat, n: nat): nat { And(x + x / 16, Mask(0x0F, n)) }

  /** A number whose low byte consists of four base-4 digits. */
  function Quad(h: nat, d3: nat, d2: nat, d1: nat, d0: nat): nat { 256 * h + 64 * d3 + 16 * d2 + 4 * d1 + d0 }

  predicate Digit(d: nat) { d < 4 }

  /** The part of a base-4 digit that a mask digit of 0, 1 or 3 lets through. */
  function Through(d: nat, c: nat): nat { if c == 0 then 0 else if c == 1 then d % 2 else d }

  lemma AndDigit(x: nat, d: nat, y: nat, c: nat)
    requires Digit(d) && (c == 0 || c == 1 || c == 3)
    ensures And(4 * x + d, 4 * y + c) == 4 * And(x, y) + Through(d, c)
  {
    hide And;
    AndPair(x, d >= 2, d % 2 == 1, y, c >= 2, c % 2 == 1);
  }

  lemma AndQuad(h: nat, d3: nat, d2: nat, d1: nat, d0: nat, m: nat, c3: nat, c2: nat, c1: nat, c0: nat)
    requires Digit(d3) && Digit(d2) && Digit(d1) && Digit(d0)
    requires c3 in {0, 1, 3} && c2 in {0, 1, 3} && c1 in {0, 1, 3} && c0 in {0, 1, 3}
    ensures And(Quad(h, d3, d2, d1, d0), Quad(m, c3, c2, c1, c0))
            == Quad(And(h, m), Through(d3, c3), Through(d2, c2), Through(d1, c1), Through(d0, c0))
  {
    hide And, Through;
    var x3, y3 := 4 * h + d3, 4 * m + c3;
    var x2, y2 := 4 * x3 + d2, 4 * y3 + c2;
    var x1, y1 := 4 * x2 + d1, 4 * y2 + c1;
    AndDigit(h, d3, m, c3);
    AndDigit(x3, d2, y3, c2);
    AndDigit(x2, d1, y2, c1);
    AndDigit(x1, d0, y1, c0);
    assert 4 * x1 + d0 == Quad(h, d3, d2, d1, d0) && 4 * y1 + c0 == Quad(m, c3, c2, c1, c0);
  }

  lemma Quotient(x: nat, q: nat, r: nat)
    ensures x == 2 * q + r && r < 2 ==> x / 2 == q
    ensures x == 4 * q + r && r < 4 ==> x / 4 == q
    ensures x == 16 * q + r && r < 16 ==> x / 16 == q
  {
  }

  lemma PairsStep(h: nat, b0: nat, b1: nat, b2: nat, b3: nat, b4: nat, b5: nat, b6: nat, b7: nat, n: nat)
    requires b0 <= 1 && b1 <= 1 && b2 <= 1 && b3 <= 1 && b4 <= 1 && b5 <= 1 && b6 <= 1 && b7 <= 1
    ensures Pairs(Word(h, b0, b1, b2, b3, b4, b5, b6, b7), n + 1)
            == Quad(Pairs(h, n), b0 + b1, b2 + b3, b4 + b5, b6 + b7)
  {
    hide And, Quad, Word, Through, Mask;
    var h', g, m := h / 2, h % 2, Mask(0x55, n);
    assert h == 2 * h' + g;
    AndBelow(h', m);
    HalfQuad(h', g, b0, b1, b2, b3, b4, b5, b6, b7);
    AndQuad(h', 2 * g + b0, 2 * b1 + b2, 2 * b3 + b4, 2 * b5 + b6, m, 1, 1, 1, 1);
    MaskQuad(n);
    LowBit(g, b0);
    LowBit(b1, b2);
    LowBit(b3, b4);
    LowBit(b5, b6);
    MinusQuad(h, And(h', m), b0, b1, b2, b3, b4, b5, b6, b7);
  }

  lemma LowBit(g: nat, b: nat)
    requires b <= 1
    ensures Through(2 * g + b, 1) == b
  {
  }

  lemma MaskQuad(n: nat)
    ensures Mask(0x55, n + 1) == Quad(Mask(0x55, n), 1, 1, 1, 1)
    ensures Mask(0x33, n + 1) == Quad(Mask(0x33, n), 0, 3, 0, 3)
    ensures Mask(0x0F, n + 1) == Quad(Mask(0x0F, n), 0, 0, 3, 3)
  {
  }

  /** A byte of bits, after 256 * h. */
  function Word(h: nat, b0: nat, b1: nat, b2: nat, b3: nat, b4: nat, b5: nat, b6: nat, b7: nat): nat {
    256 * h + 128 * b0 + 64 * b1 + 32 * b2 + 16 * b3 + 8 * b4 + 4 * b5 + 2 * b6 + b7
  }

  lemma HalfQuad(h: nat, g: nat, b0: nat, b1: nat, b2: nat, b3: nat, b4: nat, b5: nat, b6: nat, b7: nat)
    requires b7 <= 1
    ensures Word(2 * h + g, b0, b1, b2, b3, b4, b5, b6, b7) / 2
            == Quad(h, 2 * g + b0, 2 * b1 + b2, 2 * b3 + b4, 2 * b5 + b6)
  {
    Quotient(Word(2 * h + g, b0, b1, b2, b3, b4, b5, b6, b7),
             Quad(h, 2 * g + b0, 2 * b1 + b2, 2 * b3 + b4, 2 * b5 + b6), b7);
  }

  lemma MinusQuad(h: nat, m: nat, b0: nat, b1: nat, b2: nat, b3: nat, b4: nat, b5: nat, b6: nat, b7: nat)
    requires m <= h
    ensures Word(h, b0, b1, b2, b3, b4, b5, b6, b7) - Quad(m, b0, b2, b4, b6)
            == Quad(h - m, b0 + b1, b2 + b3, b4 + b5, b6 + b7)
  {
  }

  lemma QuarterQuad(g: nat, r: nat, c3: nat, c2: nat, c1: nat, c0: nat)
    requires c0 < 4
    ensures Quad(4 * g + r, c3, c2, c1, c0) / 4 == Quad(g, r, c3, c2, c1)
  {
    Quotient(Quad(4 * g + r, c3, c2, c1, c0), Quad(g, r, c3, c2, c1), c0);
  }

  lemma PlusQuad(a: nat, b: nat, c3: nat, c2: nat, c1: nat, c0: nat)
    ensures Quad(a, 0, c2, 0, c0) + Quad(b, 0, c3, 0, c1) == Quad(a + b, 0, c2 + c3, 0, c0 + c1)
  {
  }

  lemma NibblesStep(g: nat, c3: nat, c2: nat, c1: nat, c0: nat, n: nat)
    requires c3 <= 2 && c2 <= 2 && c1 <= 2 && c0 <= 2
    ensures Nibbles(Quad(g, c3, c2, c1, c0), n + 1) == Quad(Nibbles(g, n), 0, c2 + c3, 0, c0 + c1)
  {
    hide And, Quad, Mask;
    var g', r, m := g / 4, g % 4, Mask(0x33, n);
    assert g == 4 * g' + r;
    QuarterQuad(g', r, c3, c2, c1, c0);
    MaskQuad(n);
    AndQuad(g, c3, c2, c1, c0, m, 0, 3, 0, 3);
    AndQuad(g', r, c3, c2, c1, m, 0, 3, 0, 3);
    PlusQuad(And(g, m), And(g', m), c3, c2, c1, c0);
  }

  /** Adding the high half of each byte to the low half. */
  lemma HalvesMeet(g: nat, r: nat, q1: nat, q0: nat, u1: nat, u0: nat, v1: nat, v0: nat)
    requires q0 < 16 && 4 * u1 + u0 == r + q1 && 4 * v1 + v0 == q0 + q1
    ensures var x := Quad(16 * g + r, 0, q1, 0, q0); x + x / 16 == Quad(16 * g + r + g, u1, u0, v1, v0)
  {
    var x := Quad(16 * g + r, 0, q1, 0, q0);
    Quotient(x, 16 * (16 * g + r) + q1, q0);
  }

  lemma OctetsStep(g: nat, q1: nat, q0: nat, n: nat)
    requires g % 16 <= 4 && q1 <= 4 && q0 <= 4
    ensures Octets(Quad(g, 0, q1, 0, q0), n + 1) == 256 * Octets(g, n) + (q0 + q1)
  {
    hide And, Mask, Quad, Through;
    var g', r, m := g / 16, g % 16, Mask(0x0F, n);
    assert g == 16 * g' + r;
    var u1 := Fours(r + q1);
    var v1 := Fours(q0 + q1);
    var u0, v0 := r + q1 - 4 * u1, q0 + q1 - 4 * v1;
    HalvesMeet(g', r, q1, q0, u1, u0, v1, v0);
    MaskQuad(n);
    AndQuad(g + g', u1, u0, v1, v0, m, 0, 0, 3, 3);
    LowHalf(And(g + g', m), u1, u0, v1, v0);
  }

  /** How many fours a number up to eight holds. */
  function Fours(x: nat): (f: nat)
    requires x <= 8
    ensures 4 * f <= x < 4 * f + 4 && f < 4
  {
    if x < 4 then 0 else if x < 8 then 1 else 2
  }

  lemma LowHalf(h: nat, u1: nat, u0: nat, v1: nat, v0: nat)
    ensures Quad(h, Through(u1, 0), Through(u0, 0), Through(v1, 3), Through(v0, 3)) == 256 * h + (4 * v1 + v0)
  {
  }

  /** The three steps on n bytes. */
  function Counted(x: nat, n: nat): nat { Octets(Nibbles(Pairs(x, n), n), n) }

  lemma CountedBits(h: nat, b0: nat, b1: nat, b2: nat, b3: nat, b4: nat, b5: nat, b6: nat, b7: nat, n: nat)
    requires b0 <= 1 && b1 <= 1 && b2 <= 1 && b3 <= 1 && b4 <= 1 && b5 <= 1 && b6 <= 1 && b7 <= 1
    requires Nibbles(Pairs(h, n), n) % 16 <= 4
    ensures Counted(Word(h, b0, b1, b2, b3, b4, b5, b6, b7), n + 1)
            == 256 * Counted(h, n) + (b0 + b1 + b2 + b3 + b4 + b5 + b6 + b7)
    ensures Nibbles(Pairs(Word(h, b0, b1, b2, b3, b4, b5, b6, b7), n + 1), n + 1) % 16 <= 4
  {
    hide Octets, Nibbles, Pairs, Word;
    PairsStep(h, b0, b1, b2, b3, b4, b5, b6, b7, n);
    NibblesStep(Pairs(h, n), b0 + b1, b2 + b3, b4 + b5, b6 + b7, n);
    OctetsStep(Nibbles(Pairs(h, n), n), b2 + b3 + (b0 + b1), b6 + b7 + (b4 + b5), n);
  }

  lemma CountedStep(h: nat, b: Byte, n: nat)
    requires Nibbles(Pairs(h, n), n) % 16 <= 4
    ensures Counted(256 * h + Val(b), n + 1) == 256 * Counted(h, n) + ByteOnes(b)
    ensures Nibbles(Pairs(256 * h + Val(b), n + 1), n + 1) % 16 <= 4
  {
    hide Counted, Nibbles, Pairs;
    assert 256 * h + Val(b) == Word(h, I(b[0]), I(b[1]), I(b[2]), I(b[3]), I(b[4]), I(b[5]), I(b[6]), I(b[7]));
    CountedBits(h, I(b[0]), I(b[1]), I(b[2]), I(b[3]), I(b[4]), I(b[5]), I(b[6]), I(b[7]), n);
  }

  /** A 32-bit word in memory, the low byte first. */
  function Load(b0: Byte, b1: Byte, b2: Byte, b3: Byte): nat {
    256 * (256 * (256 * Val(b3) + Val(b2)) + Val(b1)) + Val(b0)
  }

  lemma {:induction false} AndZero(x: nat, y: nat)
    requires y == 0
    ensures And(x, y) == 0
    decreases x
  {
    if x > 0 { AndZero(x / 2, y / 2); }
  }

  lemma CountedZero(x: nat, n: nat)
    requires n == 0
    ensures Nibbles(x, n) == 0 && Octets(x, n) == 0
  {
    var m3, m15 := Mask(0x33, n), Mask(0x0F, n);
    assert m3 == 0 && m15 == 0;
    hide And, Mask;
    AndZero(x, m3);
    AndZero(x / 4, m3);
    AndZero(x + x / 16, m15);
  }

  /** Each byte of the word becomes its own bit count. */
  lemma CountedWord(b0: Byte, b1: Byte, b2: Byte, b3: Byte)
    ensures Counted(Load(b0, b1, b2, b3), 4)
            == 256 * (256 * (256 * ByteOnes(b3) + ByteOnes(b2)) + ByteOnes(b1)) + ByteOnes(b0)
  {
    hide Octets, Nibbles, Pairs, ByteOnes, Val;
    CountedZero(Pairs(0, 0), 0);
    CountedZero(Nibbles(Pairs(0, 0), 0), 0);
    CountedStep(0, b3, 0);
    CountedStep(Val(b3), b2, 1);
    CountedStep(256 * Val(b3) + Val(b2), b1, 2);
    CountedStep(256 * (256 * Val(b3) + Val(b2)) + Val(b1), b0, 3);
  }

  // ---- 32-bit arithmetic ----------------------------------------------------------------------------------

  const WRAP: nat := 0x1_0000_0000

  /** The three steps as uint32_t operations. */
  function Swar(x: nat): nat {
    var a := (x - And(x / 2, 0x55555555)) % WRAP;
    var b := (And(a, 0x33333333) + And(a / 4, 0x33333333)) % WRAP;
    And((b + b / 16) % WRAP, 0x0F0F0F0F)
  }

  lemma {:induction false} AndBelowMask(x: nat, y: nat)
    ensures And(x, y) <= y
    decreases x
  {
    if x > 0 { AndBelowMask(x / 2, y / 2); }
  }

  lemma MaskFour(one: nat, n: nat)
    requires n == 4
    ensures Mask(one, n) == 0x01010101 * one
  {
    hide Mask;
    MaskNext(one, 0);
    MaskNext(one, 1);
    MaskNext(one, 2);
    MaskNext(one, 3);
  }

  lemma MaskNext(one: nat, n: nat)
    ensures Mask(one, 0) == 0 && Mask(one, n + 1) == 256 * Mask(one, n) + one
  {
  }

  lemma NoWrap(x: nat)
    requires x < WRAP
    ensures x % WRAP == x
  {
  }

  /** Nothing wraps around. */
  lemma SwarIsCounted(x: nat)
    requires x < WRAP
    ensures Swar(x) == Counted(x, 4)
  {
    hide And, Mask;
    MaskFour(0x55, 4);
    MaskFour(0x33, 4);
    MaskFour(0x0F, 4);
    AndBelow(x / 2, 0x55555555);
    var a := x - And(x / 2, 0x55555555);
    NoWrap(a);
    AndBelowMask(a, 0x33333333);
    AndBelowMask(a / 4, 0x33333333);
    var b := And(a, 0x33333333) + And(a / 4, 0x33333333);
    NoWrap(b);
    NoWrap(b + b / 16);
  }

  /** Four byte sums side by side in a word. */
  function Lanes(t0: nat, t1: nat, t2: nat, t3: nat): nat { t0 + 256 * t1 + 65536 * t2 + 16777216 * t3 }

  /** Multiplying by 0x01010101 adds the four bytes up in the top one, which they fit. */
  lemma FoldBytes(t0: nat, t1: nat, t2: nat, t3: nat)
    requires t0 <= 56 && t1 <= 56 && t2 <= 56 && t3 <= 56
    ensures Lanes(t0, t1, t2, t3) * 0x01010101 % WRAP / 0x1000000 == t0 + t1 + t2 + t3
  {
    var high := t1 + t2 + t3 + 256 * (t2 + t3) + 65536 * t3;
    var low := t0 + 256 * (t0 + t1) + 65536 * (t0 + t1 + t2);
    assert Lanes(t0, t1, t2, t3) * 0x01010101 == WRAP * high + (0x1000000 * (t0 + t1 + t2 + t3) + low);
    Remainder(high, 0x1000000 * (t0 + t1 + t2 + t3) + low);
    TopByte(t0 + t1 + t2 + t3, low);
  }

  lemma Remainder(q: nat, r: nat)
    requires r < WRAP
    ensures (WRAP * q + r) % WRAP == r
  {
  }

  lemma TopByte(q: nat, r: nat)
    requires r < 0x1000000
    ensures (0x1000000 * q + r) / 0x1000000 == q
  {
  }

  function WordAt(s: Bytes, i: nat): nat
    requires i + 4 <= |s|
  {
    Load(s[i], s[i + 1], s[i + 2], s[i + 3])
  }

  lemma SwarWord(s: Bytes, i: nat)
    requires i + 4 <= |s|
    ensures Swar(WordAt(s, i)) == Lanes(ByteOnes(s[i]), ByteOnes(s[i + 1]), ByteOnes(s[i + 2]), ByteOnes(s[i + 3]))
  {
    hide Swar, Counted, ByteOnes;
    LoadBound(s[i], s[i + 1], s[i + 2], s[i + 3]);
    hide Load;
    SwarIsCounted(WordAt(s, i));
    CountedWord(s[i], s[i + 1], s[i + 2], s[i + 3]);
  }

  lemma LoadBound(b0: Byte, b1: Byte, b2: Byte, b3: Byte)
    ensures Load(b0, b1, b2, b3) < WRAP
  {
    hide Val;
  }

  lemma OnesWord(s: Bytes, i: nat)
    requires i + 4 <= |s|
    ensures Ones(s, 8 * (i + 4))
            == Ones(s, 8 * i) + ByteOnes(s[i]) + ByteOnes(s[i + 1]) + ByteOnes(s[i + 2]) + ByteOnes(s[i + 3])
  {
    hide Ones, ByteOnes;
    OnesByte(s, i);
    OnesByte(s, i + 1);
    OnesByte(s, i + 2);
    OnesByte(s, i + 3);
  }

  /** The sum of the counts of n words from i on, lane by lane. */
  function Lane(s: Bytes, i: nat, n: nat, k: nat): (t: nat)
    requires i + 4 * n <= |s| && k < 4
    ensures t <= 8 * n
  {
    if n == 0 then 0 else Lane(s, i, n - 1, k) + ByteOnes(s[i + 4 * (n - 1) + k])
  }

  /** The seven counted words of a block, added up. */
  function SumWords(s: Bytes, i: nat, n: nat): nat
    requires i + 4 * n <= |s|
  {
    if n == 0 then 0 else SumWords(s, i, n - 1) + Swar(WordAt(s, i + 4 * (n - 1)))
  }

  lemma LanesPlus(a0: nat, a1: nat, a2: nat, a3: nat, b0: nat, b1: nat, b2: nat, b3: nat)
    ensures Lanes(a0, a1, a2, a3) + Lanes(b0, b1, b2, b3) == Lanes(a0 + b0, a1 + b1, a2 + b2, a3 + b3)
  {
  }

  lemma {:induction false} SumIsLanes(s: Bytes, i: nat, n: nat)
    requires i + 4 * n <= |s|
    ensures SumWords(s, i, n) == Lanes(Lane(s, i, n, 0), Lane(s, i, n, 1), Lane(s, i, n, 2), Lane(s, i, n, 3))
    decreases n
  {
    hide Swar, ByteOnes, WordAt;
    if n > 0 {
      var w := i + 4 * (n - 1);
      SumIsLanes(s, i, n - 1);
      SwarWord(s, w);
      LanesPlus(Lane(s, i, n - 1, 0), Lane(s, i, n - 1, 1), Lane(s, i, n - 1, 2), Lane(s, i, n - 1, 3),
                ByteOnes(s[w]), ByteOnes(s[w + 1]), ByteOnes(s[w + 2]), ByteOnes(s[w + 3]));
      hide Lanes;
    }
  }

  lemma {:induction false} OnesIsLanes(s: Bytes, i: nat, n: nat)
    requires i + 4 * n <= |s|
    ensures Ones(s, 8 * (i + 4 * n))
            == Ones(s, 8 * i) + Lane(s, i, n, 0) + Lane(s, i, n, 1) + Lane(s, i, n, 2) + Lane(s, i, n, 3)
    decreases n
  {
    hide ByteOnes, Ones;
    if n > 0 {
      OnesIsLanes(s, i, n - 1);
      OnesWord(s, i + 4 * (n - 1));
    }
  }

  lemma LanesBound(t0: nat, t1: nat, t2: nat, t3: nat)
    requires t0 <= 56 && t1 <= 56 && t2 <= 56 && t3 <= 56
    ensures Lanes(t0, t1, t2, t3) % WRAP == Lanes(t0, t1, t2, t3)
  {
    NoWrap(Lanes(t0, t1, t2, t3));
  }

  /** Twenty-eight bytes in one turn: seven words sum to at most 224, which fits the top byte. */
  lemma BlockOnes(s: Bytes, i: nat, n: nat)
    requires n == 7 && i + 4 * n <= |s|
    ensures SumWords(s, i, n) % WRAP * 0x01010101 % WRAP / 0x1000000 == Ones(s, 8 * (i + 4 * n)) - Ones(s, 8 * i)
  {
    hide Swar, Ones, SumWords, Lane, Lanes;
    SumIsLanes(s, i, n);
    OnesIsLanes(s, i, n);
    LanesBound(Lane(s, i, n, 0), Lane(s, i, n, 1), Lane(s, i, n, 2), Lane(s, i, n, 3));
    FoldBytes(Lane(s, i, n, 0), Lane(s, i, n, 1), Lane(s, i, n, 2), Lane(s, i, n, 3));
  }

  /** redisPopcount of a string that starts at this address. */
  method RedisPopcount(s: Bytes, address: nat) returns (bits: int)
    ensures bits == Ones(s, 8 * |s|)
  {
    hide Ones, ByteOnes, Swar;
    bits := 0;
    var i := 0;
    OnesNone(s);
    while (address + i) % 4 != 0 && i < |s|
      invariant 0 <= i <= |s| && bits == Ones(s, 8 * i)
      decreases |s| - i
    {
      OnesByte(s, i);
      bits := bits + ByteOnes(s[i]);
      i := i + 1;
    }
    while |s| - i >= 28
      invariant 0 <= i <= |s| && bits == Ones(s, 8 * i)
      decreases |s| - i
    {
      BlockOnes(s, i, 7);
      var sum, w := 0, 0;
      while w < 7
        invariant 0 <= w <= 7 && sum == SumWords(s, i, w)
      {
        sum := sum + Swar(WordAt(s, i + 4 * w));
        w := w + 1;
      }
      bits := bits + sum % WRAP * 0x01010101 % WRAP / 0x1000000;
      i := i + 28;
    }
    while i < |s|
      invariant 0 <= i <= |s| && bits == Ones(s, 8 * i)
    {
      OnesByte(s, i);
      bits := bits + ByteOnes(s[i]);
      i := i + 1;
    }
  }

  lemma OnesNone(s: Bytes)
    ensures Ones(s, 0) == 0
  {
  }
}
