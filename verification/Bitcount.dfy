/** BITCOUNT (src/bitops.c): index ranges in bytes or bits, and the masked edges of a bit range. */
module Bitcount {
  import opened Bits
  import opened Popcount

  // ---- Edge masks ----------------------------------------------------------------------------------------------

  /** The bits before bit k. */
  function FirstMask(k: nat): Byte
    requires k < 8
  {
    seq(8, i => i < k)
  }

  /** The bits after bit k. */
  function LastMask(k: nat): Byte
    requires k < 8
  {
    seq(8, i => i > k)
  }

  /** The masks are the numbers the program computes: ~((1 << (8 - k)) - 1) & 0xFF and (1 << (7 - k)) - 1. */
  lemma MaskValues(k: nat)
    requires k < 8
    ensures Val(FirstMask(k)) == 0xFF - (Pow2(8 - k) - 1) && Val(LastMask(k)) == Pow2(7 - k) - 1
  {
    assert Pow2(2) == 4 && Pow2(4) == 16 && Pow2(6) == 64 && Pow2(8) == 256;
  }

  function AndBytes(a: Byte, b: Byte): Byte { seq(8, i requires 0 <= i < 8 => a[i] && b[i]) }

  /** The number of ones among the first k bits of a byte. */
  function PrefixOnes(b: Byte, k: nat): nat
    requires k <= 8
  {
    if k == 0 then 0 else PrefixOnes(b, k - 1) + I(b[k - 1])
  }

  lemma ByteIsPrefix(b: Byte)
    ensures ByteOnes(b) == PrefixOnes(b, 8)
  {
    hide I;
    assert PrefixOnes(b, 0) == 0;
    assert PrefixOnes(b, 1) == PrefixOnes(b, 0) + I(b[0]);
    assert PrefixOnes(b, 2) == PrefixOnes(b, 1) + I(b[1]);
    assert PrefixOnes(b, 3) == PrefixOnes(b, 2) + I(b[2]);
    assert PrefixOnes(b, 4) == PrefixOnes(b, 3) + I(b[3]);
    assert PrefixOnes(b, 5) == PrefixOnes(b, 4) + I(b[4]);
    assert PrefixOnes(b, 6) == PrefixOnes(b, 5) + I(b[5]);
    assert PrefixOnes(b, 7) == PrefixOnes(b, 6) + I(b[6]);
    assert PrefixOnes(b, 8) == PrefixOnes(b, 7) + I(b[7]);
  }

  lemma {:induction false} FirstMasked(b: Byte, k: nat, j: nat)
    requires k < 8 && j <= 8
    ensures PrefixOnes(AndBytes(b, FirstMask(k)), j) == PrefixOnes(b, if j < k then j else k)
    decreases j
  {
    if j > 0 { FirstMasked(b, k, j - 1); }
  }

  lemma {:induction false} LastMasked(b: Byte, k: nat, j: nat)
    requires k < 8 && j <= 8
    ensures PrefixOnes(AndBytes(b, LastMask(k)), j) == if j <= k + 1 then 0 else PrefixOnes(b, j) - PrefixOnes(b, k + 1)
    decreases j
  {
    if j > 0 { LastMasked(b, k, j - 1); }
  }

  lemma {:induction false} OnesInByte(s: Bytes, n: nat, k: nat)
    requires n < |s| && k <= 8
    ensures Ones(s, 8 * n + k) == Ones(s, 8 * n) + PrefixOnes(s[n], k)
    decreases k
  {
    hide Ones;
    if k > 0 {
      OnesInByte(s, n, k - 1);
      OnesNext(s, n, k - 1);
    }
  }

  /** The bits cut off at the two ends of a bit range. */
  lemma EdgeOnes(s: Bytes, n: nat, k: nat)
    requires n < |s| && k < 8
    ensures ByteOnes(AndBytes(s[n], FirstMask(k))) == Ones(s, 8 * n + k) - Ones(s, 8 * n)
    ensures ByteOnes(AndBytes(s[n], LastMask(k))) == Ones(s, 8 * n + 8) - Ones(s, 8 * n + k + 1)
  {
    hide Ones, ByteOnes, PrefixOnes;
    ByteIsPrefix(AndBytes(s[n], FirstMask(k)));
    ByteIsPrefix(AndBytes(s[n], LastMask(k)));
    FirstMasked(s[n], k, 8);
    LastMasked(s[n], k, 8);
    OnesInByte(s, n, k);
    OnesInByte(s, n, k + 1);
    OnesInByte(s, n, 8);
    PrefixNone(s[n]);
  }

  lemma PrefixNone(b: Byte)
    ensures PrefixOnes(b, 0) == 0
  {
  }

  // ---- Ranges -------------------------------------------------------------------------------------------------------

  /** The arguments: the whole string, or a range of byte or bit indexes. */
  datatype Range = Whole | Given(start: int, end: int, isbit: bool)

  /** A unit of the string, a byte or a bit, lies between two indexes; negative ones count from the end. */
  ghost predicate Between(u: int, start: int, end: int, total: nat) {
    && (if start < 0 then total + start else start) <= u
    && u <= if end >= 0 then end else if total + end < 0 then 0 else total + end
  }

  /** The range asks for bit i of a string of so many bytes. */
  ghost predicate Asked(r: Range, len: nat, i: nat) {
    match r
    case Whole => true
    case Given(start, end, isbit) =>
      && !(start < 0 && end < 0 && start > end)
      && if isbit then Between(i, start, end, 8 * len) else Between(i / 8, start, end, len)
  }

  /** How many of the first k bits are set and asked for. */
  ghost function CountAsked(s: Bytes, r: Range, k: nat): nat
    requires k <= 8 * |s|
  {
    if k == 0 then 0 else CountAsked(s, r, k - 1) + I(Bit(s, k - 1) && Asked(r, |s|, k - 1))
  }

  /** The bits asked for are those from a up to b - 1. */
  ghost predicate Bounds(r: Range, len: nat, a: nat, b: nat) {
    a <= b <= 8 * len && forall i: nat :: i < 8 * len ==> (Asked(r, len, i) <==> a <= i < b)
  }

  lemma {:induction false} CountBounds(s: Bytes, r: Range, a: nat, b: nat, k: nat)
    requires Bounds(r, |s|, a, b) && k <= 8 * |s|
    ensures CountAsked(s, r, k) == if k <= a then 0 else Ones(s, if k < b then k else b) - Ones(s, a)
    decreases k
  {
    hide Asked, Bit;
    if k > 0 { CountBounds(s, r, a, b, k - 1); }
  }

  /** BITCOUNT key -k -1 counts the last k units. */
  lemma LastUnits(s: Bytes, k: nat, isbit: bool)
    requires 1 <= k <= if isbit then 8 * |s| else |s|
    ensures CountAsked(s, Given(0 - k, -1, isbit), 8 * |s|)
            == Ones(s, 8 * |s|) - Ones(s, 8 * |s| - if isbit then k else 8 * k)
  {
    var a := 8 * |s| - if isbit then k else 8 * k;
    assert Bounds(Given(0 - k, -1, isbit), |s|, a, 8 * |s|);
    hide Bounds;
    CountBounds(s, Given(0 - k, -1, isbit), a, 8 * |s|, 8 * |s|);
  }

  /** Two indexes from the start count the units from the one to the other. */
  lemma UnitsBetween(s: Bytes, m: nat, n: nat, isbit: bool)
    requires m <= n < if isbit then 8 * |s| else |s|
    ensures var unit := if isbit then 1 else 8;
            CountAsked(s, Given(m, n, isbit), 8 * |s|) == Ones(s, unit * (n + 1)) - Ones(s, unit * m)
  {
    var unit := if isbit then 1 else 8;
    assert Bounds(Given(m, n, isbit), |s|, unit * m, unit * (n + 1));
    hide Bounds;
    CountBounds(s, Given(m, n, isbit), unit * m, unit * (n + 1), 8 * |s|);
  }

  /** Two indexes from the end likewise; -1 is the last unit. */
  lemma UnitsFromEnd(s: Bytes, k: nat, j: nat, isbit: bool)
    requires 1 <= j <= k <= if isbit then 8 * |s| else |s|
    ensures var unit, total := if isbit then 1 else 8, if isbit then 8 * |s| else |s|;
            CountAsked(s, Given(0 - k, 0 - j, isbit), 8 * |s|)
            == Ones(s, unit * (total - j + 1)) - Ones(s, unit * (total - k))
  {
    var unit, total := if isbit then 1 else 8, if isbit then 8 * |s| else |s|;
    assert Bounds(Given(0 - k, 0 - j, isbit), |s|, unit * (total - k), unit * (total - j + 1));
    hide Bounds;
    CountBounds(s, Given(0 - k, 0 - j, isbit), unit * (total - k), unit * (total - j + 1), 8 * |s|);
  }

  /** Without a range, or with one that reaches past both ends, every bit counts. */
  lemma EveryUnit(s: Bytes, m: nat, n: nat, isbit: bool)
    requires m >= 8 * |s| && n + 1 >= 8 * |s|
    ensures CountAsked(s, Whole, 8 * |s|) == CountAsked(s, Given(0 - m, n, isbit), 8 * |s|) == Ones(s, 8 * |s|)
  {
    assert Bounds(Whole, |s|, 0, 8 * |s|) && Bounds(Given(0 - m, n, isbit), |s|, 0, 8 * |s|);
    hide Bounds;
    CountBounds(s, Whole, 0, 8 * |s|, 8 * |s|);
    CountBounds(s, Given(0 - m, n, isbit), 0, 8 * |s|, 8 * |s|);
  }

  /** Indexes of one sign out of order count nothing. */
  lemma OutOfOrder(s: Bytes, start: int, end: int, isbit: bool)
    requires start > end && (start < 0 || end >= 0)
    ensures CountAsked(s, Given(start, end, isbit), 8 * |s|) == 0
  {
    assert Bounds(Given(start, end, isbit), |s|, 0, 0);
    hide Bounds;
    CountBounds(s, Given(start, end, isbit), 0, 0, 8 * |s|);
  }

  lemma {:induction false} OnesSlice(s: Bytes, lo: nat, hi: nat, k: nat)
    requires lo <= hi <= |s| && k <= 8 * (hi - lo)
    ensures Ones(s[lo..hi], k) == Ones(s, 8 * lo + k) - Ones(s, 8 * lo)
    decreases k
  {
    if k > 0 {
      OnesSlice(s, lo, hi, k - 1);
      var t := s[lo..hi];
      assert t[(k - 1) / 8] == s[lo + (k - 1) / 8];
      BitAt(s, lo + (k - 1) / 8, (k - 1) % 8);
    }
  }

  lemma TwoBytes(x: Byte, y: Byte)
    ensures Ones([x, y], 16) == ByteOnes(x) + ByteOnes(y)
  {
    hide ByteOnes, Ones;
    OnesByte([x, y], 0);
    OnesByte([x, y], 1);
    OnesNone([x, y]);
  }

  lemma NoMasks()
    ensures FirstMask(0) == ZERO && LastMask(7) == ZERO
  {
  }

  /** The bits of bytes start to end, without the first k1 and the last 7 - k2. */
  method CountBytes(s: Bytes, start: nat, end: nat, first: Byte, last: Byte, address: nat, ghost k1: nat, ghost k2: nat)
    returns (count: int)
    requires start <= end < |s| && k1 < 8 && k2 < 8 && first == FirstMask(k1) && last == LastMask(k2)
    ensures count == Ones(s, 8 * end + k2 + 1) - Ones(s, 8 * start + k1)
  {
    hide Ones, ByteOnes, AndBytes, FirstMask, LastMask;
    count := RedisPopcount(s[start..end + 1], address + start);
    OnesSlice(s, start, end + 1, 8 * (end + 1 - start));
    EdgeOnes(s, start, k1);
    EdgeOnes(s, end, k2);
    if first != ZERO || last != ZERO {
      var edges := [AndBytes(s[start], first), AndBytes(s[end], last)];
      TwoBytes(edges[0], edges[1]);
      var outside := RedisPopcount(edges, 0);
      count := count - outside;
    } else {
      AndZero(s[start]);
      AndZero(s[end]);
    }
  }

  lemma AndZero(b: Byte)
    ensures ByteOnes(AndBytes(b, ZERO)) == 0
  {
  }

  /** Negative indexes are turned into ones from the start, and both are brought inside the string. */
  method Clip(start: int, end: int, total: nat) returns (first: nat, last: int)
    ensures -1 <= last < total
    ensures forall u :: 0 <= u < total ==> (Between(u, start, end, total) <==> first <= u <= last)
    ensures first == if start >= 0 then start else if total + start < 0 then 0 else total + start
    ensures end >= 0 && end >= total - 1 ==> last == total - 1
  {
    var lo, hi := start, end;
    if lo < 0 { lo := total + lo; }
    if hi < 0 { hi := total + hi; }
    if lo < 0 { lo := 0; }
    if hi < 0 { hi := 0; }
    if hi >= total { hi := total - 1; }
    return lo, hi;
  }

  /** bitcountCommand on an existing string. */
  method Bitcount(s: Bytes, r: Range, address: nat) returns (count: int)
    ensures count == CountAsked(s, r, 8 * |s|)
  {
    hide Ones, FirstMask, LastMask, CountAsked, Between;
    NoMasks();
    var start: int, end: int := 0, |s| - 1;
    var first, last := ZERO, ZERO;
    ghost var k1, k2 := 0, 7;
    if r.Given? {
      if r.start < 0 && r.end < 0 && r.start > r.end {
        CountNothing(s, r);
        return 0;
      }
      start, end := Clip(r.start, r.end, if r.isbit then 8 * |s| else |s|);
      if r.isbit && start <= end {
        k1, k2 := start % 8, end % 8;
        first, last := FirstMask(start % 8), LastMask(end % 8);
        start, end := start / 8, end / 8;
      }
    }
    if start > end {
      CountNothing(s, r);
      return 0;
    }
    assert Bounds(r, |s|, 8 * start + k1, 8 * end + k2 + 1) by { hide Between; }
    hide Bounds, Asked;
    CountBounds(s, r, 8 * start + k1, 8 * end + k2 + 1, 8 * |s|);
    count := CountBytes(s, start, end, first, last, address, k1, k2);
  }

  lemma CountNothing(s: Bytes, r: Range)
    requires forall i: nat :: i < 8 * |s| ==> !Asked(r, |s|, i)
    ensures CountAsked(s, r, 8 * |s|) == 0
  {
    hide Asked;
    CountBounds(s, r, 0, 0, 8 * |s|);
  }
}
