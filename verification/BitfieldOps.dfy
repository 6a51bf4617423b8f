/**
  Overflow in BITFIELD (src/bitops.c): the checks with their 64-bit arithmetic written out, the
  three policies, and the commands that use them.
 */
module BitfieldOps {
  import opened Bits
  import opened Bitfield
  import opened Options

  const TWO63: int := 0x8000_0000_0000_0000
  const TWO64: int := 0x1_0000_0000_0000_0000

  /** Conversion to uint64_t and int64_t. */
  function U64(x: int): (r: nat)
    ensures r < TWO64
  {
    x % TWO64
  }

  function I64(x: int): (r: int)
    ensures -TWO63 <= r < TWO63
  {
    (x + TWO63) % TWO64 - TWO63
  }

  predicate IsI64(x: int) { -TWO63 <= x < TWO63 }

  datatype Policy = Wrap | Sat | Fail

  // ---- What the policies mean -----------------------------------------------------------------------------------

  /** A result that fits is kept; else it is wrapped around the range, clamped to it, or given up. */
  function Target(raw: int, lo: int, hi: int, ow: Policy): Option<int>
    requires lo <= hi
  {
    if lo <= raw <= hi then Some(raw)
    else
      match ow
      case Wrap => Some(lo + (raw - lo) % (hi - lo + 1))
      case Sat => Some(if raw < lo then lo else hi)
      case Fail => None
  }

  // ---- The checks -------------------------------------------------------------------------------------------------

  /** The returned flag, and what *limit is set to. */
  datatype Check = Check(overflow: int, limit: int)

  /** checkUnsignedBitfieldOverflow. */
  function CheckUnsigned(value: nat, incr: int, bits: nat, ow: Policy): Check {
    var max := Pow2(bits) - 1;
    var maxincr, minincr := I64(max - value), I64(0 - value);
    var wrapped := U64(value + incr) % Pow2(bits);
    if value > max || (incr > 0 && incr > maxincr) then
      Check(1, if ow == Wrap then wrapped else if ow == Sat then max else 0)
    else if incr < 0 && incr < minincr then
      Check(if ow == Wrap then 1 else -1, if ow == Wrap then wrapped else 0)
    else Check(0, 0)
  }

  /** The signed number in the low bits of an unsigned one. */
  function Signed(u: nat, bits: nat): int
    requires bits > 0
  {
    var low := u % Pow2(bits);
    if low >= Pow2(bits - 1) then low - Pow2(bits) else low
  }

  /** checkSignedBitfieldOverflow. */
  function CheckSigned(value: int, incr: int, bits: nat, ow: Policy): Check
    requires bits > 0
  {
    var max := Pow2(bits - 1) - 1;
    var min := -max - 1;
    var maxincr, minincr := I64(max - value), I64(min - value);
    var wrapped := Signed(U64(value + incr), bits);
    if value > max || (bits != 64 && incr > maxincr) || (value >= 0 && incr > 0 && incr > maxincr) then
      Check(1, if ow == Wrap then wrapped else if ow == Sat then max else 0)
    else if value < min || (bits != 64 && incr < minincr) || (value < 0 && incr < 0 && incr < minincr) then
      Check(if ow == Wrap then 1 else -1, if ow == Wrap then wrapped else if ow == Sat then min else 0)
    else Check(0, 0)
  }

  /** What the caller stores: the limit on overflow, unless the policy is to fail. */
  function Stored(c: Check, plain: int, ow: Policy): Option<int> {
    if c.overflow == 0 then Some(plain) else if ow == Fail then None else Some(c.limit)
  }

  // ---- Powers of two ------------------------------------------------------------------------------------------------

  lemma {:induction false} Pow2Add(a: nat, b: nat)
    ensures Pow2(a + b) == Pow2(a) * Pow2(b)
    decreases b
  {
    if b == 0 {
      assert Pow2(a) * Pow2(0) == Pow2(a);
    } else {
      Pow2Add(a, b - 1);
      Pow2Next(a + b - 1);
      Pow2Next(b - 1);
      Twice(Pow2(a), Pow2(b - 1));
    }
  }

  lemma {:induction false} Pow2Grows(a: nat, b: nat)
    requires a <= b
    ensures Pow2(a) <= Pow2(b)
    decreases b
  {
    if a < b { Pow2Grows(a, b - 1); }
  }

  lemma Pow2Top()
    ensures Pow2(62) == TWO63 / 2 && Pow2(63) == TWO63 && Pow2(64) == TWO64
  {
    hide Pow2;
    Pow2Eight(0);
    Pow2Eight(8);
    Pow2Eight(16);
    Pow2Eight(24);
    Pow2Eight(32);
    Pow2Eight(40);
    Pow2Eight(48);
    Pow2Eight(56);
    Pow2Next(62);
    Pow2Next(63);
    Pow2Zero();
  }

  lemma Pow2Zero()
    ensures Pow2(0) == 1
  {
  }

  lemma Pow2Eight(k: nat)
    ensures Pow2(k + 8) == 256 * Pow2(k)
  {
    hide Pow2;
    Pow2Next(k);
    Pow2Next(k + 1);
    Pow2Next(k + 2);
    Pow2Next(k + 3);
    Pow2Next(k + 4);
    Pow2Next(k + 5);
    Pow2Next(k + 6);
    Pow2Next(k + 7);
  }

  /** Reducing to 64 bits first does not change the residue of a smaller width. */
  lemma ModOfU64(x: int, bits: nat)
    requires bits <= 64
    ensures U64(x) % Pow2(bits) == x % Pow2(bits)
  {
    hide Pow2;
    Pow2Top();
    Pow2Add(64 - bits, bits);
    var p, k, q := Pow2(bits), Pow2(64 - bits), x / TWO64;
    DivMod(x, TWO64);
    DivMod(U64(x), p);
    Assoc(q, k, p);
    Distribute3(q * k, U64(x) / p, p);
    ModIs(x, p, q * k + U64(x) / p, U64(x) % p);
  }

  lemma Assoc(q: int, k: nat, p: nat)
    ensures q * (k * p) == q * k * p
  {
  }

  lemma Distribute3(a: int, b: int, p: nat)
    ensures (a + b) * p == a * p + b * p
  {
  }

  // ---- Unsigned -------------------------------------------------------------------------------------------

  lemma I64Small(x: int)
    requires IsI64(x)
    ensures I64(x) == x
  {
  }

  lemma I64Wraps(x: int)
    requires -TWO64 <= x < TWO64
    ensures I64(x) == if x < -TWO63 then x + TWO64 else if x < TWO63 then x else x - TWO64
  {
  }

  lemma WidthBounds(bits: nat)
    requires 1 <= bits <= 64
    ensures Pow2(bits) == 2 * Pow2(bits - 1) && Pow2(bits - 1) <= TWO63
    ensures bits <= 63 ==> Pow2(bits) <= TWO63
    ensures bits == 64 ==> Pow2(bits - 1) == TWO63 && Pow2(bits) == TWO64
  {
    Pow2Top();
    Pow2Next(bits - 1);
    hide Pow2;
    Pow2Grows(bits - 1, 63);
    if bits <= 63 { Pow2Grows(bits, 63); }
  }

  /** INCRBY on an unsigned field: the sum if it fits, else what the policy says of it. */
  lemma UnsignedIncr(old': nat, incr: int, bits: nat, ow: Policy)
    requires 1 <= bits <= 63 && old' < Pow2(bits) && IsI64(incr)
    ensures Stored(CheckUnsigned(old', incr, bits, ow), U64(old' + incr), ow)
            == Target(old' + incr, 0, Pow2(bits) - 1, ow)
  {
    hide Pow2, I64, U64;
    WidthBounds(bits);
    ModOfU64(old' + incr, bits);
    U64Small(old' + incr);
    I64Small(Pow2(bits) - 1 - old');
    I64Small(0 - old');
  }

  lemma U64Small(x: int)
    ensures 0 <= x < TWO64 ==> U64(x) == x
  {
  }

  /** SET on an unsigned field takes its argument as a 64-bit unsigned number. */
  lemma UnsignedSet(v: int, bits: nat, ow: Policy)
    requires 1 <= bits <= 63 && IsI64(v)
    ensures Stored(CheckUnsigned(U64(v), 0, bits, ow), U64(v), ow) == Target(U64(v), 0, Pow2(bits) - 1, ow)
    ensures Target(U64(v), 0, Pow2(bits) - 1, ow) == Target(v, 0, Pow2(bits) - 1, ow) <==> !(ow == Sat && v < 0)
  {
    hide Pow2;
    WidthBounds(bits);
    ModOfU64(v, bits);
    ModOfU64(U64(v), bits);
    assert v < 0 ==> U64(v) == v + TWO64;
    assert v >= 0 ==> U64(v) == v;
  }

  /** SET u8 with OVERFLOW SAT and -1 stores 255, where the policy would clamp it to 0. */
  lemma UnsignedSetExample()
    ensures Stored(CheckUnsigned(U64(-1), 0, 8, Sat), U64(-1), Sat) == Some(255) && Target(-1, 0, 255, Sat) == Some(0)
  {
    hide Pow2;
    Pow2Eight(0);
    Pow2Zero();
    assert Pow2(8) == 256 && U64(-1) == TWO64 - 1;
  }

  // ---- Signed ---------------------------------------------------------------------------------------------

  /** The signed number in the low bits is the residue in the signed range. */
  lemma SignedResidue(x: int, bits: nat)
    requires 1 <= bits <= 64
    ensures Signed(U64(x), bits) == (x + Pow2(bits - 1)) % Pow2(bits) - Pow2(bits - 1)
  {
    hide Pow2;
    WidthBounds(bits);
    ModOfU64(x, bits);
    var h, p := Pow2(bits - 1), Pow2(bits);
    var q, low := x / p, x % p;
    DivMod(x, p);
    if low >= h {
      Distribute3(q, 1, p);
      ModIs(x + h, p, q + 1, low - h);
    } else {
      ModIs(x + h, p, q, low + h);
    }
  }

  /** INCRBY on a signed field, where the old value is in range. */
  lemma SignedIncr(old': int, incr: int, bits: nat, ow: Policy)
    requires 1 <= bits <= 64 && 0 - Pow2(bits - 1) <= old' < Pow2(bits - 1) && IsI64(incr)
    ensures Stored(CheckSigned(old', incr, bits, ow), old' + incr, ow)
            == Target(old' + incr, 0 - Pow2(bits - 1), Pow2(bits - 1) - 1, ow)
  {
    hide Pow2, Signed, I64, U64;
    WidthBounds(bits);
    SignedResidue(old' + incr, bits);
    var h := Pow2(bits - 1);
    if bits < 64 || old' >= 0 { I64Small(h - 1 - old'); }
    if bits < 64 || old' < 0 { I64Small(0 - h - old'); }
  }

  /**
    SET on a signed field: for a value so low that max - value exceeds 64 bits, SAT gives the maximum, not
    the minimum.
   */
  lemma SignedSet(v: int, bits: nat, ow: Policy)
    requires 1 <= bits <= 64 && IsI64(v)
    ensures Stored(CheckSigned(v, 0, bits, ow), v, ow) == Target(v, 0 - Pow2(bits - 1), Pow2(bits - 1) - 1, ow)
            <==> !(ow == Sat && bits < 64 && v < Pow2(bits - 1) - TWO63)
  {
    hide Pow2, Signed, I64, U64;
    WidthBounds(bits);
    SignedResidue(v, bits);
    I64Wraps(Pow2(bits - 1) - 1 - v);
    I64Wraps(0 - Pow2(bits - 1) - v);
  }

  /** SET i8 with OVERFLOW SAT and the least 64-bit number stores 127. */
  lemma SignedSetExample()
    ensures Stored(CheckSigned(0 - TWO63, 0, 8, Sat), 0 - TWO63, Sat) == Some(127)
  {
    hide Pow2;
    Pow2Eight(0);
    Pow2Next(7);
    Pow2Zero();
    assert Pow2(8) == 256 && Pow2(8 - 1) == 128;
    assert I64(127 + TWO63) == 127 - TWO63;
  }

  // ---- Fields of a bitmap ---------------------------------------------------------------------------------

  /** The number in a field. */
  function Field(s: Bytes, sign: bool, off: nat, bits: nat): int
    requires bits > 0
  {
    if sign then Signed(Number(s, off, bits), bits) else Number(s, off, bits)
  }

  function Least(sign: bool, bits: nat): int
    requires bits > 0
  {
    if sign then 0 - Pow2(bits - 1) else 0
  }

  function Greatest(sign: bool, bits: nat): int
    requires bits > 0
  {
    if sign then Pow2(bits - 1) - 1 else Pow2(bits) - 1
  }

  /** u1 to u63 and i1 to i64. */
  predicate Width(sign: bool, bits: nat) { 1 <= bits <= if sign then 64 else 63 }

  lemma FieldInRange(s: Bytes, sign: bool, off: nat, bits: nat)
    requires Width(sign, bits)
    ensures Least(sign, bits) <= Field(s, sign, off, bits) <= Greatest(sign, bits)
  {
    var n := Number(s, off, bits);
    hide Pow2, Number;
    WidthBounds(bits);
    ModSmall(n, Pow2(bits));
  }

  lemma ModSmall(x: nat, m: nat)
    requires x < m
    ensures x % m == x
  {
  }

  /** A number in range survives being written and read. */
  lemma FieldHolds(s: Bytes, sign: bool, off: nat, bits: nat, v: int)
    requires Width(sign, bits) && off + bits <= 8 * |s| && Holds(s, off, bits, U64(v), bits)
    requires Least(sign, bits) <= v <= Greatest(sign, bits)
    ensures Field(s, sign, off, bits) == v
  {
    hide Pow2, Number, Holds;
    WidthBounds(bits);
    WriteRead(s, off, bits, U64(v));
    ModOfU64(v, bits);
    var h, p := Pow2(bits - 1), Pow2(bits);
    if v < 0 { ModIs(v, p, -1, v + p); } else { ModIs(v, p, 0, v); }
    ModSmall(v % p, p);
  }

  /** getSignedBitfield: the sign bit is spread over the higher bits. */
  method GetSignedBitfield(p: Bytes, offset: nat, bits: nat) returns (value: int)
    requires offset + bits <= 8 * |p| && 1 <= bits <= 64
    ensures value == Field(p, true, offset, bits)
  {
    hide Pow2, Number;
    var u := GetUnsignedBitfield(p, offset, bits);
    WidthBounds(bits);
    SignBit(u, bits);
    value := I64(u);
    if bits < 64 && BitOf(u, bits - 1) { value := u - Pow2(bits); }
  }

  lemma SignBit(u: nat, bits: nat)
    requires 1 <= bits <= 64 && u < Pow2(bits)
    ensures BitOf(u, bits - 1) <==> u >= Pow2(bits - 1)
    ensures u % Pow2(bits) == u && (bits < 64 ==> I64(u) == u)
            && (bits == 64 ==> I64(u) == if u >= TWO63 then u - TWO64 else u)
  {
    hide Pow2;
    WidthBounds(bits);
    var h := Pow2(bits - 1);
    if u >= h { ModIs(u, h, 1, u - h); } else { ModIs(u, h, 0, u); }
    ModSmall(u, Pow2(bits));
  }

  // ---- GET ------------------------------------------------------------------------------------------------

  /** The window that GET copies: nine bytes from the one that holds the offset, zero past the end. */
  ghost predicate Window(buf: Bytes, s: Bytes, byte: nat, n: nat) {
    |buf| == 9 && n <= 9
    && (forall i :: 0 <= i < n ==> byte + i < |s| && buf[i] == s[byte + i])
    && (forall i :: n <= i < 9 ==> buf[i] == ZERO)
  }

  lemma WindowBit(buf: Bytes, s: Bytes, byte: nat, n: nat, i: nat)
    requires Window(buf, s, byte, n) && (n == 9 || byte + n >= |s|) && i < 72
    ensures PadBit(buf, i) == PadBit(s, 8 * byte + i)
  {
    BitAt(buf, i / 8, i % 8);
    if byte + i / 8 < |s| { BitAt(s, byte + i / 8, i % 8); }
  }

  lemma {:induction false} WindowNumber(buf: Bytes, s: Bytes, byte: nat, n: nat, off: nat, bits: nat)
    requires Window(buf, s, byte, n) && (n == 9 || byte + n >= |s|) && off + bits <= 72
    ensures Number(buf, off, bits) == Number(s, 8 * byte + off, bits)
    decreases bits
  {
    if bits > 0 {
      WindowNumber(buf, s, byte, n, off, bits - 1);
      var i := off + bits - 1;
      WindowBit(buf, s, byte, n, i);
      hide PadBit;
    }
  }

  /** GET of a field anywhere, even past the end of the string; a missing key is the empty string. */
  method BitfieldGet(s: Bytes, sign: bool, offset: nat, bits: nat) returns (value: int)
    requires Width(sign, bits)
    ensures value == Field(s, sign, offset, bits)
  {
    hide Number;
    var buf := new Byte[9](_ => ZERO);
    var byte := offset / 8;
    var i := 0;
    while i < 9 && i + byte < |s|
      invariant 0 <= i <= 9 && Window(buf[..], s, byte, i)
    {
      buf[i] := s[i + byte];
      i := i + 1;
    }
    WindowNumber(buf[..], s, byte, i, offset - byte * 8, bits);
    if sign {
      value := GetSignedBitfield(buf[..], offset - byte * 8, bits);
    } else {
      value := GetUnsignedBitfield(buf[..], offset - byte * 8, bits);
    }
  }

  // ---- SET and INCRBY -------------------------------------------------------------------------------------

  /** What INCRBY or SET of a field stores, if anything. */
  function Outcome(incrby: bool, sign: bool, bits: nat, oldval: int, arg: int, ow: Policy): Option<int>
    requires bits > 0 && (!sign ==> oldval >= 0)
  {
    if sign then
      if incrby then Stored(CheckSigned(oldval, arg, bits, ow), oldval + arg, ow)
      else Stored(CheckSigned(arg, 0, bits, ow), arg, ow)
    else
      if incrby then Stored(CheckUnsigned(oldval, arg, bits, ow), U64(oldval + arg), ow)
      else Stored(CheckUnsigned(U64(arg), 0, bits, ow), U64(arg), ow)
  }

  /** Whatever is stored is in range, and INCRBY stores what the policy says of the sum. */
  lemma OutcomeMeaning(incrby: bool, sign: bool, bits: nat, oldval: int, arg: int, ow: Policy)
    requires Width(sign, bits) && Least(sign, bits) <= oldval <= Greatest(sign, bits) && IsI64(arg)
    ensures var r := Outcome(incrby, sign, bits, oldval, arg, ow);
            r.Some? ==> Least(sign, bits) <= r.value <= Greatest(sign, bits)
    ensures incrby ==> Outcome(incrby, sign, bits, oldval, arg, ow)
                       == Target(oldval + arg, Least(sign, bits), Greatest(sign, bits), ow)
  {
    hide Pow2, CheckSigned, CheckUnsigned, Signed;
    WidthBounds(bits);
    TargetInRange(oldval + arg, Least(sign, bits), Greatest(sign, bits), ow);
    TargetInRange(U64(arg), Least(sign, bits), Greatest(sign, bits), ow);
    if sign {
      if incrby { SignedIncr(oldval, arg, bits, ow); } else { SignedSetInRange(arg, bits, ow); }
    } else {
      if incrby { UnsignedIncr(oldval, arg, bits, ow); } else { UnsignedSet(arg, bits, ow); }
    }
  }

  lemma TargetInRange(raw: int, lo: int, hi: int, ow: Policy)
    requires lo <= hi
    ensures var r := Target(raw, lo, hi, ow); r.Some? ==> lo <= r.value <= hi
  {
  }

  lemma SignedSetInRange(v: int, bits: nat, ow: Policy)
    requires 1 <= bits <= 64 && IsI64(v)
    ensures var r := Stored(CheckSigned(v, 0, bits, ow), v, ow);
            r.Some? ==> 0 - Pow2(bits - 1) <= r.value < Pow2(bits - 1)
  {
    hide Pow2, Signed;
    WidthBounds(bits);
    SignedResidue(v, bits);
    hide U64;
  }

  /** One SET or INCRBY of bitfieldGeneric on a string long enough for the field. */
  method BitfieldWrite(p: array<Byte>, incrby: bool, sign: bool, offset: nat, bits: nat, arg: int, ow: Policy)
    returns (reply: Option<int>)
    requires Width(sign, bits) && offset + bits <= 8 * p.Length && IsI64(arg)
    modifies p
    ensures var oldval := Field(old(p[..]), sign, offset, bits);
            && (!sign ==> oldval >= 0)
            && match Outcome(incrby, sign, bits, oldval, arg, ow)
               case None => reply == None && p[..] == old(p[..])
               case Some(v) => && reply == Some(if incrby then v else oldval)
                               && Field(p[..], sign, offset, bits) == v
                               && SameOutside(old(p[..]), p[..], offset, bits)
  {
    hide Pow2, Number, Holds, SameOutside, Signed, CheckSigned, CheckUnsigned;
    FieldInRange(p[..], sign, offset, bits);
    var oldval: int;
    if sign {
      oldval := GetSignedBitfield(p[..], offset, bits);
    } else {
      oldval := GetUnsignedBitfield(p[..], offset, bits);
    }
    var newval := Outcome(incrby, sign, bits, oldval, arg, ow);
    OutcomeMeaning(incrby, sign, bits, oldval, arg, ow);
    if newval == None { return None; }
    SetUnsignedBitfield(p, offset, bits, U64(newval.value));
    FieldHolds(p[..], sign, offset, bits, newval.value);
    return Some(if incrby then newval.value else oldval);
  }
}
