/**
  Finding bits (src/bitops.c): the search of redisBitpos by bytes, words and single bits, and the
  ranges of BITPOS, against the least matching index.
 */
module Bitpos {
  import opened Bits
  import opened Bitcount

  /** Bits from a up to b - 1 all differ from the one sought. */
  ghost predicate NoneIn(s: Bytes, bit: bool, a: nat, b: nat)
    requires b <= 8 * |s|
  {
    forall i :: a <= i < b ==> Bit(s, i) != bit
  }

  /** The least matching index; beyond the string all bits are zero, and a missing one is -1. */
  ghost predicate IsFirst(s: Bytes, bit: bool, pos: int) {
    if pos == -1 then bit && NoneIn(s, bit, 0, 8 * |s|)
    else && 0 <= pos <= 8 * |s| && NoneIn(s, bit, 0, pos)
         && (if pos == 8 * |s| then !bit else Bit(s, pos) == bit)
  }

  function SkipByte(bit: bool): Byte { if bit then ZERO else FULL }

  lemma SkippedByte(s: Bytes, bit: bool, n: nat)
    requires n < |s| && s[n] == SkipByte(bit) && NoneIn(s, bit, 0, 8 * n)
    ensures NoneIn(s, bit, 0, 8 * n + 8)
  {
    forall i | 0 <= i < 8 * n + 8 ensures Bit(s, i) != bit {
      if i >= 8 * n { BitAt(s, n, i - 8 * n); }
    }
  }

  lemma {:induction false} SkippedBytes(s: Bytes, bit: bool, n: nat, m: nat)
    requires n + m <= |s| && NoneIn(s, bit, 0, 8 * n) && forall k :: n <= k < n + m ==> s[k] == SkipByte(bit)
    ensures NoneIn(s, bit, 0, 8 * (n + m))
    decreases m
  {
    hide NoneIn;
    if m > 0 {
      SkippedBytes(s, bit, n, m - 1);
      SkippedByte(s, bit, n + m - 1);
    }
  }

  /** The next word, first byte most significant, padded with zeros on the right. */
  type Word = w: seq<bool> | |w| == 64 witness seq(64, _ => false)

  ghost function Padded(s: Bytes, n: nat, i: nat): bool
    requires n <= |s|
  {
    8 * n + i < 8 * |s| && Bit(s, 8 * n + i)
  }

  ghost predicate Loaded(w: Word, s: Bytes, n: nat)
    requires n <= |s|
  {
    forall i :: 0 <= i < 64 ==> w[i] == Padded(s, n, i)
  }

  /** The loop that shifts eight bytes into a word. */
  method LoadWord(s: Bytes, n: nat) returns (w: Word)
    requires n <= |s|
    ensures Loaded(w, s, n)
  {
    w := seq(64, _ => false);
    var j, c := 0, n;
    while j < 8
      invariant 0 <= j <= 8 && c == (if n + j < |s| then n + j else |s|)
      invariant forall i :: 0 <= i < 8 * j ==> w[64 - 8 * j + i] == Padded(s, n, i)
    {
      hide Padded;
      ghost var w0 := w;
      w := w[8..] + ZERO;
      if c < |s| {
        w := w[..56] + s[c];
        c := c + 1;
      }
      assert w == w0[8..] + if n + j < |s| then s[n + j] else ZERO;
      forall i | 0 <= i < 8 * (j + 1) ensures w[64 - 8 * (j + 1) + i] == Padded(s, n, i) {
        if i < 8 * j {
          assert w[64 - 8 * (j + 1) + i] == w0[64 - 8 * j + i];
        } else {
          PaddedByte(s, n, j, i - 8 * j);
          assert w[56 + (i - 8 * j)] == (if n + j < |s| then s[n + j] else ZERO)[i - 8 * j];
        }
      }
      j := j + 1;
    }
  }

  lemma PaddedByte(s: Bytes, n: nat, j: nat, k: nat)
    requires n <= |s| && k < 8
    ensures Padded(s, n, 8 * j + k) == (if n + j < |s| then s[n + j] else ZERO)[k]
  {
    if n + j < |s| { BitAt(s, n + j, k); }
  }

  /** The bits of the loaded word are the bits that follow, so its first match is the answer. */
  lemma FoundAt(s: Bytes, bit: bool, n: nat, w: Word, k: nat)
    requires n <= |s| && NoneIn(s, bit, 0, 8 * n) && Loaded(w, s, n) && k < 64 && w[k] == bit
    requires forall i :: 0 <= i < k ==> w[i] != bit
    ensures IsFirst(s, bit, 8 * n + k)
  {
    forall i | 0 <= i < 8 * n + k && i < 8 * |s| ensures Bit(s, i) != bit {
      if i >= 8 * n { assert w[i - 8 * n] == Padded(s, n, i - 8 * n); }
    }
    assert w[k] == Padded(s, n, k);
    if k > 0 { assert w[k - 1] == Padded(s, n, k - 1); }
  }

  /** Nothing sought in the bytes that are left. */
  lemma NotFound(s: Bytes, n: nat, w: Word)
    requires n <= |s| <= n + 8 && NoneIn(s, true, 0, 8 * n) && Loaded(w, s, n) && forall i :: 0 <= i < 64 ==> !w[i]
    ensures IsFirst(s, true, -1)
  {
    forall i | 0 <= i < 8 * |s| ensures !Bit(s, i) {
      if i >= 8 * n { assert w[i - 8 * n] == Padded(s, n, i - 8 * n); }
    }
  }

  /** A byte that is not all skipped, or a string that ends here, leaves a match in the word. */
  lemma MatchInWord(s: Bytes, bit: bool, n: nat, w: Word, m: nat)
    requires n <= |s| && Loaded(w, s, n) && m < 8
    requires if n + m < |s| then s[n + m] != SkipByte(bit) else !bit
    ensures exists k :: 0 <= k < 64 && w[k] == bit
  {
    if n + m < |s| {
      hide Padded, SkipByte;
      OtherBit(s[n + m], bit);
      var k :| 0 <= k < 8 && s[n + m][k] == bit;
      PaddedByte(s, n, m, k);
      assert w[8 * m + k] == Padded(s, n, 8 * m + k);
    } else {
      hide Padded;
      PaddedByte(s, n, m, 0);
      assert w[8 * m] == Padded(s, n, 8 * m);
    }
  }

  lemma OtherBit(b: Byte, bit: bool)
    requires b != SkipByte(bit)
    ensures exists k :: 0 <= k < 8 && b[k] == bit
  {
  }

  /** redisBitpos of a string that starts at this address. */
  method RedisBitpos(s: Bytes, bit: bool, address: nat) returns (pos: int)
    ensures IsFirst(s, bit, pos)
  {
    hide Bit, NoneIn, IsFirst, Loaded;
    var i, found := 0, false;
    NothingYet(s, bit);
    while (address + i) % 8 != 0 && i < |s|
      invariant 0 <= i <= |s| && NoneIn(s, bit, 0, 8 * i) && !found
      decreases |s| - i
    {
      if s[i] != SkipByte(bit) {
        found := true;
        break;
      }
      SkippedByte(s, bit, i);
      i := i + 1;
    }

    ghost var m := 0;                 // a byte of the next word that settles the search
    if !found {
      while |s| - i >= 8
        invariant 0 <= i <= |s| && NoneIn(s, bit, 0, 8 * i) && !found
        decreases |s| - i
      {
        if s[i..i + 8] != seq(8, _ => SkipByte(bit)) {
          DifferentByte(s[i..i + 8], SkipByte(bit));
          m :| 0 <= m < 8 && s[i..i + 8][m] != SkipByte(bit);
          found := true;
          break;
        }
        assert forall k :: i <= k < i + 8 ==> s[k] == s[i..i + 8][k - i];
        SkippedBytes(s, bit, i, 8);
        i := i + 8;
      }
    }
    var word := LoadWord(s, i);
    pos := ScanWord(s, bit, i, word, m, found);
  }

  lemma DifferentByte(t: Bytes, b: Byte)
    requires |t| == 8 && t != seq(8, _ => b)
    ensures exists m :: 0 <= m < 8 && t[m] != b
  {
  }

  lemma NothingYet(s: Bytes, bit: bool)
    ensures NoneIn(s, bit, 0, 0)
  {
  }

  /** The last word: minus one if it is all zero and a one is sought, else bit by bit; the panic is not reached. */
  method ScanWord(s: Bytes, bit: bool, n: nat, word: Word, ghost m: nat, ghost found: bool) returns (pos: int)
    requires n <= |s| && NoneIn(s, bit, 0, 8 * n) && Loaded(word, s, n)
    requires if found then m < 8 && n + m < |s| && s[n + m] != SkipByte(bit) else |s| < n + 8
    ensures IsFirst(s, bit, pos)
  {
    hide IsFirst, NoneIn, Loaded;
    if bit && word == seq(64, _ => false) {
      if found { MatchInWord(s, bit, n, word, m); } else { NotFound(s, n, word); }
      return -1;
    }
    if found { MatchInWord(s, bit, n, word, m); } else if !bit { MatchInWord(s, bit, n, word, |s| - n); }
    assert exists k :: 0 <= k < 64 && word[k] == bit;
    var j := 0;
    while j < 64
      invariant 0 <= j <= 64 && forall i :: 0 <= i < j ==> word[i] != bit
    {
      if word[j] == bit {
        FoundAt(s, bit, n, word, j);
        return 8 * n + j;
      }
      j := j + 1;
    }
    assert false;
  }

  // ---- Ranges ---------------------------------------------------------------------------------------------

  /** The byte with the masked bits turned into bits that are not sought: & ~mask, or | mask. */
  function MaskOut(b: Byte, mask: Byte, bit: bool): Byte {
    seq(8, i requires 0 <= i < 8 => if bit then b[i] && !mask[i] else b[i] || mask[i])
  }

  lemma MaskedOut(b: Byte, mask: Byte, bit: bool, k: nat)
    requires k < 8
    ensures MaskOut(b, mask, bit)[k] == if mask[k] then !bit else b[k]
  {
  }

  /** No match among the bits of one string: the search of it ends with -1 or just past it. */
  predicate Missed(s: Bytes, pos: int) { pos == -1 || pos == 8 * |s| }

  /** A search of bytes x to y - 1. */
  lemma SearchedBytes(s: Bytes, bit: bool, x: nat, y: nat, pos: int)
    requires x <= y <= |s| && IsFirst(s[x..y], bit, pos)
    ensures Missed(s[x..y], pos) ==> NoneIn(s, bit, 8 * x, 8 * y) && (pos == -1 <==> bit)
    ensures !Missed(s[x..y], pos) ==>
      0 <= pos < 8 * (y - x) && NoneIn(s, bit, 8 * x, 8 * x + pos) && Bit(s, 8 * x + pos) == bit
  {
    var t := s[x..y];
    forall i | 0 <= i < 8 * |t| ensures Bit(t, i) == Bit(s, 8 * x + i) {
      assert t[i / 8] == s[x + i / 8];
      BitAt(s, x + i / 8, i % 8);
    }
    assert forall i :: 8 * x <= i < 8 * y ==> Bit(s, i) == Bit(t, i - 8 * x);
  }

  /** A search of one byte of which only bits k1 to k2 are left. */
  lemma SearchedByte(s: Bytes, bit: bool, n: nat, tmp: Byte, k1: nat, k2: nat, pos: int)
    requires n < |s| && k1 <= k2 < 8 && IsFirst([tmp], bit, pos)
    requires forall k :: 0 <= k < 8 ==> tmp[k] == if k1 <= k <= k2 then s[n][k] else !bit
    ensures Missed([tmp], pos) ==> NoneIn(s, bit, 8 * n + k1, 8 * n + k2 + 1) && (pos == -1 <==> bit)
    ensures !Missed([tmp], pos) ==>
      k1 <= pos <= k2 && NoneIn(s, bit, 8 * n + k1, 8 * n + pos) && Bit(s, 8 * n + pos) == bit
  {
    forall k | 0 <= k < 8 ensures Bit([tmp], k) == tmp[k] && Bit(s, 8 * n + k) == s[n][k] {
      BitAt([tmp], 0, k);
      BitAt(s, n, k);
    }
    assert forall i :: 8 * n <= i < 8 * n + 8 ==> Bit(s, i) == s[n][i - 8 * n];
  }

  lemma NoneJoin(s: Bytes, bit: bool, a: nat, b: nat, c: nat)
    requires a <= b <= c <= 8 * |s| && NoneIn(s, bit, a, b) && NoneIn(s, bit, b, c)
    ensures NoneIn(s, bit, a, c)
  {
  }

  /** What BITPOS answers for the bits from a up to b - 1. */
  ghost predicate Answer(s: Bytes, bit: bool, a: nat, b: nat, endGiven: bool, r: int)
    requires a <= b <= 8 * |s|
  {
    if r == -1 then NoneIn(s, bit, a, b) && (bit || endGiven)
    else if a <= r < b then NoneIn(s, bit, a, r) && Bit(s, r) == bit
    else r == b && NoneIn(s, bit, a, b) && !bit && !endGiven
  }

  /** The end of bitposCommand: a position just past a given range counts as not found. */
  function Finish(bit: bool, endGiven: bool, pos: int, bytes: nat, start: nat): int {
    if endGiven && !bit && pos == 8 * bytes then -1 else if pos != -1 then pos + 8 * start else -1
  }

  lemma MaskBits(k1: nat, k2: nat, k: nat)
    requires k1 < 8 && k2 < 8 && k < 8
    ensures FirstMask(k1)[k] == (k < k1) && LastMask(k2)[k] == (k > k2)
    ensures FirstMask(k1) == ZERO <==> k1 == 0
    ensures LastMask(k2) == ZERO <==> k2 == 7
  {
    assert FirstMask(0) == ZERO && LastMask(7) == ZERO;
    if k1 > 0 { assert FirstMask(k1)[0] != ZERO[0]; }
    if k2 < 7 { assert LastMask(k2)[7] != ZERO[7]; }
  }

  /** The first byte of the range, when bits before k1 are not part of it. */
  method SearchFirst(s: Bytes, bit: bool, n: nat, first: Byte, last: Byte, only: bool, ghost k1: nat, ghost k2: nat)
    returns (pos: int)
    requires n < |s| && k1 < 8 && k2 < 8 && first == FirstMask(k1) && last == LastMask(k2) && (only ==> k1 <= k2)
    ensures var k := if only then k2 else 7;
            if pos == -1 || pos == 8 then NoneIn(s, bit, 8 * n + k1, 8 * n + k + 1) && (pos == -1 <==> bit)
            else k1 <= pos <= k && NoneIn(s, bit, 8 * n + k1, 8 * n + pos) && Bit(s, 8 * n + pos) == bit
  {
    hide Bit, NoneIn, IsFirst, FirstMask, LastMask, MaskOut;
    var tmp := MaskOut(s[n], first, bit);
    if last != ZERO && only { tmp := MaskOut(tmp, last, bit); }
    ghost var k := if only then k2 else 7;
    forall i | 0 <= i < 8 ensures tmp[i] == if k1 <= i <= k then s[n][i] else !bit {
      MaskBits(k1, k2, i);
      MaskedOut(s[n], first, bit, i);
      MaskedOut(MaskOut(s[n], first, bit), last, bit, i);
    }
    pos := RedisBitpos([tmp], bit, 0);
    SearchedByte(s, bit, n, tmp, k1, k, pos);
  }

  /** The last byte of the range, when bits after k2 are not part of it. */
  method SearchLast(s: Bytes, bit: bool, n: nat, last: Byte, ghost k2: nat) returns (pos: int)
    requires n < |s| && k2 < 8 && last == LastMask(k2)
    ensures if pos == -1 || pos == 8 then NoneIn(s, bit, 8 * n, 8 * n + k2 + 1) && (pos == -1 <==> bit)
            else 0 <= pos <= k2 && NoneIn(s, bit, 8 * n, 8 * n + pos) && Bit(s, 8 * n + pos) == bit
  {
    hide Bit, NoneIn, IsFirst, LastMask, MaskOut;
    var tmp := MaskOut(s[n], last, bit);
    forall i | 0 <= i < 8 ensures tmp[i] == if i <= k2 then s[n][i] else !bit {
      MaskBits(0, k2, i);
      MaskedOut(s[n], last, bit, i);
    }
    pos := RedisBitpos([tmp], bit, 0);
    SearchedByte(s, bit, n, tmp, 0, k2, pos);
  }

  /** Whole bytes of the range. */
  method SearchBytes(s: Bytes, bit: bool, x: nat, y: nat, address: nat) returns (pos: int)
    requires x <= y <= |s|
    ensures if pos == -1 || pos == 8 * (y - x) then NoneIn(s, bit, 8 * x, 8 * y) && (pos == -1 <==> bit)
            else 0 <= pos < 8 * (y - x) && NoneIn(s, bit, 8 * x, 8 * x + pos) && Bit(s, 8 * x + pos) == bit
  {
    hide Bit, NoneIn, IsFirst;
    pos := RedisBitpos(s[x..y], bit, address + x);
    SearchedBytes(s, bit, x, y, pos);
  }

  /** The search of bitposCommand in a non-empty range of bytes with masked edges. */
  method SearchRange(s: Bytes, bit: bool, start: nat, end: nat, first: Byte, last: Byte, endGiven: bool, address: nat,
                     ghost k1: nat, ghost k2: nat) returns (r: int)
    requires start <= end < |s| && k1 < 8 && k2 < 8 && first == FirstMask(k1) && last == LastMask(k2)
    requires (start == end ==> k1 <= k2) && (!endGiven ==> k1 == 0 && k2 == 7)
    ensures Answer(s, bit, 8 * start + k1, 8 * end + k2 + 1, endGiven, r)
  {
    hide Bit, NoneIn, FirstMask, LastMask;
    MaskBits(k1, k2, 0);
    var from, bytes := start, end - start + 1;
    ghost var a, done := 8 * start + k1, 8 * start + k1;
    NoneEmpty(s, bit, a);
    if first != ZERO {
      var pos := SearchFirst(s, bit, start, first, last, bytes == 1, k1, k2);
      if bytes == 1 || (pos != -1 && pos != 8) { return Finish(bit, endGiven, pos, bytes, start); }
      from, bytes, done := start + 1, bytes - 1, 8 * start + 8;
    }
    var cur := bytes - if last != ZERO then 1 else 0;
    if cur > 0 {
      var pos := SearchBytes(s, bit, from, from + cur, address);
      if pos == -1 || pos == 8 * cur {
        NoneJoin(s, bit, a, done, 8 * (from + cur));
      } else {
        NoneJoin(s, bit, a, done, 8 * from + pos);
      }
      if bytes == cur || (pos != -1 && pos != 8 * cur) { return Finish(bit, endGiven, pos, bytes, from); }
      from, bytes, done := from + cur, bytes - cur, 8 * (from + cur);
    }
    var pos := SearchLast(s, bit, end, last, k2);
    NoneJoin(s, bit, a, done, if pos == -1 || pos == 8 then 8 * end + k2 + 1 else 8 * end + pos);
    r := Finish(bit, endGiven, pos, bytes, from);
  }

  lemma NoneEmpty(s: Bytes, bit: bool, a: nat)
    requires a <= 8 * |s|
    ensures NoneIn(s, bit, a, a)
  {
  }

  /** The arguments of BITPOS: everything, from an index on, or between two byte or bit indexes. */
  datatype PosRange = All | From(start: int) | Between(start: int, end: int, isbit: bool)

  /** The range asks for bit i of a string of so many bytes. */
  ghost predicate PosAsked(r: PosRange, len: nat, i: nat) {
    match r
    case All => true
    case From(start) => (if start < 0 then len + start else start) <= i / 8
    case Between(start, end, isbit) =>
      if isbit then Bitcount.Between(i, start, end, 8 * len) else Bitcount.Between(i / 8, start, end, len)
  }

  /** Bit i is asked for and is the bit sought. */
  ghost predicate Hit(s: Bytes, bit: bool, r: PosRange, i: nat) {
    i < 8 * |s| && PosAsked(r, |s|, i) && Bit(s, i) == bit
  }

  ghost predicate AskedBounds(r: PosRange, len: nat, a: nat, b: nat) {
    a < b <= 8 * len && forall i: nat :: i < 8 * len ==> (PosAsked(r, len, i) <==> a <= i < b)
  }

  /** What BITPOS answers: the least hit; without one -1, or just past the string for a zero without a given end. */
  ghost predicate PosAnswer(s: Bytes, bit: bool, r: PosRange, pos: int) {
    if exists i :: Hit(s, bit, r, i) then pos >= 0 && Hit(s, bit, r, pos) && forall i :: Hit(s, bit, r, i) ==> pos <= i
    else if bit || r.Between? || forall i: nat :: i < 8 * |s| ==> !PosAsked(r, |s|, i) then pos == -1
    else pos == 8 * |s|
  }

  lemma AnswerMeans(s: Bytes, bit: bool, r: PosRange, a: nat, b: nat, pos: int)
    requires AskedBounds(r, |s|, a, b) && Answer(s, bit, a, b, r.Between?, pos) && (r.Between? || b == 8 * |s|)
    ensures PosAnswer(s, bit, r, pos)
  {
    hide PosAsked, Bit;
    if a <= pos < b { assert Hit(s, bit, r, pos); } else { assert PosAsked(r, |s|, a); }
  }

  /** And the other way round: an answer is one for the bits asked for. */
  lemma AnswerWithin(s: Bytes, bit: bool, r: PosRange, a: nat, b: nat, pos: int)
    requires AskedBounds(r, |s|, a, b) && PosAnswer(s, bit, r, pos) && (r.Between? || b == 8 * |s|)
    ensures Answer(s, bit, a, b, r.Between?, pos)
  {
    hide PosAsked, Bit;
    assert PosAsked(r, |s|, a);
    forall i: nat | a <= i < b ensures Hit(s, bit, r, i) <==> Bit(s, i) == bit {}
  }

  /** Two indexes from the start, or two from the end, search the bytes or bits from the one to the other. */
  lemma SearchesBetween(s: Bytes, bit: bool, m: nat, n: nat, isbit: bool, pos: int)
    requires m <= n < if isbit then 8 * |s| else |s|
    ensures var unit, total := if isbit then 1 else 8, if isbit then 8 * |s| else |s|;
            PosAnswer(s, bit, Between(m, n, isbit), pos) || PosAnswer(s, bit, Between(m - total, n - total, isbit), pos)
            ==> Answer(s, bit, unit * m, unit * (n + 1), true, pos)
  {
    var unit, total := if isbit then 1 else 8, if isbit then 8 * |s| else |s|;
    var r, q := Between(m, n, isbit), Between(m - total, n - total, isbit);
    assert AskedBounds(r, |s|, unit * m, unit * (n + 1)) && AskedBounds(q, |s|, unit * m, unit * (n + 1));
    hide AskedBounds, PosAnswer, Answer;
    if PosAnswer(s, bit, r, pos) { AnswerWithin(s, bit, r, unit * m, unit * (n + 1), pos); }
    if PosAnswer(s, bit, q, pos) { AnswerWithin(s, bit, q, unit * m, unit * (n + 1), pos); }
  }

  /** An index alone searches from that byte to the end; without one the search begins at the first. */
  lemma SearchesFrom(s: Bytes, bit: bool, m: nat, pos: int)
    requires m < |s|
    ensures PosAnswer(s, bit, From(m), pos) || PosAnswer(s, bit, From(m - |s|), pos)
            || (m == 0 && PosAnswer(s, bit, All, pos))
            ==> Answer(s, bit, 8 * m, 8 * |s|, false, pos)
  {
    assert AskedBounds(From(m), |s|, 8 * m, 8 * |s|) && AskedBounds(From(m - |s|), |s|, 8 * m, 8 * |s|);
    assert m == 0 ==> AskedBounds(All, |s|, 8 * m, 8 * |s|);
    hide AskedBounds, PosAnswer, Answer;
    if PosAnswer(s, bit, From(m), pos) { AnswerWithin(s, bit, From(m), 8 * m, 8 * |s|, pos); }
    if PosAnswer(s, bit, From(m - |s|), pos) { AnswerWithin(s, bit, From(m - |s|), 8 * m, 8 * |s|, pos); }
    if m == 0 && PosAnswer(s, bit, All, pos) { AnswerWithin(s, bit, All, 8 * m, 8 * |s|, pos); }
  }

  /** bitposCommand; a missing key reads as zeros. */
  method BitposCommand(present: bool, s: Bytes, bit: bool, r: PosRange, address: nat) returns (pos: int)
    ensures !present ==> pos == if bit then -1 else 0
    ensures present ==> PosAnswer(s, bit, r, pos)
  {
    if !present { return if bit then -1 else 0; }
    hide FirstMask, LastMask, Answer, PosAnswer, Bitcount.Between;
    NoMasks();
    var start: int, end: int := 0, |s| - 1;
    var first, last := ZERO, ZERO;
    ghost var k1, k2 := 0, 7;
    if !r.All? {
      var isbit := r.Between? && r.isbit;
      var total := if isbit then 8 * |s| else |s|;
      start, end := Clip(r.start, if r.Between? then r.end else total - 1, total);
      if isbit && start <= end {
        k1, k2 := start % 8, end % 8;
        first, last := FirstMask(start % 8), LastMask(end % 8);
        start, end := start / 8, end / 8;
      }
    }
    if start > end {
      NothingAsked(s, bit, r);
      return -1;
    }
    assert AskedBounds(r, |s|, 8 * start + k1, 8 * end + k2 + 1);
    hide AskedBounds, PosAsked;
    pos := SearchRange(s, bit, start, end, first, last, r.Between?, address, k1, k2);
    AnswerMeans(s, bit, r, 8 * start + k1, 8 * end + k2 + 1, pos);
  }

  lemma NothingAsked(s: Bytes, bit: bool, r: PosRange)
    requires forall i: nat :: i < 8 * |s| ==> !PosAsked(r, |s|, i)
    ensures PosAnswer(s, bit, r, -1)
  {
    hide PosAsked, Bit;
  }
}
