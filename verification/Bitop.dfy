/**
  BITOP (src/bitops.c): the path that combines four words at a time, the byte loop for the rest
  with its early exit, against a fold over zero-padded inputs.
 */
module Bitop {
  import opened Bits

  datatype Op = OpAnd | OpOr | OpXor | OpNot

  function Combine(op: Op, a: Byte, b: Byte): Byte {
    seq(8, i requires 0 <= i < 8 =>
      match op
      case OpAnd => a[i] && b[i]
      case OpOr => a[i] || b[i]
      case OpXor => a[i] != b[i]
      case OpNot => a[i])
  }

  function NotByte(a: Byte): Byte { seq(8, i requires 0 <= i < 8 => !a[i]) }

  /** Byte j of a string that goes on with zeros. */
  function Pad(s: Bytes, j: nat): Byte { if j < |s| then s[j] else ZERO }

  /** The first byte, negated by NOT. */
  function First(op: Op, b: Byte): Byte { if op == OpNot then NotByte(b) else b }

  /** Byte j of the first n inputs combined from left to right. */
  function Fold(op: Op, srcs: seq<Bytes>, j: nat, n: nat): Byte
    requires 1 <= n <= |srcs|
  {
    if n == 1 then First(op, Pad(srcs[0], j)) else Combine(op, Fold(op, srcs, j, n - 1), Pad(srcs[n - 1], j))
  }

  /** Some or all of the first n inputs have bit k of byte j. */
  ghost predicate Somewhere(srcs: seq<Bytes>, j: nat, k: nat, n: nat)
    requires n <= |srcs| && k < 8
  {
    exists m :: 0 <= m < n && Pad(srcs[m], j)[k]
  }

  ghost predicate Everywhere(srcs: seq<Bytes>, j: nat, k: nat, n: nat)
    requires n <= |srcs| && k < 8
  {
    forall m :: 0 <= m < n ==> Pad(srcs[m], j)[k]
  }

  ghost function Parity(srcs: seq<Bytes>, j: nat, k: nat, n: nat): bool
    requires n <= |srcs| && k < 8
  {
    if n == 0 then false else Parity(srcs, j, k, n - 1) != Pad(srcs[n - 1], j)[k]
  }

  /** The fold, bit by bit: all inputs, any input, an odd number of inputs, not the input. */
  lemma {:induction false} FoldBits(op: Op, srcs: seq<Bytes>, j: nat, k: nat, n: nat)
    requires 1 <= n <= |srcs| && k < 8
    ensures op == OpAnd ==> (Fold(op, srcs, j, n)[k] <==> Everywhere(srcs, j, k, n))
    ensures op == OpOr ==> (Fold(op, srcs, j, n)[k] <==> Somewhere(srcs, j, k, n))
    ensures op == OpXor ==> (Fold(op, srcs, j, n)[k] <==> Parity(srcs, j, k, n))
    ensures op == OpNot && n == 1 ==> (Fold(op, srcs, j, n)[k] <==> !Pad(srcs[0], j)[k])
    decreases n
  {
    hide Pad;
    if n > 1 { FoldBits(op, srcs, j, k, n - 1); } else { assert Parity(srcs, j, k, 0) == false; }
  }

  /** A byte of zeros stays so under AND, one of ones under OR: the rest can be skipped. */
  predicate Settled(op: Op, b: Byte) { (op == OpAnd && b == ZERO) || (op == OpOr && b == FULL) }

  lemma {:induction false} SettledStays(op: Op, srcs: seq<Bytes>, j: nat, i: nat, n: nat)
    requires 1 <= i <= n <= |srcs| && Settled(op, Fold(op, srcs, j, i))
    ensures Fold(op, srcs, j, n) == Fold(op, srcs, j, i)
    decreases n
  {
    if i < n {
      SettledStays(op, srcs, j, i, n - 1);
      var b := Fold(op, srcs, j, n - 1);
      assert Combine(op, b, Pad(srcs[n - 1], j)) == b;
    }
  }

  /** One machine word of the result and of an input. */
  method CombineWord(op: Op, res: array<Byte>, src: Bytes, at: nat)
    requires at + 8 <= res.Length && at + 8 <= |src|
    modifies res
    ensures forall k :: 0 <= k < res.Length ==>
              res[k] == if at <= k < at + 8 then Combine(op, old(res[k]), src[k]) else old(res[k])
  {
    forall k | at <= k < at + 8 { res[k] := Combine(op, res[k], src[k]); }
  }

  /** Four words of one input. */
  method CombineBlock(op: Op, res: array<Byte>, src: Bytes, at: nat)
    requires at + 32 <= res.Length && at + 32 <= |src|
    modifies res
    ensures forall k :: 0 <= k < res.Length ==>
              res[k] == if at <= k < at + 32 then Combine(op, old(res[k]), src[k]) else old(res[k])
  {
    hide Combine;
    CombineWord(op, res, src, at);
    CombineWord(op, res, src, at + 8);
    CombineWord(op, res, src, at + 16);
    CombineWord(op, res, src, at + 24);
  }

  function MaxLen(srcs: seq<Bytes>, n: nat): nat
    requires n <= |srcs|
  {
    if n == 0 then 0 else if |srcs[n - 1]| > MaxLen(srcs, n - 1) then |srcs[n - 1]| else MaxLen(srcs, n - 1)
  }

  /** The loop over the keys: the longest and the shortest input. */
  method Lengths(srcs: seq<Bytes>) returns (maxlen: nat, minlen: nat)
    requires srcs != []
    ensures maxlen == MaxLen(srcs, |srcs|) && forall i :: 0 <= i < |srcs| ==> minlen <= |srcs[i]|
    ensures minlen <= maxlen && exists i :: 0 <= i < |srcs| && minlen == |srcs[i]|
  {
    maxlen, minlen := 0, 0;
    var j := 0;
    while j < |srcs|
      invariant 0 <= j <= |srcs| && maxlen == MaxLen(srcs, j)
      invariant forall i :: 0 <= i < j ==> minlen <= |srcs[i]| <= maxlen
      invariant if j == 0 then minlen == 0 else exists i :: 0 <= i < j && minlen == |srcs[i]|
    {
      if |srcs[j]| > maxlen { maxlen := |srcs[j]|; }
      if j == 0 || |srcs[j]| < minlen { minlen := |srcs[j]|; }
      j := j + 1;
    }
    assert minlen <= |srcs[0]| <= maxlen;
  }

  /** The bytes the word path has finished, and those it has only copied. */
  ghost predicate FastDone(op: Op, srcs: seq<Bytes>, res: seq<Byte>, j: nat, minlen: nat)
    requires srcs != [] && j <= minlen <= |res| && minlen <= |srcs[0]|
  {
    && (forall k :: 0 <= k < j ==> res[k] == Fold(op, srcs, k, |srcs|))
    && (forall k :: j <= k < minlen ==> res[k] == srcs[0][k])
  }

  /** One block of the word path: every further input in turn. */
  method FastBlock(op: Op, srcs: seq<Bytes>, res: array<Byte>, j: nat, ghost minlen: nat)
    requires srcs != [] && (op == OpNot ==> |srcs| == 1) && j + 32 <= minlen <= res.Length
    requires forall i :: 0 <= i < |srcs| ==> minlen <= |srcs[i]|
    requires FastDone(op, srcs, res[..], j, minlen)
    modifies res
    ensures FastDone(op, srcs, res[..], j + 32, minlen)
  {
    hide Combine;
    if op == OpNot {
      forall k | j <= k < j + 32 { res[k] := NotByte(res[k]); }
      return;
    }
    var i := 1;
    while i < |srcs|
      invariant 1 <= i <= |srcs|
      invariant forall k :: 0 <= k < j ==> res[k] == Fold(op, srcs, k, |srcs|)
      invariant forall k :: j <= k < j + 32 ==> res[k] == Fold(op, srcs, k, i)
      invariant forall k :: j + 32 <= k < minlen ==> res[k] == srcs[0][k]
    {
      CombineBlock(op, res, srcs[i], j);
      i := i + 1;
    }
  }

  /** One byte, with the early exit. */
  method SlowByte(op: Op, srcs: seq<Bytes>, j: nat) returns (output: Byte)
    requires srcs != [] && (op == OpNot ==> |srcs| == 1)
    ensures output == Fold(op, srcs, j, |srcs|)
  {
    hide Combine;
    output := if |srcs[0]| <= j then ZERO else srcs[0][j];
    if op == OpNot { output := NotByte(output); }
    var i := 1;
    while i < |srcs|
      invariant 1 <= i <= |srcs| && output == Fold(op, srcs, j, i)
    {
      var byte := if |srcs[i]| <= j then ZERO else srcs[i][j];
      output := Combine(op, output, byte);
      i := i + 1;
      if Settled(op, output) {
        SettledStays(op, srcs, j, i, |srcs|);
        return;
      }
    }
  }

  /** The computation of bitopCommand; missing keys are empty inputs. */
  method BitopCommand(op: Op, srcs: seq<Bytes>) returns (res: array<Byte>)
    requires srcs != [] && (op == OpNot ==> |srcs| == 1)
    ensures res.Length == MaxLen(srcs, |srcs|)
    ensures forall j :: 0 <= j < res.Length ==> res[j] == Fold(op, srcs, j, |srcs|)
  {
    hide Fold;
    var maxlen, minlen := Lengths(srcs);
    res := new Byte[maxlen](_ => ZERO);
    var j := 0;
    if minlen >= 32 && |srcs| <= 16 {
      forall k | 0 <= k < minlen { res[k] := srcs[0][k]; }
      while minlen - j >= 32
        invariant 0 <= j <= minlen && FastDone(op, srcs, res[..], j, minlen)
      {
        FastBlock(op, srcs, res, j, minlen);
        j := j + 32;
      }
    }
    while j < maxlen
      invariant 0 <= j <= maxlen && forall k :: 0 <= k < j ==> res[k] == Fold(op, srcs, k, |srcs|)
    {
      res[j] := SlowByte(op, srcs, j);
      j := j + 1;
    }
  }
}
