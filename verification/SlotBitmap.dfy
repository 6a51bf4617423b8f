/** The slot bitmaps of src/cluster.c: one bit per slot, the low bit of a byte first. */
module SlotBitmap {

  type Bitmap = seq<bv8>

  function Mask(i: nat): bv8
    requires i < 8
  {
    (1 as bv8) << i
  }

  predicate TestBit(bm: Bitmap, pos: nat)
    requires pos < 8 * |bm|
  {
    bm[pos / 8] & Mask(pos % 8) != 0
  }

  function SetBit(bm: Bitmap, pos: nat): (r: Bitmap)
    requires pos < 8 * |bm|
    ensures |r| == |bm|
  {
    bm[pos / 8 := bm[pos / 8] | Mask(pos % 8)]
  }

  function ClearBit(bm: Bitmap, pos: nat): (r: Bitmap)
    requires pos < 8 * |bm|
    ensures |r| == |bm|
  {
    bm[pos / 8 := bm[pos / 8] & !Mask(pos % 8)]
  }

  lemma Masks()
    ensures Mask(0) == 1 && Mask(1) == 2 && Mask(2) == 4 && Mask(3) == 8
    ensures Mask(4) == 16 && Mask(5) == 32 && Mask(6) == 64 && Mask(7) == 128
  {
  }

  lemma MasksApart(i: nat, k: nat)
    requires i < 8 && k < 8
    ensures Mask(i) != 0 && (i != k ==> Mask(i) & Mask(k) == 0)
  {
    Masks();
    hide Mask;
  }

  lemma InByte(b: bv8, m: bv8, n: bv8, same: bool)
    requires m != 0 && (if same then m == n else m & n == 0)
    ensures (b | m) & n != 0 <==> same || b & n != 0
    ensures (b & !m) & n != 0 <==> !same && b & n != 0
  {
  }

  /** Setting or clearing a bit changes that bit and no other. */
  lemma BitChanges(bm: Bitmap, pos: nat, q: nat)
    requires pos < 8 * |bm| && q < 8 * |bm|
    ensures TestBit(SetBit(bm, pos), q) <==> q == pos || TestBit(bm, q)
    ensures TestBit(ClearBit(bm, pos), q) <==> q != pos && TestBit(bm, q)
  {
    if q / 8 == pos / 8 {
      MasksApart(pos % 8, q % 8);
      InByte(bm[pos / 8], Mask(pos % 8), Mask(q % 8), pos % 8 == q % 8);
    }
  }

  /** How many of the first k bits are set. */
  ghost function Ones(bm: Bitmap, k: nat): nat
    requires k <= 8 * |bm|
  {
    if k == 0 then 0 else Ones(bm, k - 1) + if TestBit(bm, k - 1) then 1 else 0
  }

  function Zeros(n: nat): (bm: Bitmap)
    ensures |bm| == n && forall i :: 0 <= i < n ==> bm[i] == 0
  {
    seq(n, _ => 0)
  }

  lemma ZerosClear(n: nat, q: nat)
    requires q < 8 * n
    ensures !TestBit(Zeros(n), q)
  {
    ZeroClear(Mask(q % 8));
  }

  lemma ZeroClear(m: bv8)
    ensures 0 & m == 0
  {
  }
}
