/** Where things are on the disk and how they are laid out in a block: 32-bit words,
    64-byte inode records, bitmap bits. */
module FsLayout {
  import opened Prelude

  const BSIZE := 1024
  const FSSIZE := 2000
  const NINODES := 200
  const ROOTINO := 1

  const NDIRECT := 12
  const NINDIRECT := BSIZE / 4
  const MAXFILE := NDIRECT + NINDIRECT

  const DINODESIZE := 64
  const IPB := BSIZE / DINODESIZE
  const BPB := BSIZE * 8

  const INODESTART := 2
  const BMAPSTART := INODESTART + (NINODES + IPB - 1) / IPB
  const DATASTART := BMAPSTART + (FSSIZE + BPB - 1) / BPB

  const T_DIR := 1
  const T_FILE := 2

  const U32 := 0x1_0000_0000

  type Block = b: seq<Byte> | |b| == BSIZE witness seq(BSIZE, _ => 0)

  function Zeros(n: nat): (r: seq<Byte>)
    ensures |r| == n && forall i :: 0 <= i < n ==> r[i] == 0
  {
    if n == 0 then [] else Zeros(n - 1) + [0]
  }

  function ZeroBlock(): Block { Zeros(BSIZE) }

  type Disk = d: seq<Block> | |d| == FSSIZE witness seq<Block>(FSSIZE, _ => ZeroBlock())

  // ---- 32-bit words -----------------------------------------------------------

  /** Byte j of the little-endian representation of v. */
  function LeByte(v: nat, j: nat): Byte {
    if j == 0 then v % 256 else LeByte(v / 256, j - 1)
  }

  function U32At(b: Block, off: nat): nat
    requires off + 4 <= BSIZE
  {
    var b0: int, b1: int, b2: int, b3: int := b[off], b[off + 1], b[off + 2], b[off + 3];
    b0 + 256 * b1 + 65536 * b2 + 16777216 * b3
  }

  function PutU32(b: Block, off: nat, v: nat): Block
    requires off + 4 <= BSIZE
  {
    b[off := LeByte(v, 0)][off + 1 := LeByte(v, 1)][off + 2 := LeByte(v, 2)][off + 3 := LeByte(v, 3)]
  }

  lemma LeBytes(v: nat)
    requires v < U32
    ensures var b0: int, b1: int, b2: int, b3: int := LeByte(v, 0), LeByte(v, 1), LeByte(v, 2), LeByte(v, 3);
            b0 + 256 * b1 + 65536 * b2 + 16777216 * b3 == v
  {
    var q1 := v / 256;
    var q2 := q1 / 256;
    var q3 := q2 / 256;
    assert LeByte(v, 1) == q1 % 256;
    assert LeByte(v, 2) == LeByte(q1, 1) == q2 % 256;
    assert LeByte(v, 3) == LeByte(q1, 2) == LeByte(q2, 1) == q3 % 256;
  }

  /** A word written is read back, and words elsewhere are untouched. */
  lemma U32Put(b: Block, off: nat, v: nat, off': nat)
    requires off + 4 <= BSIZE && off' + 4 <= BSIZE && v < U32
    ensures U32At(PutU32(b, off, v), off) == v
    ensures off' + 4 <= off || off + 4 <= off' ==> U32At(PutU32(b, off, v), off') == U32At(b, off')
  {
    LeBytes(v);
  }

  // ---- Inode records ----------------------------------------------------------

  datatype Dinode = Dinode(typ: int, major: int, minor: int, nlink: int, size: nat, addrs: seq<nat>)

  predicate I16(v: int) { -32768 <= v < 32768 }

  predicate Storable(d: Dinode) {
    && I16(d.typ) && I16(d.major) && I16(d.minor) && I16(d.nlink) && d.size < U32
    && |d.addrs| == NDIRECT + 1 && forall k :: 0 <= k <= NDIRECT ==> d.addrs[k] < U32
  }

  function Wrap16(v: int): nat
    requires I16(v)
  {
    if v < 0 then v + 65536 else v
  }

  function I16At(b: Block, off: nat): (v: int)
    requires off + 2 <= BSIZE
    ensures I16(v)
  {
    var b0: int, b1: int := b[off], b[off + 1];
    var u := b0 + 256 * b1;
    if u < 32768 then u else u - 65536
  }

  /** Byte j of the record of d. */
  function DinodeByte(d: Dinode, j: nat): Byte
    requires Storable(d) && j < DINODESIZE
  {
    if j < 2 then LeByte(Wrap16(d.typ), j)
    else if j < 4 then LeByte(Wrap16(d.major), j - 2)
    else if j < 6 then LeByte(Wrap16(d.minor), j - 4)
    else if j < 8 then LeByte(Wrap16(d.nlink), j - 6)
    else if j < 12 then LeByte(d.size, j - 8)
    else LeByte(d.addrs[(j - 12) / 4], (j - 12) % 4)
  }

  function DinodeAt(b: Block, idx: nat): (d: Dinode)
    requires idx < IPB
    ensures Storable(d)
  {
    var o := idx * DINODESIZE;
    var d := Dinode(I16At(b, o), I16At(b, o + 2), I16At(b, o + 4), I16At(b, o + 6), U32At(b, o + 8),
           seq(NDIRECT + 1, (k: nat) requires k <= NDIRECT => U32At(b, o + 12 + 4 * k)));
    d
  }

  function Overlaid(b: Block, idx: nat, d: Dinode, i: nat): Byte
    requires idx < IPB && Storable(d) && i < BSIZE
  {
    var o := idx * DINODESIZE;
    if o <= i < o + DINODESIZE then DinodeByte(d, i - o) else b[i]
  }

  function PutDinode(b: Block, idx: nat, d: Dinode): (p: Block)
    requires idx < IPB && Storable(d)
    ensures forall i :: 0 <= i < BSIZE ==> p[i] == Overlaid(b, idx, d, i)
  {
    var p := seq(BSIZE, (i: nat) requires i < BSIZE => Overlaid(b, idx, d, i));
    assert forall i :: 0 <= i < BSIZE ==> p[i] == Overlaid(b, idx, d, i);
    p
  }

  lemma Le16(v: int)
    requires I16(v)
    ensures var b0: int, b1: int := LeByte(Wrap16(v), 0), LeByte(Wrap16(v), 1); b0 + 256 * b1 == Wrap16(v)
  {
  }

  /** An inode record written is read back. */
  lemma DinodeReadBack(b: Block, idx: nat, d: Dinode)
    requires idx < IPB && Storable(d)
    ensures DinodeAt(PutDinode(b, idx, d), idx) == d
  {
    var o, p, r := idx * DINODESIZE, PutDinode(b, idx, d), DinodeAt(PutDinode(b, idx, d), idx);
    Le16(d.typ);
    Le16(d.major);
    Le16(d.minor);
    Le16(d.nlink);
    LeBytes(d.size);
    forall k | 0 <= k <= NDIRECT
      ensures r.addrs[k] == d.addrs[k]
    {
      LeBytes(d.addrs[k]);
      AddrBytes(b, idx, d, k);
    }
    assert r.addrs == d.addrs;
  }

  lemma AddrBytes(b: Block, idx: nat, d: Dinode, k: nat)
    requires idx < IPB && Storable(d) && k <= NDIRECT
    ensures forall j :: 0 <= j < 4 ==>
              PutDinode(b, idx, d)[idx * DINODESIZE + 12 + 4 * k + j] == LeByte(d.addrs[k], j)
  {
  }

  /** Writing one record changes no other record. */
  lemma DinodeOther(b: Block, idx: nat, d: Dinode, j: nat)
    requires idx < IPB && Storable(d) && j < IPB && j != idx
    ensures DinodeAt(PutDinode(b, idx, d), j) == DinodeAt(b, j)
  {
    var p, o := PutDinode(b, idx, d), j * DINODESIZE;
    assert forall i :: o <= i < o + DINODESIZE ==> p[i] == b[i];
    assert DinodeAt(p, j).addrs == DinodeAt(b, j).addrs;
  }

  // ---- Bitmap bits ------------------------------------------------------------

  function Pow2(n: nat): nat {
    if n == 0 then 1 else 2 * Pow2(n - 1)
  }

  predicate BitOf(x: nat, k: nat) {
    if k == 0 then x % 2 == 1 else BitOf(x / 2, k - 1)
  }

  /** x with bit k changed to v, in a word of n bits. */
  function WithBit(x: nat, k: nat, v: bool, n: nat): (y: nat)
    requires k < n && x < Pow2(n)
    ensures y < Pow2(n)
  {
    if k == 0 then x / 2 * 2 + (if v then 1 else 0) else 2 * WithBit(x / 2, k - 1, v, n - 1) + x % 2
  }

  lemma {:induction false} WithBitBits(x: nat, k: nat, v: bool, n: nat, j: nat)
    requires k < n && x < Pow2(n)
    ensures BitOf(WithBit(x, k, v, n), j) == if j == k then v else BitOf(x, j)
    decreases k
  {
    if k > 0 && j > 0 {
      WithBitBits(x / 2, k - 1, v, n - 1, j - 1);
    }
  }

  /** Changing bit k adds or subtracts its power of two, or nothing. */
  lemma {:induction false} WithBitMask(x: nat, k: nat, n: nat)
    requires k < n && x < Pow2(n)
    ensures WithBit(x, k, true, n) == if BitOf(x, k) then x else x + Pow2(k)
    ensures WithBit(x, k, false, n) == if BitOf(x, k) then x - Pow2(k) else x
    decreases k
  {
    if k > 0 {
      WithBitMask(x / 2, k - 1, n - 1);
    }
  }

  function Half(b: bv8): bv8 { b >> 1 }

  predicate Odd(b: bv8) { b & 1 == 1 }

  /** The number a byte of n bits stands for. */
  function Value(b: bv8, n: nat): (x: nat)
    ensures x < Pow2(n)
  {
    if n == 0 then 0 else 2 * Value(Half(b), n - 1) + if Odd(b) then 1 else 0
  }

  /** 1 << k. */
  function Mask(k: nat): bv8
    requires k < 8
  {
    if k == 0 then 1 else Mask(k - 1) << 1
  }

  function SetBits(b: bv8, mask: bv8): bv8 { b | mask }

  function ClearBits(b: bv8, mask: bv8): bv8 { b & !mask }

  predicate Clear(b: bv8, mask: bv8) { b & mask == 0 }

  lemma MaskFirst(b: bv8)
    ensures Half(SetBits(b, Mask(0))) == Half(b) && Odd(SetBits(b, Mask(0)))
    ensures Half(ClearBits(b, Mask(0))) == Half(b) && !Odd(ClearBits(b, Mask(0)))
    ensures Clear(b, Mask(0)) <==> !Odd(b)
  {
    assert (b | 1) >> 1 == b >> 1 && (b | 1) & 1 == 1;
    assert (b & !1) >> 1 == b >> 1 && (b & !1) & 1 == 0;
    assert b & 1 == 0 || b & 1 == 1;
  }

  lemma MaskLow(k: nat)
    requires k < 7
    ensures Mask(k) & 0x80 == 0
  {
    assert Mask(0) == 1;
    assert k >= 1 ==> Mask(1) == 2;
    assert k >= 2 ==> Mask(2) == 4;
    assert k >= 3 ==> Mask(3) == 8;
    assert k >= 4 ==> Mask(4) == 16;
    assert k >= 5 ==> Mask(5) == 32;
    assert k >= 6 ==> Mask(6) == 64;
  }

  lemma MaskNext(b: bv8, k: nat)
    requires 0 < k < 8
    ensures Half(SetBits(b, Mask(k))) == SetBits(Half(b), Mask(k - 1)) && Odd(SetBits(b, Mask(k))) == Odd(b)
    ensures Half(ClearBits(b, Mask(k))) == ClearBits(Half(b), Mask(k - 1)) && Odd(ClearBits(b, Mask(k))) == Odd(b)
    ensures Clear(b, Mask(k)) <==> Clear(Half(b), Mask(k - 1))
  {
    MaskLow(k - 1);
  }

  function Digit(v: bool): nat { if v then 1 else 0 }

  lemma ValueStep(b: bv8, n: nat)
    requires n > 0
    ensures Value(b, n) == 2 * Value(Half(b), n - 1) + Digit(Odd(b))
  {
  }

  lemma WithBitStep(x: nat, low: bool, k: nat, v: bool, n: nat)
    requires k < n && x < Pow2(n - 1)
    ensures 2 * x + Digit(low) < Pow2(n)
    ensures WithBit(2 * x + Digit(low), k, v, n) ==
            if k == 0 then 2 * x + Digit(v) else 2 * WithBit(x, k - 1, v, n - 1) + Digit(low)
    ensures BitOf(2 * x + Digit(low), k) == if k == 0 then low else BitOf(x, k - 1)
  {
    assert (2 * x + Digit(low)) / 2 == x;
  }

  /** What the bitmap code does to a byte with its mask is what the model does to the number. */
  lemma {:induction false} MaskOps(b: bv8, k: nat, n: nat)
    requires k < n <= 8
    ensures Value(SetBits(b, Mask(k)), n) == WithBit(Value(b, n), k, true, n)
    ensures Value(ClearBits(b, Mask(k)), n) == WithBit(Value(b, n), k, false, n)
    ensures Clear(b, Mask(k)) <==> !BitOf(Value(b, n), k)
    decreases k
  {
    hide Half, Odd, Mask, SetBits, ClearBits, Clear, Value, WithBit, BitOf, Pow2;
    ValueStep(b, n);
    ValueStep(SetBits(b, Mask(k)), n);
    ValueStep(ClearBits(b, Mask(k)), n);
    WithBitStep(Value(Half(b), n - 1), Odd(b), k, true, n);
    WithBitStep(Value(Half(b), n - 1), Odd(b), k, false, n);
    if k == 0 {
      MaskFirst(b);
    } else {
      MaskNext(b, k);
      MaskOps(Half(b), k - 1, n - 1);
    }
  }

  predicate Bit(b: Block, k: nat)
    requires k < BPB
  {
    BitOf(b[k / 8], k % 8)
  }

  function PutBit(b: Block, k: nat, v: bool): Block
    requires k < BPB
  {
    assert Pow2(8) == 256 by { assert Pow2(4) == 16; }
    b[k / 8 := WithBit(b[k / 8], k % 8, v, 8)]
  }

  /** Changing one bit changes that bit and no other. */
  lemma BitPut(b: Block, k: nat, v: bool, j: nat)
    requires k < BPB && j < BPB
    ensures Bit(PutBit(b, k, v), j) == if j == k then v else Bit(b, j)
  {
    assert Pow2(8) == 256 by { assert Pow2(4) == 16; }
    WithBitBits(b[k / 8], k % 8, v, 8, j % 8);
  }
}
