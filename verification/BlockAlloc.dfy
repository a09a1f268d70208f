/** The block bitmap: allocation and freeing of data blocks. */
module BlockAlloc {
  import opened Prelude
  import opened FsLayout
  import opened BufferCache

  function BBlock(b: nat): nat { b / BPB + BMAPSTART }

  /** Block b is marked in use. */
  predicate Marked(disk: Disk, b: nat)
    requires b < FSSIZE
  {
    Bit(disk[BBlock(b)], b % BPB)
  }

  function SetMark(disk: Disk, b: nat, v: bool): Disk
    requires b < FSSIZE
  {
    disk[BBlock(b) := PutBit(disk[BBlock(b)], b % BPB, v)]
  }

  /** Changing one mark changes no other, and no block outside the bitmap. */
  lemma MarkPut(disk: Disk, b: nat, v: bool, c: nat)
    requires b < FSSIZE && c < FSSIZE
    ensures Marked(SetMark(disk, b, v), c) == if c == b then v else Marked(disk, c)
    ensures !(BMAPSTART <= c < DATASTART) ==> SetMark(disk, b, v)[c] == disk[c]
  {
    hide Bit, PutBit;
    assert BBlock(b) == BBlock(c) == BMAPSTART && b % BPB == b && c % BPB == c;
    BitPut(disk[BBlock(b)], b, v, c);
  }

  /** All data blocks are in use. */
  ghost predicate Full(disk: Disk) {
    forall b :: DATASTART <= b < FSSIZE ==> Marked(disk, b)
  }

  ghost function FreeSet(disk: Disk): set<nat> { set b: nat | DATASTART <= b < FSSIZE && !Marked(disk, b) }

  /** Number of free data blocks. */
  ghost function Room(disk: Disk): nat { |FreeSet(disk)| }

  lemma FullRoom(disk: Disk)
    ensures Full(disk) <==> Room(disk) == 0
  {
    hide Marked;
    if b: nat :| DATASTART <= b < FSSIZE && !Marked(disk, b) { assert b in FreeSet(disk); }
  }

  /** With an empty bitmap all data blocks are free. */
  lemma EmptyRoom(disk: Disk)
    requires disk[BMAPSTART] == ZeroBlock()
    ensures Room(disk) == FSSIZE - DATASTART
  {
    hide Bit;
    forall b: nat | DATASTART <= b < FSSIZE ensures !Marked(disk, b) {
      assert BBlock(b) == BMAPSTART;
      ZeroBit(b % BPB);
    }
    assert FreeSet(disk) == Range(DATASTART, FSSIZE);
  }

  lemma ZeroBit(i: nat)
    requires i < BPB
    ensures !Bit(ZeroBlock(), i)
  {
    NoBits(i % 8);
  }

  lemma {:induction false} NoBits(k: nat)
    ensures !BitOf(0, k)
  {
    if k > 0 {
      NoBits(k - 1);
    }
  }

  ghost function Range(lo: nat, hi: nat): (s: set<nat>)
    ensures forall b :: b in s <==> lo <= b < hi
    ensures lo <= hi ==> |s| == hi - lo
  {
    if hi <= lo then {} else Range(lo, hi - 1) + {hi - 1}
  }

  /** Only the bitmap counts. */
  lemma RoomSame(disk: Disk, disk': Disk)
    requires forall b :: DATASTART <= b < FSSIZE ==> Marked(disk', b) == Marked(disk, b)
    ensures Room(disk') == Room(disk)
  {
    hide Marked;
    assert FreeSet(disk') == FreeSet(disk);
  }

  ghost predicate FirstFree(disk: Disk, b: nat) {
    && DATASTART <= b < FSSIZE && !Marked(disk, b)
    && forall c :: DATASTART <= c < b ==> Marked(disk, c)
  }

  /** Takes block b if it is free. */
  method TryAlloc(bc: Cache, b: nat) returns (found: bool)
    requires bc.Ready(1) && DATASTART <= b < FSSIZE
    modifies bc
    ensures bc.Valid() && Kept(old(bc.slots), bc.slots)
    ensures found <==> !Marked(old(bc.disk), b)
    ensures bc.disk == if found then SetMark(old(bc.disk), b, true)[b := ZeroBlock()] else old(bc.disk)
  {
    hide Bit, PutBit;
    var i := bc.Pin(BBlock(b));
    var data := bc.slots[i].data;
    found := !Bit(data, b % BPB);
    if found {
      bc.Bwrite(i, PutBit(data, b % BPB, true), BBlock(b));
    }
    bc.Brelse(i);
    assert Refs(bc.slots) == Refs(old(bc.slots));
    if found {
      bc.WriteBlock(b, ZeroBlock());
    }
  }

  /** The lowest free block, now marked and zeroed; None exactly when there is none. */
  method Balloc(bc: Cache) returns (r: Option<nat>)
    requires bc.Ready(1)
    modifies bc
    ensures bc.Valid() && Kept(old(bc.slots), bc.slots)
    ensures r.None? <==> Full(old(bc.disk))
    ensures r.None? ==> bc.disk == old(bc.disk)
    ensures r.Some? ==>
      FirstFree(old(bc.disk), r.value) && bc.disk == SetMark(old(bc.disk), r.value, true)[r.value := ZeroBlock()]
  {
    hide Marked, SetMark;
    for b := DATASTART to FSSIZE
      invariant bc.Ready(1) && Kept(old(bc.slots), bc.slots) && bc.disk == old(bc.disk)
      invariant forall c :: DATASTART <= c < b ==> Marked(bc.disk, c)
    {
      var found := TryAlloc(bc, b);
      if found {
        return Some(b);
      }
    }
    return None;
  }

  /** Frees a data block that is in use; the caller must own it. */
  method Bfree(bc: Cache, b: nat)
    requires bc.Ready(1) && DATASTART <= b < FSSIZE && Marked(bc.disk, b)
    modifies bc
    ensures bc.Valid() && Kept(old(bc.slots), bc.slots)
    ensures bc.disk == SetMark(old(bc.disk), b, false)
  {
    var i := bc.Pin(BBlock(b));
    var data := bc.slots[i].data;
    bc.Bwrite(i, PutBit(data, b % BPB, false), BBlock(b));
    bc.Brelse(i);
    assert Refs(bc.slots) == Refs(old(bc.slots));
  }

  /** Freeing what was just allocated restores the bitmap. */
  lemma AllocThenFree(disk: Disk, b: nat, c: nat)
    requires FirstFree(disk, b) && c < FSSIZE
    ensures var after := SetMark(SetMark(disk, b, true)[b := ZeroBlock()], b, false);
            Marked(after, c) == Marked(disk, c)
  {
    hide Bit, PutBit, ZeroBlock;
    MarkPut(disk, b, true, c);
    MarkPut(SetMark(disk, b, true)[b := ZeroBlock()], b, false, c);
  }
}
