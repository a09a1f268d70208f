/** The RAM disk behind its write-through buffer cache. */
module BufferCache {
  import opened Prelude
  import opened FsLayout

  const NBUF := 16

  datatype Buffer = Buffer(blockno: nat, refcnt: nat, valid: bool, data: Block) {
    predicate InUse() { refcnt > 0 || valid }
  }

  /** At most one slot in use per block. */
  ghost predicate Unique(slots: seq<Buffer>) {
    forall i, j :: 0 <= i < j < |slots| && slots[i].InUse() && slots[j].InUse() ==> slots[i].blockno != slots[j].blockno
  }

  /** A valid slot holds what the disk holds. */
  ghost predicate Coherent(slots: seq<Buffer>, disk: Disk) {
    forall i :: 0 <= i < |slots| && slots[i].valid ==>
      slots[i].blockno < FSSIZE && slots[i].data == disk[slots[i].blockno]
  }

  function Refs(slots: seq<Buffer>): (r: seq<nat>)
    ensures |r| == |slots| && forall i :: 0 <= i < |slots| ==> r[i] == slots[i].refcnt
  {
    seq(|slots|, (i: nat) requires i < |slots| => slots[i].refcnt)
  }

  /** Number of slots nobody holds. */
  function Spare(refs: seq<nat>): nat {
    if refs == [] then 0 else Spare(refs[1..]) + if refs[0] == 0 then 1 else 0
  }

  /** A spare slot counts. */
  lemma {:induction false} SpareCounts(refs: seq<nat>, i: nat)
    requires i < |refs| && refs[i] == 0
    ensures Spare(refs) > 0
  {
    if i > 0 {
      SpareCounts(refs[1..], i - 1);
    }
  }

  /** Taking a reference to a spare slot uses it up, to another slot none. */
  lemma {:induction false} SpareTaken(refs: seq<nat>, i: nat)
    requires i < |refs|
    ensures Spare(refs) == Spare(refs[i := refs[i] + 1]) + if refs[i] == 0 then 1 else 0
  {
    var after := refs[i := refs[i] + 1];
    if i == 0 {
      assert after[1..] == refs[1..];
    } else {
      assert after[1..] == refs[1..][i - 1 := refs[i] + 1];
      SpareTaken(refs[1..], i - 1);
    }
  }

  /** Taking one more reference uses up at most one spare slot. */
  lemma {:induction false} SparePinned(refs: seq<nat>, i: nat)
    requires i < |refs|
    ensures Spare(refs[i := refs[i] + 1]) >= Spare(refs) - 1
  {
    var after := refs[i := refs[i] + 1];
    if i == 0 {
      assert after[1..] == refs[1..];
    } else {
      assert after[1..] == refs[1..][i - 1 := refs[1..][i - 1] + 1];
      SparePinned(refs[1..], i - 1);
    }
  }

  lemma {:induction false} SpareExists(refs: seq<nat>)
    requires Spare(refs) > 0
    ensures exists i :: 0 <= i < |refs| && refs[i] == 0
  {
    if refs[0] != 0 {
      SpareExists(refs[1..]);
      var i :| 0 <= i < |refs| - 1 && refs[1..][i] == 0;
      assert refs[i + 1] == 0;
    }
  }

  lemma {:induction false} SpareAll(refs: seq<nat>)
    requires forall i :: 0 <= i < |refs| ==> refs[i] == 0
    ensures Spare(refs) == |refs|
  {
    if refs != [] {
      SpareAll(refs[1..]);
    }
  }

  class Cache {
    var disk: Disk
    var slots: seq<Buffer>

    ghost predicate Valid()
      reads this
    {
      |slots| == NBUF && Unique(slots) && Coherent(slots, disk)
    }

    /** Valid, with room to pin n more blocks. */
    ghost predicate Ready(n: nat)
      reads this
    {
      Valid() && Spare(Refs(slots)) >= n
    }

    /** Slot i pins block b. */
    ghost predicate Pins(i: nat, b: nat)
      reads this
    {
      i < |slots| && slots[i].refcnt > 0 && slots[i].valid && slots[i].blockno == b
    }

    constructor ()
      ensures Ready(NBUF) && disk == seq(FSSIZE, _ => ZeroBlock())
      ensures forall i :: 0 <= i < NBUF ==> slots[i].refcnt == 0
    {
      disk := seq<Block>(FSSIZE, _ => ZeroBlock());
      slots := seq(NBUF, _ => Buffer(0, 0, false, ZeroBlock()));
      new;
      SpareAll(Refs(slots));
    }

    /** A slot for block b with one more reference: the one that has it, or else
        the first nobody holds. None exactly when b is off the disk, or nobody has
        it and every slot is held. */
    method Bget(b: nat) returns (r: Option<nat>)
      requires Valid()
      modifies `slots
      ensures |slots| == NBUF && Unique(slots) && Coherent(slots, disk)
      ensures r.None? ==> slots == old(slots)
      ensures r.None? <==> b >= FSSIZE || (forall i :: 0 <= i < NBUF ==>
                old(slots[i].refcnt) > 0 && old(slots[i].blockno) != b)
      ensures r.Some? ==> r.value < NBUF && Taken(old(slots), slots, r.value, b)
      ensures r.Some? && HasBlock(old(slots), b) ==>
        slots[r.value] == old(slots[r.value]).(refcnt := old(slots[r.value].refcnt) + 1)
      ensures r.Some? && !HasBlock(old(slots), b) ==>
        && slots[r.value] == old(slots[r.value]).(blockno := b, refcnt := 1, valid := false)
        && old(slots[r.value].refcnt) == 0 && forall j :: 0 <= j < r.value ==> old(slots[j].refcnt) > 0
    {
      if b >= FSSIZE {
        return None;
      }
      for i := 0 to NBUF
        invariant slots == old(slots)
        invariant forall j :: 0 <= j < i ==> !(slots[j].blockno == b && slots[j].InUse())
      {
        if slots[i].blockno == b && (slots[i].refcnt > 0 || slots[i].valid) {
          slots := slots[i := slots[i].(refcnt := slots[i].refcnt + 1)];
          return Some(i);
        }
      }
      for i := 0 to NBUF
        invariant slots == old(slots)
        invariant forall j :: 0 <= j < i ==> slots[j].refcnt > 0
      {
        if slots[i].refcnt == 0 {
          slots := slots[i := slots[i].(blockno := b, refcnt := 1, valid := false)];
          return Some(i);
        }
      }
      return None;
    }

    /** Reading through the cache is reading the disk, whatever was evicted. */
    method Bread(b: nat) returns (r: Option<nat>)
      requires Valid()
      modifies `slots
      ensures Valid()
      ensures r.None? ==> slots == old(slots)
      ensures r.None? <==> b >= FSSIZE || (forall i :: 0 <= i < NBUF ==>
                old(slots[i].refcnt) > 0 && old(slots[i].blockno) != b)
      ensures r.Some? ==>
        && r.value < NBUF && b < FSSIZE && Pins(r.value, b) && slots[r.value].data == disk[b]
        && Refs(slots) == Refs(old(slots))[r.value := old(slots[r.value].refcnt) + 1]
        && (old(slots[r.value].refcnt) > 0 ==> old(slots[r.value].blockno) == b)
        && (forall j :: 0 <= j < NBUF && j != r.value ==> slots[j] == old(slots)[j])
    {
      r := Bget(b);
      if r.Some? {
        var i := r.value;
        if !slots[i].valid {
          slots := slots[i := slots[i].(data := disk[b], valid := true)];
        }
        assert Refs(slots) == Refs(old(slots))[i := old(slots[i].refcnt) + 1];
      }
    }

    /** Changing the data of a held buffer and writing it through. */
    method Bwrite(i: nat, data: Block, ghost b: nat)
      requires Valid() && Pins(i, b)
      modifies this
      ensures Valid() && Pins(i, b) && slots[i].data == data
      ensures disk == old(disk)[b := data] && Kept(old(slots), slots)
      ensures forall j :: 0 <= j < NBUF && j != i ==> slots[j] == old(slots)[j]
    {
      slots := slots[i := slots[i].(data := data)];
      disk := disk[slots[i].blockno := data];
      assert Refs(slots) == Refs(old(slots));
    }

    method Brelse(i: nat)
      requires Valid() && i < NBUF && slots[i].refcnt > 0
      modifies `slots
      ensures Valid() && Refs(slots) == Refs(old(slots))[i := old(slots[i].refcnt) - 1]
      ensures slots[i].valid == old(slots[i].valid) && slots[i].blockno == old(slots[i].blockno)
      ensures forall j :: 0 <= j < NBUF && j != i ==> slots[j] == old(slots)[j]
    {
      slots := slots[i := slots[i].(refcnt := slots[i].refcnt - 1)];
      assert Refs(slots) == Refs(old(slots))[i := old(slots[i].refcnt) - 1];
    }

    /** bread that cannot fail: the block is on the disk and a slot is spare. */
    method Pin(b: nat) returns (i: nat)
      requires Ready(1) && b < FSSIZE
      modifies `slots
      ensures Valid() && i < NBUF && Pins(i, b) && slots[i].data == disk[b]
      ensures Refs(slots) == Refs(old(slots))[i := old(slots[i].refcnt) + 1]
      ensures Spare(Refs(slots)) >= Spare(Refs(old(slots))) - 1
      ensures old(slots[i].refcnt) > 0 ==> old(slots[i].blockno) == b
      ensures forall j :: 0 <= j < NBUF && j != i ==> slots[j] == old(slots)[j]
    {
      SpareExists(Refs(slots));
      ghost var k :| 0 <= k < |Refs(slots)| && Refs(slots)[k] == 0;
      assert slots[k].refcnt == 0;
      var r := Bread(b);
      i := r.value;
      SparePinned(Refs(old(slots)), i);
    }

    /** A block read between its bread and its brelse. */
    method ReadBlock(b: nat) returns (data: Block)
      requires Ready(1) && b < FSSIZE
      modifies `slots
      ensures Valid() && Kept(old(slots), slots) && data == disk[b]
    {
      var i := Pin(b);
      data := slots[i].data;
      Brelse(i);
      assert Refs(slots) == Refs(old(slots));
    }

    /** A block overwritten between its bread and its brelse. */
    method WriteBlock(b: nat, data: Block)
      requires Ready(1) && b < FSSIZE
      modifies this
      ensures Valid() && Kept(old(slots), slots) && disk == old(disk)[b := data]
    {
      var i := Pin(b);
      Bwrite(i, data, b);
      Brelse(i);
      assert Refs(slots) == Refs(old(slots));
    }
  }

  /** Every reference count is back where it was, and a held block stayed in its slot. */
  ghost predicate Kept(before: seq<Buffer>, after: seq<Buffer>) {
    && |after| == |before| && Refs(after) == Refs(before)
    && forall i :: 0 <= i < |before| && before[i].refcnt > 0 && before[i].valid ==>
         after[i].valid && after[i].blockno == before[i].blockno
  }

  /** Slot i went from nobody's, or from holding b already, to holding b once more. */
  /** Some slot is in use for block b. */
  ghost predicate HasBlock(slots: seq<Buffer>, b: nat) {
    exists i :: 0 <= i < |slots| && slots[i].InUse() && slots[i].blockno == b
  }

  ghost predicate Taken(before: seq<Buffer>, after: seq<Buffer>, i: nat, b: nat)
    requires i < |before|
  {
    && |after| == |before| && after[i].blockno == b && after[i].refcnt == before[i].refcnt + 1
    && (before[i].refcnt > 0 ==> before[i].blockno == b)
    && (forall j :: 0 <= j < |before| && j != i ==> after[j] == before[j])
  }

  /** Work done between taking a reference to slot i and giving it back leaves the
      cache as it was held before. */
  lemma KeptAcross(before: seq<Buffer>, pinned: seq<Buffer>, worked: seq<Buffer>, after: seq<Buffer>, i: nat)
    requires i < |before| == |pinned| == |worked| == |after| && Kept(pinned, worked)
    requires Refs(pinned) == Refs(before)[i := before[i].refcnt + 1]
    requires forall j :: 0 <= j < |before| && j != i ==> pinned[j] == before[j]
    requires pinned[i].valid && pinned[i].refcnt > 0
    requires (before[i].refcnt > 0 ==> before[i].blockno == pinned[i].blockno)
    requires Refs(after) == Refs(worked)[i := worked[i].refcnt - 1]
    requires forall j :: 0 <= j < |before| && j != i ==> after[j] == worked[j]
    requires after[i].valid == worked[i].valid && after[i].blockno == worked[i].blockno
    ensures Kept(before, after)
  {
    assert Refs(after) == Refs(before);
    assert Refs(pinned) == Refs(worked);
  }

  lemma PinnedData(slots: seq<Buffer>, disk: Disk, i: nat)
    requires Coherent(slots, disk) && i < |slots| && slots[i].valid
    ensures slots[i].blockno < FSSIZE && slots[i].data == disk[slots[i].blockno]
  {
  }

  lemma KeptSelf(slots: seq<Buffer>)
    ensures Kept(slots, slots)
  {
  }

  lemma KeptTrans(a: seq<Buffer>, b: seq<Buffer>, c: seq<Buffer>)
    requires Kept(a, b) && Kept(b, c)
    ensures Kept(a, c)
  {
    forall i | 0 <= i < |a| && a[i].refcnt > 0 && a[i].valid
      ensures c[i].valid && c[i].blockno == a[i].blockno
    {
      assert Refs(b)[i] == Refs(a)[i];
    }
  }

  lemma KeptSpare(a: seq<Buffer>, b: seq<Buffer>)
    requires Kept(a, b)
    ensures Spare(Refs(b)) == Spare(Refs(a))
  {
  }
}
