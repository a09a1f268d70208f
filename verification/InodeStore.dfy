/** Inode records on the disk. */
module InodeStore {
  import opened FsLayout
  import opened BufferCache
  import opened BlockAlloc
  import opened BlockMap

  function IBlock(inum: nat): nat { inum / IPB + INODESTART }

  lemma IBlockIs(i: nat, j: nat)
    requires i < NINODES && j < NINODES
    ensures INODESTART <= IBlock(i) < BMAPSTART
    ensures IBlock(i) == IBlock(j) && i % IPB == j % IPB ==> i == j
  {
  }

  function DinodeOf(disk: Disk, inum: nat): (d: Dinode)
    requires inum < NINODES
    ensures Storable(d)
  {
    DinodeAt(disk[IBlock(inum)], inum % IPB)
  }

  function PutDinodeOf(disk: Disk, inum: nat, d: Dinode): Disk
    requires inum < NINODES && Storable(d)
  {
    disk[IBlock(inum) := PutDinode(disk[IBlock(inum)], inum % IPB, d)]
  }

  function ToDinode(ip: Inode): Dinode {
    Dinode(ip.typ, ip.major, ip.minor, ip.nlink, ip.size, ip.addrs)
  }

  function FromDinode(inum: nat, d: Dinode): Inode
    requires |d.addrs| == NDIRECT + 1
  {
    Inode(inum, d.typ, d.major, d.minor, d.nlink, d.size, d.addrs)
  }

  /** Writing one inode record is read back, changes no other record, and touches
      neither the bitmap nor any data block. */
  lemma DinodePut(disk: Disk, inum: nat, d: Dinode, j: nat)
    requires inum < NINODES && Storable(d) && j < NINODES
    ensures DinodeOf(PutDinodeOf(disk, inum, d), j) == if j == inum then d else DinodeOf(disk, j)
    ensures forall b :: BMAPSTART <= b < FSSIZE ==> PutDinodeOf(disk, inum, d)[b] == disk[b]
  {
    IBlockIs(inum, j);
    IBlockIs(j, inum);
    hide DinodeAt, PutDinode, IBlock;
    var b := disk[IBlock(inum)];
    if j == inum {
      DinodeReadBack(b, inum % IPB, d);
    } else if IBlock(j) == IBlock(inum) {
      DinodeOther(b, inum % IPB, d, j % IPB);
    }
  }

  method ReadDinode(bc: Cache, inum: nat) returns (d: Dinode)
    requires bc.Ready(1) && inum < NINODES
    modifies bc`slots
    ensures bc.Valid() && Kept(old(bc.slots), bc.slots) && d == DinodeOf(bc.disk, inum)
  {
    var data := bc.ReadBlock(IBlock(inum));
    d := DinodeAt(data, inum % IPB);
  }

  method WriteDinode(bc: Cache, inum: nat, d: Dinode)
    requires bc.Ready(1) && inum < NINODES && Storable(d)
    modifies bc
    ensures bc.Valid() && Kept(old(bc.slots), bc.slots) && bc.disk == PutDinodeOf(old(bc.disk), inum, d)
  {
    var i := bc.Pin(IBlock(inum));
    ghost var pinned := bc.slots;
    bc.Bwrite(i, PutDinode(bc.slots[i].data, inum % IPB, d), IBlock(inum));
    ghost var worked := bc.slots;
    bc.Brelse(i);
    KeptAcross(old(bc.slots), pinned, worked, bc.slots, i);
  }

  /** Inode records other than `inum` are as they were. */
  ghost predicate RecordsKept(disk: Disk, disk': Disk, inum: nat) {
    forall j :: 0 <= j < NINODES && j != inum ==> DinodeOf(disk', j) == DinodeOf(disk, j)
  }

  /** Nothing of any other file changed: neither its blocks nor its inode record. */
  ghost predicate OthersSafe(own: Owners, disk: Disk, own': Owners, disk': Disk, inum: nat) {
    && (forall b :: b in own && own[b].0 != inum ==>
      b in own' && own'[b] == own[b] && b < FSSIZE && disk'[b] == disk[b])
    && RecordsKept(disk, disk', inum)
  }

  lemma BlocksSafe(own: Owners, disk: Disk, own': Owners, disk': Disk, inum: nat)
    requires OthersKept(own, disk, own', disk', inum)
    ensures OthersSafe(own, disk, own', disk', inum)
    ensures inum < NINODES ==> DinodeOf(disk', inum) == DinodeOf(disk, inum)
  {
    hide DinodeAt, IBlock;
    forall j | 0 <= j < NINODES ensures DinodeOf(disk', j) == DinodeOf(disk, j) {
      IBlockIs(j, j);
    }
  }

  lemma SafeTrans(o1: Owners, d1: Disk, o2: Owners, d2: Disk, o3: Owners, d3: Disk, inum: nat)
    requires OthersSafe(o1, d1, o2, d2, inum) && OthersSafe(o2, d2, o3, d3, inum)
    ensures OthersSafe(o1, d1, o3, d3, inum)
  {
  }

  lemma RecordSafe(own: Owners, disk: Disk, inum: nat, d: Dinode, addrs: Addrs)
    requires OwnOk(own, disk) && Owns(own, disk, inum, addrs) && inum < NINODES && Storable(d)
    ensures var disk' := PutDinodeOf(disk, inum, d);
            && OwnOk(own, disk') && Owns(own, disk', inum, addrs) && OthersSafe(own, disk, own, disk', inum)
            && Extends(disk, addrs, disk', addrs) && DinodeOf(disk', inum) == d
            && (forall b :: BMAPSTART <= b < FSSIZE ==> disk'[b] == disk[b])
  {
    hide PutDinodeOf, DinodeOf, U32At, Bit, Owns, Extends;
    var disk' := PutDinodeOf(disk, inum, d);
    DinodePut(disk, inum, d, inum);
    forall j | 0 <= j < NINODES && j != inum ensures DinodeOf(disk', j) == DinodeOf(disk, j) {
      DinodePut(disk, inum, d, j);
    }
    SameData(own, disk, disk', inum, addrs);
  }

  /** A file is unaffected when the bitmap and all data blocks are. */
  lemma SameData(own: Owners, disk: Disk, disk': Disk, inum: nat, addrs: Addrs)
    requires OwnOk(own, disk) && Owns(own, disk, inum, addrs) && forall b :: BMAPSTART <= b < FSSIZE ==>
      disk'[b] == disk[b]
    ensures Owns(own, disk', inum, addrs) && Extends(disk, addrs, disk', addrs)
  {
    hide U32At, Bit;
    assert OwnsAt(own, disk, inum, addrs, NDIRECT);
    forall k | 0 <= k < NPTR
      ensures OwnsAt(own, disk', inum, addrs, k) && ExtendsAt(disk, addrs, disk', addrs, k)
    {
      assert OwnsAt(own, disk, inum, addrs, k);
    }
  }

  /** A file other than the one written reads the same. */
  lemma OtherSafe(own: Owners, disk: Disk, own': Owners, disk': Disk, inum: nat, other: nat, addrs: Addrs)
    requires OthersSafe(own, disk, own', disk', inum) && OwnOk(own, disk) && other != inum
    requires Owns(own, disk, other, addrs)
    ensures Owns(own', disk', other, addrs)
    ensures forall k :: 0 <= k < NPTR ==> PtrAt(disk', addrs, k) == PtrAt(disk, addrs, k)
    ensures forall k :: 0 <= k < NPTR && PtrAt(disk, addrs, k) != 0 ==>
              PtrAt(disk, addrs, k) < FSSIZE && disk'[PtrAt(disk, addrs, k)] == disk[PtrAt(disk, addrs, k)]
  {
    hide U32At;
    assert OwnsAt(own, disk, other, addrs, NDIRECT);
    forall k | 0 <= k < NPTR
      ensures PtrAt(disk', addrs, k) == PtrAt(disk, addrs, k) && OwnsAt(own', disk', other, addrs, k)
      ensures PtrAt(disk, addrs, k) != 0 ==>
        PtrAt(disk, addrs, k) < FSSIZE && disk'[PtrAt(disk, addrs, k)] == disk[PtrAt(disk, addrs, k)]
    {
      assert OwnsAt(own, disk, other, addrs, k);
    }
  }
}
