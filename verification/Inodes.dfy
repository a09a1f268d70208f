/** The inode cache over the disk: reference counts, loading, and why a cached inode
    and its record on disk always describe the same file. */
module Inodes {
  import opened Prelude
  import opened FsLayout
  import opened BufferCache
  import opened BlockAlloc
  import opened BlockMap
  import opened InodeStore
  import opened FileIo
  import opened Directory

  const NINODE := 50

  /** One slot of the inode cache; `ip` means something once `valid`. */
  datatype ISlot = ISlot(inum: nat, refcnt: nat, valid: bool, ip: Inode)

  function OnDisk(disk: Disk, inum: nat): Inode
    requires inum < NINODES
  {
    FromDinode(inum, DinodeOf(disk, inum))
  }

  /** The inode in memory is the record on disk, except that a failed write may have
      left it pointers the record does not have yet. */
  ghost predicate Agrees(ip: Inode, d: Inode) {
    ip == d.(addrs := ip.addrs) && Grows(d.addrs, ip.addrs)
  }

  /** Every inode record describes a sound file. */
  ghost predicate FilesOk(own: Owners, disk: Disk) {
    OwnOk(own, disk) && forall j :: 0 < j < NINODES ==> FileOk(own, disk, OnDisk(disk, j))
  }

  ghost predicate SlotOk(own: Owners, disk: Disk, s: ISlot) {
    s.refcnt > 0 ==>
      && 0 < s.inum < NINODES
      && (s.valid ==> FileOk(own, disk, s.ip) && Agrees(s.ip, OnDisk(disk, s.inum)))
  }

  ghost predicate SlotsOk(own: Owners, disk: Disk, slots: seq<ISlot>) {
    && |slots| == NINODE
    && (forall i :: 0 <= i < NINODE ==> SlotOk(own, disk, slots[i]))
    && (forall i, j :: 0 <= i < j < NINODE && slots[i].refcnt > 0 && slots[j].refcnt > 0 ==>
      slots[i].inum != slots[j].inum)
  }

  /** A cached inode and its record hold the same bytes. */
  lemma AgreeContent(own: Owners, disk: Disk, ip: Inode, d: Inode)
    requires Agrees(ip, d) && FileOk(own, disk, ip) && FileOk(own, disk, d)
    ensures ip.size == d.size <= MAXBYTES && Bytes(disk, ip) == Bytes(disk, d)
  {
    hide OwnOk, Owns, U32At;
    forall i | 0 <= i < d.size
      ensures Bytes(disk, ip)[i] == Bytes(disk, d)[i]
    {
      Split(i);
      AgreePtr(disk, ip.addrs, d.addrs, Slot(i / BSIZE));
    }
  }

  lemma AgreePtr(disk: Disk, addrs: Addrs, daddrs: Addrs, k: nat)
    requires k < NPTR && Grows(daddrs, addrs)
    ensures PtrAt(disk, daddrs, k) != 0 ==> PtrAt(disk, addrs, k) == PtrAt(disk, daddrs, k)
  {
  }

  /** After an unsaved change of the inode in memory the old record is still sound. */
  lemma UnsavedOk(own: Owners, disk: Disk, own': Owners, disk': Disk, d: Inode, ip': Inode)
    requires FileOk(own, disk, d) && FileOk(own', disk', ip') && Agrees(ip', d)
    ensures FileOk(own', disk', d)
  {
    hide OwnOk, U32At;
    forall k | 0 <= k < NPTR ensures OwnsAt(own', disk', d.inum, d.addrs, k) {
      AgreePtr(disk', ip'.addrs, d.addrs, k);
      assert OwnsAt(own', disk', ip'.inum, ip'.addrs, k);
    }
    forall bn | 0 <= bn < MAXFILE && bn * BSIZE < d.size
      ensures BlockAt(disk', d.addrs, bn) != 0
    {
      assert BlockAt(disk, d.addrs, bn) != 0;
      assert BlockAt(disk', ip'.addrs, bn) != 0;
    }
  }

  // ---- Directories, and what a file system user sees of an inode ---------------------

  datatype Node = Node(typ: int, nlink: int, bytes: seq<Byte>)

  function NodeOf(disk: Disk, j: nat): Node
    requires 0 < j < NINODES && OnDisk(disk, j).size <= MAXBYTES
  {
    Node(OnDisk(disk, j).typ, OnDisk(disk, j).nlink, Bytes(disk, OnDisk(disk, j)))
  }

  function TypOf(disk: Disk, j: nat): int
    requires j < NINODES
  {
    DinodeOf(disk, j).typ
  }

  /** Directory j holds each name once, and only names of inodes that exist. */
  ghost predicate DirFine(disk: Disk, j: nat)
    requires 0 < j < NINODES
  {
    OnDisk(disk, j).size <= MAXBYTES && TypOf(disk, j) == T_DIR ==>
      var c := Bytes(disk, OnDisk(disk, j));
      DirOk(c) && forall i :: 0 <= i < Count(c) && Entry(c, i).inum != 0 ==>
        Entry(c, i).inum < NINODES && TypOf(disk, Entry(c, i).inum) != 0
  }

  ghost predicate DirsOk(disk: Disk) {
    forall j :: 0 < j < NINODES ==> DirFine(disk, j)
  }

  /** A held slot names an inode that exists. */
  ghost predicate HeldOk(disk: Disk, slots: seq<ISlot>) {
    forall i :: 0 <= i < |slots| && slots[i].refcnt > 0 ==> slots[i].inum < NINODES && TypOf(disk, slots[i].inum) != 0
  }

  function IRefs(slots: seq<ISlot>): (r: seq<nat>)
    ensures |r| == |slots| && forall i :: 0 <= i < |slots| ==> r[i] == slots[i].refcnt
  {
    seq(|slots|, (i: nat) requires i < |slots| => slots[i].refcnt)
  }

  /** Held slots still stand for the same inodes. */
  ghost predicate SameHeld(before: seq<ISlot>, after: seq<ISlot>) {
    && |after| == |before|
    && forall i :: 0 <= i < |before| && before[i].refcnt > 0 ==> after[i].inum == before[i].inum
  }

  function NoAddrs(): Addrs { seq(NDIRECT + 1, _ => 0) }

  lemma ZeroRecord(disk: Disk, j: nat)
    requires 0 < j < NINODES && disk[IBlock(j)] == ZeroBlock()
    ensures DinodeOf(disk, j) == Dinode(0, 0, 0, 0, 0, NoAddrs())
    ensures FileOk(map[], disk, OnDisk(disk, j)) && DirFine(disk, j)
  {
    assert DinodeOf(disk, j).addrs == NoAddrs();
    NoBlocks(disk, OnDisk(disk, j));
  }

  /** A file without pointers owns nothing. */
  lemma NoBlocks(disk: Disk, ip: Inode)
    requires ip.size == 0 && ip.addrs == NoAddrs()
    ensures forall own :: OwnOk(own, disk) ==> FileOk(own, disk, ip)
  {
  }

  // ---- The pointers in use ----------------------------------------------------------

  ghost predicate Cached(slots: seq<ISlot>, j: nat, i: nat) {
    i < |slots| && slots[i].refcnt > 0 && slots[i].valid && slots[i].inum == j
  }

  /** The pointers that the next operation on inode j will use: those of the inode in memory if
      somebody holds it there, those of its record if not. */
  ghost function CurAddrs(disk: Disk, slots: seq<ISlot>, j: nat): Addrs
    requires j < NINODES
  {
    if exists i: nat :: Cached(slots, j, i) then
      var i: nat :| Cached(slots, j, i); slots[i].ip.addrs
    else OnDisk(disk, j).addrs
  }

  ghost function CurPtrs(disk: Disk, slots: seq<ISlot>, j: nat): set<nat>
    requires j < NINODES
  {
    Ptrs(disk, CurAddrs(disk, slots, j))
  }

  lemma CurAt(own: Owners, disk: Disk, slots: seq<ISlot>, i: nat)
    requires SlotsOk(own, disk, slots) && i < NINODE && slots[i].refcnt > 0
    ensures slots[i].inum < NINODES
    ensures CurAddrs(disk, slots, slots[i].inum) ==
            if slots[i].valid then slots[i].ip.addrs else OnDisk(disk, slots[i].inum).addrs
  {
    hide OnDisk, FileOk, Agrees;
    assert SlotOk(own, disk, slots[i]);
    assert slots[i].valid ==> Cached(slots, slots[i].inum, i);
  }

  /** No operation on any inode will see a difference. */
  ghost predicate CurKept(disk: Disk, slots: seq<ISlot>, slots': seq<ISlot>) {
    forall j :: 0 <= j < NINODES ==> CurAddrs(disk, slots', j) == CurAddrs(disk, slots, j)
  }

  /** Somebody holds inode j. */
  ghost predicate HeldNow(slots: seq<ISlot>, j: nat) {
    exists i :: 0 <= i < |slots| && slots[i].refcnt > 0 && slots[i].inum == j
  }

  /** iget of inode j will find a slot. */
  ghost predicate SlotFor(slots: seq<ISlot>, j: nat) { HeldNow(slots, j) || Spare(IRefs(slots)) > 0 }

  lemma NoSlotFor(slots: seq<ISlot>, j: nat)
    ensures !SlotFor(slots, j) <==> forall i :: 0 <= i < |slots| ==> slots[i].refcnt > 0 && slots[i].inum != j
  {
    hide Spare;
    if Spare(IRefs(slots)) > 0 { SpareExists(IRefs(slots)); }
    forall i | 0 <= i < |slots| && slots[i].refcnt == 0
      ensures Spare(IRefs(slots)) > 0
    {
      SpareCounts(IRefs(slots), i);
    }
  }

  /** One slot changes, none of them from or to a cached inode. */
  lemma CurOne(own: Owners, disk: Disk, slots: seq<ISlot>, i: nat, x: ISlot)
    requires SlotsOk(own, disk, slots) && i < NINODE
    requires if slots[i].refcnt > 0 && slots[i].valid then x.refcnt > 0 && x.valid && x.inum == slots[i].inum &&
      x.ip == slots[i].ip
             else !(x.refcnt > 0 && x.valid)
    ensures CurKept(disk, slots, slots[i := x])
  {
    hide OnDisk, SlotOk;
    forall j | 0 <= j < NINODES ensures CurAddrs(disk, slots[i := x], j) == CurAddrs(disk, slots, j) {
      CurSame(disk, slots, slots[i := x], j);
    }
  }

  /** Loading an inode, or dropping one that is as its record. */
  lemma CurLoaded(own: Owners, disk: Disk, slots: seq<ISlot>, i: nat, ip: Inode, refs: nat)
    requires SlotsOk(own, disk, slots) && i < NINODE && slots[i].refcnt > 0 && !slots[i].valid && refs > 0
    requires 0 < slots[i].inum < NINODES && ip.addrs == OnDisk(disk, slots[i].inum).addrs
    ensures CurKept(disk, slots, slots[i := slots[i].(ip := ip, valid := true, refcnt := refs)])
  {
    hide OnDisk, SlotOk;
    var slots' := slots[i := slots[i].(ip := ip, valid := true, refcnt := refs)];
    forall j | 0 <= j < NINODES ensures CurAddrs(disk, slots', j) == CurAddrs(disk, slots, j) {
      if j == slots[i].inum {
        assert Cached(slots', j, i);
        assert forall k: nat :: Cached(slots', j, k) ==> k == i;
        assert forall k: nat :: !Cached(slots, j, k);
      } else {
        CurSame(disk, slots, slots', j);
      }
    }
  }

  lemma CurDropped(own: Owners, disk: Disk, slots: seq<ISlot>, i: nat)
    requires SlotsOk(own, disk, slots) && i < NINODE && slots[i].refcnt == 1 && slots[i].inum < NINODES
    requires slots[i].valid ==> slots[i].ip.addrs == OnDisk(disk, slots[i].inum).addrs
    ensures CurKept(disk, slots, slots[i := slots[i].(refcnt := 0)])
  {
    hide OnDisk, SlotOk;
    var slots' := slots[i := slots[i].(refcnt := 0)];
    forall j | 0 <= j < NINODES ensures CurAddrs(disk, slots', j) == CurAddrs(disk, slots, j) {
      if j == slots[i].inum {
        assert forall k: nat :: !Cached(slots', j, k);
        assert slots[i].valid ==> Cached(slots, j, i);
        assert forall k: nat :: Cached(slots, j, k) ==> k == i;
      } else {
        CurSame(disk, slots, slots', j);
      }
    }
  }

  /** The slots that only the walk holds are as their records. */
  ghost predicate Clean(disk: Disk, refs: seq<nat>, slots: seq<ISlot>) {
    forall i :: 0 <= i < |slots| && i < |refs| && refs[i] == 0 && slots[i].refcnt > 0 && slots[i].valid ==>
      slots[i].inum < NINODES ==> slots[i].ip.addrs == OnDisk(disk, slots[i].inum).addrs
  }

  lemma CurSame(disk: Disk, slots: seq<ISlot>, slots': seq<ISlot>, j: nat)
    requires j < NINODES && |slots'| == |slots|
    requires forall i: nat :: Cached(slots', j, i) <==> Cached(slots, j, i)
    requires forall i: nat :: Cached(slots, j, i) ==> slots'[i].ip == slots[i].ip
    requires forall i: nat, k: nat :: Cached(slots, j, i) && Cached(slots, j, k) ==> i == k
    ensures CurAddrs(disk, slots', j) == CurAddrs(disk, slots, j)
  {
    hide OnDisk;
  }

  lemma CurSelfKept(disk: Disk, slots: seq<ISlot>)
    ensures CurKept(disk, slots, slots)
  {
  }

  lemma SlotsLen(own: Owners, disk: Disk, slots: seq<ISlot>)
    requires SlotsOk(own, disk, slots)
    ensures |slots| == NINODE
  {
  }

  lemma SameHeldSelf(slots: seq<ISlot>)
    ensures SameHeld(slots, slots)
  {
  }

  lemma NotHeld(slots: seq<ISlot>, inum: nat)
    requires forall j :: 0 <= j < |slots| ==> !(slots[j].refcnt > 0 && slots[j].inum == inum)
    ensures !HeldNow(slots, inum)
  {
  }

  /** One more reference to a held slot. */
  lemma SlotAgain(own: Owners, disk: Disk, slots: seq<ISlot>, i: nat)
    requires SlotsOk(own, disk, slots) && HeldOk(disk, slots) && i < NINODE && slots[i].refcnt > 0
    ensures var slots' := slots[i := slots[i].(refcnt := slots[i].refcnt + 1)];
            && SlotsOk(own, disk, slots') && HeldOk(disk, slots') && SameHeld(slots, slots')
            && IRefs(slots') == IRefs(slots)[i := slots[i].refcnt + 1]
  {
    hide FileOk, Agrees, OnDisk, TypOf;
    var slots' := slots[i := slots[i].(refcnt := slots[i].refcnt + 1)];
    forall k | 0 <= k < NINODE ensures SlotOk(own, disk, slots'[k]) { assert SlotOk(own, disk, slots[k]); }
    assert IRefs(slots') == IRefs(slots)[i := slots[i].refcnt + 1];
  }

  /** One reference less. */
  lemma SlotLess(own: Owners, disk: Disk, slots: seq<ISlot>, i: nat)
    requires SlotsOk(own, disk, slots) && HeldOk(disk, slots) && i < NINODE && slots[i].refcnt > 0
    ensures var slots' := slots[i := slots[i].(refcnt := slots[i].refcnt - 1)];
            && SlotsOk(own, disk, slots') && HeldOk(disk, slots') && SameHeld(slots, slots')
            && IRefs(slots') == IRefs(slots)[i := slots[i].refcnt - 1]
    ensures 0 < slots[i].inum < NINODES && |slots| == NINODE
  {
    hide FileOk, Agrees, OnDisk, TypOf;
    var slots' := slots[i := slots[i].(refcnt := slots[i].refcnt - 1)];
    forall k | 0 <= k < NINODE ensures SlotOk(own, disk, slots'[k]) { assert SlotOk(own, disk, slots[k]); }
    assert SlotOk(own, disk, slots[i]);
    assert IRefs(slots') == IRefs(slots)[i := slots[i].refcnt - 1];
  }

  /** A slot nobody holds, for an inode nobody holds. */
  lemma SlotNew(own: Owners, disk: Disk, slots: seq<ISlot>, i: nat, inum: nat)
    requires SlotsOk(own, disk, slots) && HeldOk(disk, slots) && i < NINODE && slots[i].refcnt == 0
    requires 0 < inum < NINODES && TypOf(disk, inum) != 0 && !HeldNow(slots, inum)
    ensures var slots' := slots[i := slots[i].(inum := inum, refcnt := 1, valid := false)];
            && SlotsOk(own, disk, slots') && HeldOk(disk, slots') && SameHeld(slots, slots')
            && IRefs(slots') == IRefs(slots)[i := 1]
  {
    hide FileOk, Agrees, OnDisk, TypOf;
    var slots' := slots[i := slots[i].(inum := inum, refcnt := 1, valid := false)];
    forall k | 0 <= k < NINODE ensures SlotOk(own, disk, slots'[k]) { assert SlotOk(own, disk, slots[k]); }
    assert IRefs(slots') == IRefs(slots)[i := 1];
  }

  /** Nothing is lost when the slot goes. */
  ghost predicate DropSafe(disk: Disk, s: ISlot) {
    s.valid && s.inum < NINODES ==> s.ip.addrs == OnDisk(disk, s.inum).addrs
  }

  lemma CleanLoaded(disk: Disk, slots: seq<ISlot>, i: nat, ip: Inode)
    requires i < |slots| && slots[i].inum < NINODES && ip.addrs == OnDisk(disk, slots[i].inum).addrs
    ensures forall refs :: Clean(disk, refs, slots) ==>
      Clean(disk, refs, slots[i := slots[i].(ip := ip, valid := true)])
  {
    hide OnDisk;
  }

  lemma CleanOne(disk: Disk, slots: seq<ISlot>, i: nat, x: ISlot)
    requires i < |slots|
    requires x.refcnt > 0 && x.valid ==>
      && slots[i].refcnt > 0 && slots[i].valid && x.inum == slots[i].inum && x.ip == slots[i].ip
    ensures forall refs :: Clean(disk, refs, slots) ==> Clean(disk, refs, slots[i := x])
  {
  }

  class FileSystem {
    const bc: Cache
    var islots: seq<ISlot>
    ghost var own: Owners

    ghost predicate Valid()
      reads this, bc
    {
      && bc.Ready(2) && FilesOk(own, bc.disk) && SlotsOk(own, bc.disk, islots)
      && DirsOk(bc.disk) && HeldOk(bc.disk, islots)
    }

    /** An all-zero disk: no inode, no block in use. */
    constructor ()
      ensures Valid() && fresh(bc)
      ensures forall j :: 0 < j < NINODES ==> DinodeOf(bc.disk, j) == Dinode(0, 0, 0, 0, 0, NoAddrs())
      ensures IRefs(islots) == seq(NINODE, _ => 0) && Room(bc.disk) == FSSIZE - DATASTART
    {
      bc := new Cache();
      islots := seq(NINODE, _ => ISlot(0, 0, false, Inode(0, 0, 0, 0, 0, 0, NoAddrs())));
      own := map[];
      new;
      hide FileOk, DirFine, DinodeAt, Room;
      EmptyRoom(bc.disk);
      forall j | 0 < j < NINODES
        ensures DinodeOf(bc.disk, j) == Dinode(0, 0, 0, 0, 0, NoAddrs())
        ensures FileOk(own, bc.disk, OnDisk(bc.disk, j)) && DirFine(bc.disk, j)
      {
        ZeroRecord(bc.disk, j);
      }
      assert IRefs(islots) == seq(NINODE, _ => 0);
    }

    /** A reference to inode `inum`: another one to the slot that has it, or the first
        slot nobody holds. None exactly when neither exists. */
    method Iget(inum: nat) returns (r: Option<nat>)
      requires Valid() && 0 < inum < NINODES && TypOf(bc.disk, inum) != 0
      modifies `islots
      ensures Valid() && SameHeld(old(islots), islots)
      ensures r.Some? <==> SlotFor(old(islots), inum)
      ensures CurKept(bc.disk, old(islots), islots)
      ensures forall refs :: Clean(bc.disk, refs, old(islots)) ==> Clean(bc.disk, refs, islots)
      ensures r.None? ==> islots == old(islots)
      ensures r.Some? ==>
        && r.value < NINODE && islots[r.value].inum == inum
        && (old(islots[r.value].refcnt) == 0 ==> forall k :: 0 <= k < r.value ==> old(islots[k].refcnt) > 0)
        && (HeldNow(old(islots), inum) ==> old(islots[r.value].refcnt) > 0)
        && IRefs(islots) == IRefs(old(islots))[r.value := old(islots[r.value].refcnt) + 1]
    {
      hide FileOk, Agrees, DirsOk, FilesOk, SlotFor, CurAddrs, Spare, OnDisk, Clean, CurKept, SlotsOk, HeldOk, SameHeld,
        HeldNow;
      assert |islots| == NINODE by { SlotsLen(own, bc.disk, islots); }
      NoSlotFor(islots, inum);
      for i := 0 to NINODE
        invariant islots == old(islots)
        invariant forall j :: 0 <= j < i ==> !(islots[j].refcnt > 0 && islots[j].inum == inum)
      {
        if islots[i].refcnt > 0 && islots[i].inum == inum {
          CurOne(own, bc.disk, islots, i, islots[i].(refcnt := islots[i].refcnt + 1));
          CleanOne(bc.disk, islots, i, islots[i].(refcnt := islots[i].refcnt + 1));
          SlotAgain(own, bc.disk, islots, i);
          islots := islots[i := islots[i].(refcnt := islots[i].refcnt + 1)];
          return Some(i);
        }
      }
      NotHeld(islots, inum);
      for i := 0 to NINODE
        invariant islots == old(islots)
        invariant forall j :: 0 <= j < i ==> islots[j].refcnt > 0
      {
        if islots[i].refcnt == 0 {
          CurOne(own, bc.disk, islots, i, islots[i].(inum := inum, refcnt := 1, valid := false));
          CleanOne(bc.disk, islots, i, islots[i].(inum := inum, refcnt := 1, valid := false));
          SlotNew(own, bc.disk, islots, i, inum);
          islots := islots[i := islots[i].(inum := inum, refcnt := 1, valid := false)];
          return Some(i);
        }
      }
      CurSelfKept(bc.disk, islots);
      SameHeldSelf(islots);
      return None;
    }

    method Idup(i: nat)
      requires Valid() && i < NINODE && islots[i].refcnt > 0
      modifies `islots
      ensures Valid() && SameHeld(old(islots), islots)
      ensures IRefs(islots) == IRefs(old(islots))[i := old(islots[i].refcnt) + 1]
      ensures CurKept(bc.disk, old(islots), islots)
      ensures forall refs :: Clean(bc.disk, refs, old(islots)) ==> Clean(bc.disk, refs, islots)
    {
      hide FileOk, Agrees, DirFine, FilesOk, CurAddrs, OnDisk, Clean;
      CurOne(own, bc.disk, islots, i, islots[i].(refcnt := islots[i].refcnt + 1));
      CleanOne(bc.disk, islots, i, islots[i].(refcnt := islots[i].refcnt + 1));
      islots := islots[i := islots[i].(refcnt := islots[i].refcnt + 1)];
      assert IRefs(islots) == IRefs(old(islots))[i := old(islots[i].refcnt) + 1];
    }

    method Iput(i: nat)
      requires Valid() && i < NINODE && islots[i].refcnt > 0
      modifies `islots
      ensures Valid() && SameHeld(old(islots), islots)
      ensures IRefs(islots) == IRefs(old(islots))[i := old(islots[i].refcnt) - 1]
      ensures forall refs :: Clean(bc.disk, refs, old(islots)) ==> Clean(bc.disk, refs, islots)
      ensures old(islots[i].refcnt) > 1 || DropSafe(bc.disk, old(islots[i])) ==> CurKept(bc.disk, old(islots), islots)
    {
      hide FileOk, Agrees, DirsOk, FilesOk, CurAddrs, OnDisk, Clean, SlotsOk, HeldOk, SameHeld, CurKept;
      SlotLess(own, bc.disk, islots, i);
      if islots[i].refcnt > 1 {
        CurOne(own, bc.disk, islots, i, islots[i].(refcnt := islots[i].refcnt - 1));
      } else if DropSafe(bc.disk, islots[i]) {
        CurDropped(own, bc.disk, islots, i);
      }
      CleanOne(bc.disk, islots, i, islots[i].(refcnt := islots[i].refcnt - 1));
      islots := islots[i := islots[i].(refcnt := islots[i].refcnt - 1)];
    }

    /** The inode of a held slot, loaded from its record if it was not yet. */
    method Ilock(i: nat) returns (ip: Inode)
      requires Valid() && i < NINODE && islots[i].refcnt > 0
      modifies `islots, bc`slots
      ensures Valid() && SameHeld(old(islots), islots) && IRefs(islots) == IRefs(old(islots))
      ensures Kept(old(bc.slots), bc.slots)
      ensures |islots| == NINODE && islots[i].refcnt > 0 && islots[i].valid && ip == islots[i].ip
      ensures 0 < ip.inum == islots[i].inum == old(islots[i].inum) < NINODES
      ensures FileOk(own, bc.disk, ip) && Agrees(ip, OnDisk(bc.disk, ip.inum)) && ip.size <= MAXBYTES
      ensures Bytes(bc.disk, ip) == Bytes(bc.disk, OnDisk(bc.disk, ip.inum))
      ensures CurKept(bc.disk, old(islots), islots) && CurAddrs(bc.disk, islots, ip.inum) == ip.addrs
      ensures forall refs :: Clean(bc.disk, refs, old(islots)) ==> Clean(bc.disk, refs, islots)
    {
      hide FileOk, DirFine, OnDisk, Kept, Agrees, CurAddrs, Clean;
      KeptSelf(bc.slots);
      var inum := islots[i].inum;
      assert SlotOk(own, bc.disk, islots[i]);
      if !islots[i].valid {
        var d := ReadDinode(bc, inum);
        KeptSpare(old(bc.slots), bc.slots);
        DiskInode(bc.disk, inum);
        CurLoaded(own, bc.disk, islots, i, FromDinode(inum, d), islots[i].refcnt);
        CleanLoaded(bc.disk, islots, i, FromDinode(inum, d));
        islots := islots[i := islots[i].(ip := FromDinode(inum, d), valid := true)];
        assert IRefs(islots) == IRefs(old(islots));
      }
      ip := islots[i].ip;
      assert SlotOk(own, bc.disk, islots[i]);
      assert IRefs(islots)[i] == IRefs(old(islots))[i];
      AgreesInum(ip, OnDisk(bc.disk, inum), bc.disk, inum);
      CurAt(own, bc.disk, islots, i);
      AgreeContent(own, bc.disk, ip, OnDisk(bc.disk, inum));
    }
  }

  lemma DiskInode(disk: Disk, inum: nat)
    requires inum < NINODES
    ensures OnDisk(disk, inum) == FromDinode(inum, DinodeOf(disk, inum))
    ensures Agrees(OnDisk(disk, inum), OnDisk(disk, inum))
  {
  }

  lemma AgreesInum(ip: Inode, d: Inode, disk: Disk, inum: nat)
    requires inum < NINODES && d == OnDisk(disk, inum) && Agrees(ip, d)
    ensures ip.inum == inum
  {
  }
}
