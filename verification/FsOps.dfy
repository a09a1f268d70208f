/** Operations of the file system on whole inodes, stated by what a user sees: types,
    link counts and bytes of every inode. */
module FsOps {
  import opened Prelude
  import opened FsLayout
  import opened BufferCache
  import opened BlockAlloc
  import opened BlockMap
  import opened InodeStore
  import opened FileIo
  import opened Directory
  import opened Inodes

  ghost predicate Sized(disk: Disk) {
    forall j :: 0 < j < NINODES ==> OnDisk(disk, j).size <= MAXBYTES
  }

  /** Every inode but j looks the same. */
  ghost predicate NodesKept(disk: Disk, disk': Disk, j: nat) {
    Sized(disk) && Sized(disk') && forall k :: 0 < k < NINODES && k != j ==> NodeOf(disk', k) == NodeOf(disk, k)
  }

  lemma FilesSized(own: Owners, disk: Disk)
    requires FilesOk(own, disk)
    ensures Sized(disk)
  {
    forall j | 0 < j < NINODES ensures OnDisk(disk, j).size <= MAXBYTES {
      FileSize(own, disk, OnDisk(disk, j));
    }
  }

  /** One inode was changed in the slot that holds it and on disk; everything else
      about the file system is as sound as before. */
  lemma AfterChange(own: Owners, disk: Disk, slots: seq<ISlot>, own': Owners, disk': Disk, i: nat, ip': Inode)
    requires FilesOk(own, disk) && SlotsOk(own, disk, slots) && i < NINODE && slots[i].refcnt > 0
    requires 0 < ip'.inum == slots[i].inum < NINODES && OthersSafe(own, disk, own', disk', ip'.inum)
    requires FileOk(own', disk', ip') && FileOk(own', disk', OnDisk(disk', ip'.inum))
    requires Agrees(ip', OnDisk(disk', ip'.inum))
    ensures FilesOk(own', disk') && SlotsOk(own', disk', slots[i := slots[i].(ip := ip', valid := true)])
    ensures NodesKept(disk, disk', ip'.inum)
  {
    hide FileOk, Agrees, DinodeOf, Content;
    assert OwnOk(own', disk') by { FileOwn(own', disk', ip'); }
    forall j | 0 < j < NINODES
      ensures FileOk(own', disk', OnDisk(disk', j))
      ensures j != ip'.inum ==>
        && OnDisk(disk', j) == OnDisk(disk, j) && OnDisk(disk, j).size <= MAXBYTES
        && Bytes(disk', OnDisk(disk', j)) == Bytes(disk, OnDisk(disk, j))
    {
      if j != ip'.inum {
        RecordKept(own, disk, own', disk', ip'.inum, j);
        FileSize(own, disk, OnDisk(disk, j));
        OtherContent(own, disk, own', disk', ip'.inum, OnDisk(disk, j));
      }
    }
    FilesSized(own, disk);
    FilesSized(own', disk');
    forall k | 0 <= k < NINODE && k != i
      ensures SlotOk(own', disk', slots[k])
    {
      assert SlotOk(own, disk, slots[k]);
      if slots[k].refcnt > 0 && slots[k].valid {
        AgreesInum(slots[k].ip, OnDisk(disk, slots[k].inum), disk, slots[k].inum);
        RecordKept(own, disk, own', disk', ip'.inum, slots[k].inum);
        FileSize(own, disk, slots[k].ip);
        OtherContent(own, disk, own', disk', ip'.inum, slots[k].ip);
      }
    }
  }

  lemma FileOwn(own: Owners, disk: Disk, ip: Inode)
    requires FileOk(own, disk, ip)
    ensures OwnOk(own, disk)
  {
  }

  lemma RecordKept(own: Owners, disk: Disk, own': Owners, disk': Disk, inum: nat, j: nat)
    requires OthersSafe(own, disk, own', disk', inum) && 0 < j < NINODES && j != inum
    ensures OnDisk(disk', j) == OnDisk(disk, j)
  {
  }

  /** Directories stay sound when one inode changed into a sound one and no inode
      ceased to exist. */
  lemma DirsAfter(disk: Disk, disk': Disk, j: nat)
    requires DirsOk(disk) && 0 < j < NINODES && NodesKept(disk, disk', j) && DirFine(disk', j)
    requires TypOf(disk, j) != 0 ==> TypOf(disk', j) != 0
    ensures DirsOk(disk')
    ensures forall k :: 0 < k < NINODES && TypOf(disk, k) != 0 ==> TypOf(disk', k) != 0
  {
    hide Content, DinodeOf, Entry, DirOk;
    forall k | 0 < k < NINODES
      ensures TypOf(disk, k) != 0 ==> TypOf(disk', k) != 0
    {
      if k != j { assert NodeOf(disk', k) == NodeOf(disk, k); }
    }
    forall k | 0 < k < NINODES
      ensures DirFine(disk', k)
    {
      assert DirFine(disk, k);
      if k != j { assert NodeOf(disk', k) == NodeOf(disk, k); }
    }
  }

  lemma AgreesSavable(disk: Disk, ip: Inode)
    requires 0 < ip.inum < NINODES && Agrees(ip, OnDisk(disk, ip.inum))
    ensures Savable(ip)
    ensures ip.typ == TypOf(disk, ip.inum) && ip.nlink == OnDisk(disk, ip.inum).nlink
    ensures ip.size == OnDisk(disk, ip.inum).size
  {
  }

  /** A changed inode that was saved is its record; one that was not still agrees with
      the record it had. */
  lemma SavedOrNot(own: Owners, disk: Disk, own': Owners, disk': Disk, ip: Inode, ip': Inode)
    requires 0 < ip.inum < NINODES && ip'.inum == ip.inum && FileOk(own', disk', ip')
    requires FileOk(own, disk, OnDisk(disk, ip.inum)) && Agrees(ip, OnDisk(disk, ip.inum))
    requires DinodeOf(disk', ip.inum) == ToDinode(ip') ||
             (DinodeOf(disk', ip.inum) == DinodeOf(disk, ip.inum) && ip' == ip.(addrs := ip'.addrs) &&
               Grows(ip.addrs, ip'.addrs))
    ensures FileOk(own', disk', OnDisk(disk', ip.inum)) && Agrees(ip', OnDisk(disk', ip.inum))
  {
    hide FileOk, DinodeOf;
    if DinodeOf(disk', ip.inum) == ToDinode(ip') {
      assert OnDisk(disk', ip.inum) == ip';
    } else {
      assert OnDisk(disk', ip.inum) == OnDisk(disk, ip.inum);
      UnsavedOk(own, disk, own', disk', OnDisk(disk, ip.inum), ip');
    }
  }

  lemma ValidAt(fs: FileSystem, i: nat)
    requires fs.Valid() && i < NINODE && fs.islots[i].refcnt > 0
    ensures 0 < fs.islots[i].inum < NINODES && Sized(fs.bc.disk) && |fs.islots| == NINODE
    ensures FileOk(fs.own, fs.bc.disk, OnDisk(fs.bc.disk, fs.islots[i].inum)) && DirFine(fs.bc.disk, fs.islots[i].inum)
    ensures TypOf(fs.bc.disk, fs.islots[i].inum) != 0
  {
    hide FileOk, DirFine;
    assert SlotOk(fs.own, fs.bc.disk, fs.islots[i]);
    FilesSized(fs.own, fs.bc.disk);
  }

  lemma HeldAfter(disk: Disk, disk': Disk, slots: seq<ISlot>, slots': seq<ISlot>)
    requires HeldOk(disk, slots) && SameHeld(slots, slots') && IRefs(slots') == IRefs(slots)
    requires forall k :: 0 < k < NINODES && TypOf(disk, k) != 0 ==> TypOf(disk', k) != 0
    requires forall k :: 0 <= k < |slots| && slots[k].refcnt > 0 ==> slots[k].inum > 0
    ensures HeldOk(disk', slots')
  {
    hide TypOf;
    forall k | 0 <= k < |slots'| && slots'[k].refcnt > 0
      ensures slots'[k].inum < NINODES && TypOf(disk', slots'[k].inum) != 0
    {
      assert IRefs(slots')[k] == IRefs(slots)[k];
    }
  }

  lemma SlotsPositive(own: Owners, disk: Disk, slots: seq<ISlot>)
    requires SlotsOk(own, disk, slots)
    ensures forall k :: 0 <= k < |slots| && slots[k].refcnt > 0 ==> slots[k].inum > 0
  {
    forall k | 0 <= k < |slots| && slots[k].refcnt > 0 ensures slots[k].inum > 0 {
      assert SlotOk(own, disk, slots[k]);
    }
  }

  /** The record on disk has all pointers that the inode in memory has. */
  ghost predicate InSync(disk: Disk, slots: seq<ISlot>, j: nat)
    requires j < NINODES
  {
    CurAddrs(disk, slots, j) == OnDisk(disk, j).addrs
  }

  /** No operation on an inode other than j will find other pointers. */
  ghost predicate PtrsKept(disk: Disk, slots: seq<ISlot>, disk': Disk, slots': seq<ISlot>, j: nat) {
    forall k :: 0 < k < NINODES && k != j ==> PtrsSame(disk, slots, disk', slots', k)
  }

  ghost predicate PtrsSame(disk: Disk, slots: seq<ISlot>, disk': Disk, slots': seq<ISlot>, k: nat)
    requires k < NINODES
  {
    CurPtrs(disk', slots', k) == CurPtrs(disk, slots, k) && (InSync(disk, slots, k) ==> InSync(disk', slots', k))
  }

  lemma PtrsKeptFrom(disk: Disk, slots: seq<ISlot>, slots1: seq<ISlot>, disk': Disk, slots': seq<ISlot>, j: nat)
    requires CurKept(disk, slots, slots1) && PtrsKept(disk, slots1, disk', slots', j)
    ensures PtrsKept(disk, slots, disk', slots', j)
  {
    hide CurAddrs, Ptrs, OnDisk;
    forall k | 0 < k < NINODES && k != j ensures PtrsSame(disk, slots, disk', slots', k) {
      assert PtrsSame(disk, slots1, disk', slots', k);
    }
  }

  lemma PtrsSelf(disk: Disk, slots: seq<ISlot>, j: nat)
    ensures PtrsKept(disk, slots, disk, slots, j)
  {
  }

  /** The pointers of one other inode, after slot i was changed and the disk with it. */
  lemma OtherPtrs(own: Owners, disk: Disk, slots: seq<ISlot>, own': Owners, disk': Disk, i: nat, ip': Inode, k: nat)
    requires FilesOk(own, disk) && SlotsOk(own, disk, slots) && i < NINODE && slots[i].refcnt > 0
    requires 0 < slots[i].inum == ip'.inum && OthersSafe(own, disk, own', disk', ip'.inum) && 0 < k < NINODES
    requires k != ip'.inum
    ensures PtrsSame(disk, slots, disk', slots[i := slots[i].(ip := ip', valid := true)], k)
  {
    hide OnDisk, Agrees, OthersSafe, FilesOk;
    var slots' := slots[i := slots[i].(ip := ip', valid := true)];
    assert forall n: nat :: Cached(slots', k, n) <==> Cached(slots, k, n);
    RecordKept(own, disk, own', disk', ip'.inum, k);
    CurSame(disk, slots, slots', k);
    assert CurAddrs(disk', slots', k) == CurAddrs(disk, slots', k) by {
      if exists n: nat :: Cached(slots', k, n) {
        var n: nat :| Cached(slots', k, n);
        assert forall n': nat :: Cached(slots', k, n') ==> n' == n;
      }
    }
    CurOwns(own, disk, slots, k);
    FilesOwn(own, disk);
    SamePtrs(own, disk, own', disk', ip'.inum, k, CurAddrs(disk, slots, k));
  }

  lemma FilesOwn(own: Owners, disk: Disk)
    requires FilesOk(own, disk)
    ensures OwnOk(own, disk)
  {
  }

  lemma SamePtrs(own: Owners, disk: Disk, own': Owners, disk': Disk, inum: nat, k: nat, addrs: Addrs)
    requires OthersSafe(own, disk, own', disk', inum) && OwnOk(own, disk) && k != inum && Owns(own, disk, k, addrs)
    ensures Ptrs(disk', addrs) == Ptrs(disk, addrs)
  {
    hide PtrAt, OthersSafe;
    OtherSafe(own, disk, own', disk', inum, k, addrs);
  }

  lemma CurOwns(own: Owners, disk: Disk, slots: seq<ISlot>, k: nat)
    requires FilesOk(own, disk) && SlotsOk(own, disk, slots) && 0 < k < NINODES
    ensures Owns(own, disk, k, CurAddrs(disk, slots, k))
  {
    hide OnDisk, Agrees, FileOk, Owns;
    if exists n: nat :: Cached(slots, k, n) {
      var n: nat :| Cached(slots, k, n);
      assert forall n': nat :: Cached(slots, k, n') ==> n' == n;
      assert SlotOk(own, disk, slots[n]);
      AgreesInum(slots[n].ip, OnDisk(disk, k), disk, k);
      FileOwns(own, disk, slots[n].ip);
    } else {
      assert FileOk(own, disk, OnDisk(disk, k));
      DiskInum(disk, k);
      FileOwns(own, disk, OnDisk(disk, k));
    }
  }

  lemma DiskInum(disk: Disk, k: nat)
    requires k < NINODES
    ensures OnDisk(disk, k).inum == k
  {
  }

  /** The file system is sound, holds what it held, and only the inode of slot i differs. */
  ghost predicate OnlyChanged(fs: FileSystem, i: nat, disk: Disk, slots: seq<ISlot>)
    reads fs, fs.bc
  {
    && fs.Valid() && SameHeld(slots, fs.islots) && IRefs(fs.islots) == IRefs(slots)
    && i < |slots| && NodesKept(disk, fs.bc.disk, slots[i].inum)
    && PtrsKept(disk, slots, fs.bc.disk, fs.islots, slots[i].inum)
  }

  /** Puts a changed inode back into its slot and re-establishes the whole file system. */
  method PutBack(fs: FileSystem, i: nat, ip: Inode, ip': Inode, ghost own': Owners, ghost disk: Disk,
                 ghost was: seq<Buffer>)
    requires FilesOk(fs.own, disk) && SlotsOk(fs.own, disk, fs.islots) && DirsOk(disk) && HeldOk(disk, fs.islots)
    requires i < NINODE && fs.islots[i].refcnt > 0 && fs.islots[i].inum == ip.inum == ip'.inum
    requires Agrees(ip, OnDisk(disk, ip.inum)) && FileOk(own', fs.bc.disk, ip')
    requires OthersSafe(fs.own, disk, own', fs.bc.disk, ip.inum)
    requires DinodeOf(fs.bc.disk, ip.inum) == ToDinode(ip') ||
             (DinodeOf(fs.bc.disk, ip.inum) == DinodeOf(disk, ip.inum) && ip' == ip.(addrs := ip'.addrs) &&
               Grows(ip.addrs, ip'.addrs))
    requires ip'.typ == ip.typ && fs.bc.Valid() && Kept(was, fs.bc.slots) && Spare(Refs(was)) >= 2
    requires ip'.typ == T_DIR && ip'.size <= MAXBYTES ==> DirBytes(fs.bc.disk, Bytes(fs.bc.disk, ip'))
    modifies fs`islots, fs`own
    ensures OnlyChanged(fs, i, disk, old(fs.islots)) && fs.islots[i].valid && fs.islots[i].ip == ip'
    ensures CurAddrs(fs.bc.disk, fs.islots, ip.inum) == ip'.addrs
    ensures NodeOf(fs.bc.disk, ip.inum) == Node(ip'.typ, ip'.nlink, Bytes(fs.bc.disk, ip'))
  {
    hide FileOk, Agrees, DirFine, Kept, OthersSafe, Grows, DinodeOf, Content, FilesOk, SlotsOk, DirsOk, HeldOk,
      NodesKept, CurAddrs, Ptrs;
    ghost var disk', slots := fs.bc.disk, fs.islots;
    KeptSpare(was, fs.bc.slots);
    SlotRange(fs.own, disk, fs.islots, i);
    FilesAt(fs.own, disk, ip.inum);
    SavedOrNot(fs.own, disk, own', disk', ip, ip');
    AgreeContent(own', disk', ip', OnDisk(disk', ip.inum));
    AgreesSavable(disk', ip');
    AgreesSavable(disk, ip);
    AfterChange(fs.own, disk, fs.islots, own', disk', i, ip');
    NewDirFine(disk', ip');
    HeldTyp(disk, fs.islots, i);
    DirsAfter(disk, disk', ip.inum);
    SlotsPositive(fs.own, disk, slots);
    ghost var slots' := slots[i := slots[i].(ip := ip', valid := true)];
    forall k | 0 < k < NINODES && k != ip.inum ensures PtrsSame(disk, slots, disk', slots', k) {
      OtherPtrs(fs.own, disk, slots, own', disk', i, ip', k);
    }
    CurAt(own', disk', slots', i);
    fs.islots := fs.islots[i := fs.islots[i].(ip := ip', valid := true)];
    fs.own := own';
    assert IRefs(fs.islots) == IRefs(slots);
    HeldAfter(disk, disk', slots, fs.islots);
  }

  /** A sound directory body: names unique, and only names of existing inodes. */
  ghost predicate DirBytes(disk: Disk, c: seq<Byte>) {
    DirOk(c) && forall i :: 0 <= i < Count(c) && Entry(c, i).inum != 0 ==>
      Entry(c, i).inum < NINODES && TypOf(disk, Entry(c, i).inum) != 0
  }

  lemma SlotRange(own: Owners, disk: Disk, slots: seq<ISlot>, i: nat)
    requires SlotsOk(own, disk, slots) && i < NINODE && slots[i].refcnt > 0
    ensures 0 < slots[i].inum < NINODES && |slots| == NINODE
  {
    assert SlotOk(own, disk, slots[i]);
  }

  lemma FilesAt(own: Owners, disk: Disk, j: nat)
    requires FilesOk(own, disk) && 0 < j < NINODES
    ensures FileOk(own, disk, OnDisk(disk, j))
  {
  }

  lemma HeldTyp(disk: Disk, slots: seq<ISlot>, i: nat)
    requires HeldOk(disk, slots) && i < |slots| && slots[i].refcnt > 0
    ensures slots[i].inum < NINODES && TypOf(disk, slots[i].inum) != 0
  {
  }

  lemma NewDirFine(disk: Disk, ip: Inode)
    requires 0 < ip.inum < NINODES && ip.size == OnDisk(disk, ip.inum).size <= MAXBYTES
    requires Bytes(disk, ip) == Bytes(disk, OnDisk(disk, ip.inum))
    requires TypOf(disk, ip.inum) == T_DIR ==> DirBytes(disk, Bytes(disk, ip))
    ensures DirFine(disk, ip.inum)
  {
  }

  // ---- Files ------------------------------------------------------------------------

  /** readi on a held inode: the bytes of the file, whatever is cached. */
  method ReadFile(fs: FileSystem, i: nat, off: nat, n: nat) returns (dst: Option<seq<Byte>>)
    requires fs.Valid() && i < NINODE && fs.islots[i].refcnt > 0
    modifies fs`islots, fs.bc`slots
    ensures fs.Valid() && SameHeld(old(fs.islots), fs.islots) && IRefs(fs.islots) == IRefs(old(fs.islots))
    ensures 0 < old(fs.islots[i].inum) < NINODES && Sized(fs.bc.disk)
    ensures dst == if off >= U32 then None else
      var c := NodeOf(fs.bc.disk, old(fs.islots[i].inum)).bytes;
      Some(if off >= |c| then [] else c[off..off + Min(n, |c| - off)])
  {
    hide FileOk, Agrees, DirFine, Kept, FilesOk, SlotsOk, DirsOk, HeldOk, Content;
    ValidAt(fs, i);
    if off >= U32 {
      return None;
    }
    var ip := fs.Ilock(i);
    AgreesSavable(fs.bc.disk, ip);
    ContentLen(fs.bc.disk, ip);
    ghost var s1 := fs.bc.slots;
    var data := Readi(fs.bc, ip, off, n, fs.own);
    KeptSpare(s1, fs.bc.slots);
    return Some(data);
  }

  lemma SavedAddrs(disk: Disk, ip: Inode)
    requires ip.inum < NINODES && DinodeOf(disk, ip.inum) == ToDinode(ip)
    ensures OnDisk(disk, ip.inum).addrs == ip.addrs
  {
  }

  lemma UnsavedAddrs(disk: Disk, disk': Disk, j: nat)
    requires j < NINODES && DinodeOf(disk', j) == DinodeOf(disk, j)
    ensures OnDisk(disk', j).addrs == OnDisk(disk, j).addrs
  {
  }

  /** writei on a held inode that is not a directory. A failing write leaves pointers that the
      record on disk does not have exactly when it strands. */
  method WriteFile(fs: FileSystem, i: nat, off: nat, src: seq<Byte>) returns (n: int)
    requires fs.Valid() && i < NINODE && fs.islots[i].refcnt > 0
    requires fs.islots[i].inum < NINODES && TypOf(fs.bc.disk, fs.islots[i].inum) != T_DIR
    modifies fs, fs.bc
    ensures OnlyChanged(fs, i, old(fs.bc.disk), old(fs.islots))
    ensures 0 < old(fs.islots[i].inum) < NINODES
    ensures off >= U32 ==> n == -1
    ensures off >= U32 || src == [] || off + |src| > MAXBYTES ==> fs.bc.disk == old(fs.bc.disk) && n <= 0
    ensures off < U32 && src != [] && off + |src| <= MAXBYTES ==>
      var j := old(fs.islots[i].inum);
      var was, now := NodeOf(old(fs.bc.disk), j), NodeOf(fs.bc.disk, j);
      var ptrs, room := CurPtrs(old(fs.bc.disk), old(fs.islots), j), Room(old(fs.bc.disk));
      && n >= 0 && now == was.(bytes := now.bytes) && (n < |src| ==> Full(fs.bc.disk))
      && WroteOrNot(was.bytes, now.bytes, off, src, n, FillCost(ptrs, |was.bytes|, off) <= room)
      && (n == |src| <==> WriteCost(ptrs, |was.bytes|, off, |src|) <= room)
      && (n == |src| ==> Room(fs.bc.disk) + WriteCost(ptrs, |was.bytes|, off, |src|) == room)
      && (InSync(old(fs.bc.disk), old(fs.islots), j) ==>
            (!InSync(fs.bc.disk, fs.islots, j) <==> Strands(ptrs, |was.bytes|, off, |src|, room)))
  {
    hide FileOk, Agrees, DirFine, Kept, FilesOk, SlotsOk, DirsOk, HeldOk, Content, OthersSafe, DinodeOf, Grows,
      BlockAlloc.Full, WroteOrNot, CurAddrs, Ptrs, Room, FillCost, WriteCost, WriteWay, Strands;
    ValidAt(fs, i);
    PtrsSelf(fs.bc.disk, fs.islots, fs.islots[i].inum);
    if off >= U32 {
      return -1;
    }
    var ip := fs.Ilock(i);
    AgreesSavable(fs.bc.disk, ip);
    ghost var s1, disk, slots := fs.bc.slots, fs.bc.disk, fs.islots;
    var ip', k;
    ghost var own';
    ip', k, own' := Writei(fs.bc, ip, off, src, fs.own);
    FileSize(own', fs.bc.disk, ip');
    ContentLen(disk, ip);
    if k > 0 || ip'.size != ip.size { SavedAddrs(fs.bc.disk, ip'); } else { UnsavedAddrs(disk, fs.bc.disk, ip.inum); }
    PutBack(fs, i, ip, ip', own', disk, s1);
    PtrsKeptFrom(disk, old(fs.islots), slots, fs.bc.disk, fs.islots, ip.inum);
    n := k;
  }

  /** trunc on a held inode that is not a directory. */
  method TruncFile(fs: FileSystem, i: nat)
    requires fs.Valid() && i < NINODE && fs.islots[i].refcnt > 0
    requires fs.islots[i].inum < NINODES && TypOf(fs.bc.disk, fs.islots[i].inum) != T_DIR
    modifies fs, fs.bc
    ensures OnlyChanged(fs, i, old(fs.bc.disk), old(fs.islots))
    ensures 0 < old(fs.islots[i].inum) < NINODES
    ensures var j := old(fs.islots[i].inum);
            NodeOf(fs.bc.disk, j) == NodeOf(old(fs.bc.disk), j).(bytes := [])
  {
    hide FileOk, Agrees, DirFine, Kept, FilesOk, SlotsOk, DirsOk, HeldOk, Content, OthersSafe, DinodeOf, Grows,
      Marked, PointsTo,
      CurAddrs, Ptrs;
    ValidAt(fs, i);
    var ip := fs.Ilock(i);
    AgreesSavable(fs.bc.disk, ip);
    ghost var s1, disk, slots := fs.bc.slots, fs.bc.disk, fs.islots;
    var ip';
    ghost var own';
    ip', own' := Itrunc(fs.bc, ip, fs.own);
    PutBack(fs, i, ip, ip', own', disk, s1);
    PtrsKeptFrom(disk, old(fs.islots), slots, fs.bc.disk, fs.islots, ip.inum);
    ContentLen(fs.bc.disk, ip');
  }

  // ---- Directories ------------------------------------------------------------------

  /** The parent of a new entry: a directory whose name was free got it, or nothing a
      user can see changed. */
  method LinkChild(fs: FileSystem, i: nat, name: seq<Byte>, child: nat) returns (ok: bool)
    requires fs.Valid() && i < NINODE && fs.islots[i].refcnt > 0
    requires 0 < child < NINODES && TypOf(fs.bc.disk, child) != 0
    modifies fs, fs.bc
    ensures OnlyChanged(fs, i, old(fs.bc.disk), old(fs.islots))
    ensures 0 < old(fs.islots[i].inum) < NINODES
    ensures var j := old(fs.islots[i].inum);
            var was, now := NodeOf(old(fs.bc.disk), j), NodeOf(fs.bc.disk, j);
            if ok then
              && was.typ == T_DIR && Lookup(was.bytes, name) == None
              && now == was.(bytes := WithEntry(was.bytes, FirstUnused(was.bytes, 0), Dirent(child, Stored(name))))
            else
              && now == was
              && (|| was.typ != T_DIR || Lookup(was.bytes, name).Some? || Full(fs.bc.disk)
                  || FirstUnused(was.bytes, 0) * ENTSIZE + ENTSIZE > MAXBYTES)
    ensures var j := old(fs.islots[i].inum);
            var was, ptrs := NodeOf(old(fs.bc.disk), j), CurPtrs(old(fs.bc.disk), old(fs.islots), j);
            && (ok <==> EntryTaken(was, name, ptrs, Room(old(fs.bc.disk))))
            && (ok ==>
                  && Room(fs.bc.disk) + EntryCost(was.bytes, ptrs) == Room(old(fs.bc.disk))
                  && CurPtrs(fs.bc.disk, fs.islots, j) == EntryWay(was.bytes, ptrs) && InSync(fs.bc.disk, fs.islots, j))
  {
    hide FileOk, Agrees, Kept, FilesOk, SlotsOk, DirsOk, HeldOk, Content, OthersSafe, DinodeOf, Grows,
      BlockAlloc.Full, DirOk, Lookup, WithEntry, FirstUnused, Stored, Entry, CurAddrs, Ptrs, Room, EntryCost, EntryWay;
    ValidAt(fs, i);
    var dp := fs.Ilock(i);
    AgreesSavable(fs.bc.disk, dp);
    ghost var s1, disk, slots := fs.bc.slots, fs.bc.disk, fs.islots;
    assert DirFine(disk, dp.inum);
    var dp';
    ghost var own';
    dp', ok, own' := DirLink(fs.bc, dp, name, child, fs.own);
    FileSize(own', fs.bc.disk, dp');
    if dp.typ == T_DIR {
      TypsKept(fs.own, disk, own', fs.bc.disk, dp, dp');
      if ok {
        LinkedDir(disk, fs.bc.disk, Bytes(disk, dp), name, child);
      }
    }
    if ok { SavedAddrs(fs.bc.disk, dp'); }
    PutBack(fs, i, dp, dp', own', disk, s1);
    PtrsKeptFrom(disk, old(fs.islots), slots, fs.bc.disk, fs.islots, dp.inum);
  }

  /** dirlink of a new name succeeds: a directory without that name, a place for the entry, and
      blocks for it. */
  ghost predicate EntryTaken(dir: Node, name: seq<Byte>, ptrs: set<nat>, room: nat) {
    && dir.typ == T_DIR && Lookup(dir.bytes, name) == None && EntryFits(dir.bytes) && EntryCost(dir.bytes, ptrs) <= room
  }

  /** No inode's type changes when a directory is written. */
  lemma TypsKept(own: Owners, disk: Disk, own': Owners, disk': Disk, dp: Inode, dp': Inode)
    requires OthersSafe(own, disk, own', disk', dp.inum) && 0 < dp.inum < NINODES
    requires dp'.typ == dp.typ == TypOf(disk, dp.inum)
    requires DinodeOf(disk', dp.inum) == ToDinode(dp') || DinodeOf(disk', dp.inum) == DinodeOf(disk, dp.inum)
    ensures forall k :: 0 <= k < NINODES ==> TypOf(disk', k) == TypOf(disk, k)
  {
    hide DinodeOf;
    forall k | 0 <= k < NINODES ensures TypOf(disk', k) == TypOf(disk, k) {
      if k != dp.inum {
        assert DinodeOf(disk', k) == DinodeOf(disk, k);
      }
    }
  }

  lemma LinkedDir(disk: Disk, disk': Disk, c: seq<Byte>, name: seq<Byte>, child: nat)
    requires DirBytes(disk, c) && Lookup(c, name) == None && 0 < child < NINODES && TypOf(disk, child) != 0
    requires forall k :: 0 <= k < NINODES ==> TypOf(disk', k) == TypOf(disk, k)
    ensures DirBytes(disk', WithEntry(c, FirstUnused(c, 0), Dirent(child, Stored(name))))
  {
    hide Entry, Stored, WithEntry, TypOf;
    var k, de := FirstUnused(c, 0), Dirent(child, Stored(name));
    StoredLen(name);
    var c' := WithEntry(c, k, de);
    LinkIsInsert(c, name, child, name);
    EntryAfter(c, k, de, k);
    forall i | 0 <= i < Count(c') && Entry(c', i).inum != 0
      ensures Entry(c', i).inum < NINODES && TypOf(disk', Entry(c', i).inum) != 0
    {
      EntryAfter(c, k, de, i);
    }
  }

  /** Sets the link count of a held inode and saves it. */
  method SaveNlink(fs: FileSystem, i: nat, nlink: int)
    requires fs.Valid() && i < NINODE && fs.islots[i].refcnt > 0 && I16(nlink)
    modifies fs, fs.bc
    ensures OnlyChanged(fs, i, old(fs.bc.disk), old(fs.islots))
    ensures 0 < old(fs.islots[i].inum) < NINODES
    ensures var j := old(fs.islots[i].inum);
            && NodeOf(fs.bc.disk, j) == NodeOf(old(fs.bc.disk), j).(nlink := nlink)
            && CurPtrs(fs.bc.disk, fs.islots, j) == CurPtrs(old(fs.bc.disk), old(fs.islots), j)
            && InSync(fs.bc.disk, fs.islots, j)
    ensures Room(fs.bc.disk) == Room(old(fs.bc.disk))
  {
    hide FileOk, Agrees, Kept, FilesOk, SlotsOk, DirsOk, HeldOk, Content, OthersSafe, DinodeOf, Grows, DirOk, Entry,
      CurAddrs, Ptrs, Room;
    ValidAt(fs, i);
    var ip := fs.Ilock(i);
    AgreesSavable(fs.bc.disk, ip);
    ghost var s1, disk, slots := fs.bc.slots, fs.bc.disk, fs.islots;
    assert DirFine(disk, ip.inum);
    var ip' := ip.(nlink := nlink);
    SameFile(fs.own, disk, ip, ip');
    Iupdate(fs.bc, ip', fs.own);
    TypsKept(fs.own, disk, fs.own, fs.bc.disk, ip, ip');
    SavedOnly(fs.own, disk, fs.bc.disk, ip);
    SavedAddrs(fs.bc.disk, ip');
    PutBack(fs, i, ip, ip', fs.own, disk, s1);
    PtrsKeptFrom(disk, old(fs.islots), slots, fs.bc.disk, fs.islots, ip.inum);
  }

  lemma SavedOnly(own: Owners, disk: Disk, disk': Disk, ip: Inode)
    requires FileOk(own, disk, ip) && forall b :: BMAPSTART <= b < FSSIZE ==> disk'[b] == disk[b]
    ensures Room(disk') == Room(disk) && Ptrs(disk', ip.addrs) == Ptrs(disk, ip.addrs)
  {
    hide OwnOk, Owns;
    RecordOnly(own, disk, disk', ip.inum, ip.addrs);
  }

  lemma SameFile(own: Owners, disk: Disk, ip: Inode, ip': Inode)
    requires FileOk(own, disk, ip) && ip' == ip.(nlink := ip'.nlink)
    ensures FileOk(own, disk, ip') && ip.size <= MAXBYTES && Bytes(disk, ip') == Bytes(disk, ip)
  {
  }

  /** inc_nlink. The caller must know that the count has room. */
  method IncNlink(fs: FileSystem, i: nat)
    requires fs.Valid() && i < NINODE && fs.islots[i].refcnt > 0
    requires fs.islots[i].inum < NINODES && OnDisk(fs.bc.disk, fs.islots[i].inum).nlink < 32767
    modifies fs, fs.bc
    ensures OnlyChanged(fs, i, old(fs.bc.disk), old(fs.islots))
    ensures 0 < old(fs.islots[i].inum) < NINODES
    ensures var j := old(fs.islots[i].inum);
            var was, now := NodeOf(old(fs.bc.disk), j), NodeOf(fs.bc.disk, j);
            && now == was.(nlink := was.nlink + 1)
            && CurPtrs(fs.bc.disk, fs.islots, j) == CurPtrs(old(fs.bc.disk), old(fs.islots), j)
            && InSync(fs.bc.disk, fs.islots, j)
    ensures Room(fs.bc.disk) == Room(old(fs.bc.disk))
  {
    hide Agrees, DinodeOf, Content, CurAddrs, Ptrs, Room;
    ValidAt(fs, i);
    var ip := fs.Ilock(i);
    AgreesSavable(fs.bc.disk, ip);
    ghost var disk, slots := fs.bc.disk, fs.islots;
    SaveNlink(fs, i, ip.nlink + 1);
    HeldTrans(old(fs.islots), slots, fs.islots);
    PtrsKeptFrom(disk, old(fs.islots), slots, fs.bc.disk, fs.islots, ip.inum);
  }

  lemma HeldTrans(a: seq<ISlot>, b: seq<ISlot>, c: seq<ISlot>)
    requires SameHeld(a, b) && SameHeld(b, c) && IRefs(a) == IRefs(b)
    ensures SameHeld(a, c)
  {
    forall i | 0 <= i < |a| && a[i].refcnt > 0 ensures c[i].inum == a[i].inum {
      assert IRefs(a)[i] == IRefs(b)[i];
    }
  }

  // ---- Allocating an inode ------------------------------------------------------------

  function NewDinode(typ: int): Dinode { Dinode(typ, 0, 0, 0, 0, NoAddrs()) }

  /** A record of an inode that did not exist becomes a new, empty inode. */
  lemma NewRecord(own: Owners, disk: Disk, slots: seq<ISlot>, j: nat, typ: int)
    requires FilesOk(own, disk) && SlotsOk(own, disk, slots) && DirsOk(disk) && HeldOk(disk, slots)
    requires 0 < j < NINODES && TypOf(disk, j) == 0 && (typ == T_DIR || typ == T_FILE)
    ensures Storable(NewDinode(typ))
    ensures var disk' := PutDinodeOf(disk, j, NewDinode(typ));
            && FilesOk(own, disk') && SlotsOk(own, disk', slots) && DirsOk(disk') && HeldOk(disk', slots)
            && NodesKept(disk, disk', j) && NodeOf(disk', j) == Node(typ, 0, [])
  {
    hide FileOk, DinodeOf, Content, Owns, Agrees, PutDinodeOf;
    var d := NewDinode(typ);
    assert Storable(d);
    var disk' := PutDinodeOf(disk, j, d);
    var ip := FromDinode(j, d);
    NoBlocks(disk, ip);
    assert Owns(own, disk, j, ip.addrs) by { FileOwns(own, disk, ip); }
    RecordSafe(own, disk, j, d, ip.addrs);
    assert OnDisk(disk', j) == ip;
    NoBlocks(disk', ip);
    forall k | 0 < k < NINODES && k != j
      ensures FileOk(own, disk', OnDisk(disk', k)) && OnDisk(disk', k) == OnDisk(disk, k)
      ensures OnDisk(disk, k).size <= MAXBYTES
      ensures Bytes(disk', OnDisk(disk, k)) == Bytes(disk, OnDisk(disk, k))
    {
      RecordKept(own, disk, own, disk', j, k);
      FileSize(own, disk, OnDisk(disk, k));
      OtherContent(own, disk, own, disk', j, OnDisk(disk, k));
    }
    ContentLen(disk', ip);
    FilesSized(own, disk);
    FilesSized(own, disk');
    assert DirFine(disk', j) by { EmptyDir(disk', j); }
    DirsAfter(disk, disk', j);
    forall i | 0 <= i < NINODE ensures SlotOk(own, disk', slots[i]) {
      NewRecordSlot(own, disk, disk', slots, i, j);
    }
    HeldNew(disk, disk', slots, j);
  }

  lemma FileOwns(own: Owners, disk: Disk, ip: Inode)
    requires FileOk(own, disk, ip)
    ensures Owns(own, disk, ip.inum, ip.addrs)
  {
  }

  lemma EmptyDir(disk: Disk, j: nat)
    requires 0 < j < NINODES && OnDisk(disk, j).size == 0
    ensures DirFine(disk, j)
  {
  }

  lemma NewRecordSlot(own: Owners, disk: Disk, disk': Disk, slots: seq<ISlot>, i: nat, j: nat)
    requires SlotsOk(own, disk, slots) && HeldOk(disk, slots) && i < NINODE && 0 < j < NINODES && TypOf(disk, j) == 0
    requires OthersSafe(own, disk, own, disk', j) && OwnOk(own, disk')
    ensures SlotOk(own, disk', slots[i])
  {
    hide FileOk, DinodeOf, Content, OthersSafe, Agrees;
    assert SlotOk(own, disk, slots[i]);
    if slots[i].refcnt > 0 {
      assert slots[i].inum != j;
      RecordKept(own, disk, own, disk', j, slots[i].inum);
      if slots[i].valid {
        AgreesInum(slots[i].ip, OnDisk(disk, slots[i].inum), disk, slots[i].inum);
        FileSize(own, disk, slots[i].ip);
        OtherContent(own, disk, own, disk', j, slots[i].ip);
      }
    }
  }

  lemma HeldNew(disk: Disk, disk': Disk, slots: seq<ISlot>, j: nat)
    requires HeldOk(disk, slots) && forall k :: 0 < k < NINODES && TypOf(disk, k) != 0 ==> TypOf(disk', k) != 0
    requires forall i :: 0 <= i < |slots| && slots[i].refcnt > 0 ==> slots[i].inum > 0
    ensures HeldOk(disk', slots)
  {
    hide TypOf;
  }

  /** ialloc: the first inode that does not exist yet, now existing and empty, and a
      reference to it. j is that inode, 0 if all exist; without a spare slot the inode
      stays allocated and nobody holds it. */
  method Ialloc(fs: FileSystem, typ: int) returns (r: Option<nat>, ghost j: nat)
    requires fs.Valid() && (typ == T_DIR || typ == T_FILE)
    modifies fs`islots, fs.bc
    ensures fs.Valid() && SameHeld(old(fs.islots), fs.islots) && Sized(old(fs.bc.disk)) && Sized(fs.bc.disk)
    ensures j == 0 ==>
      && r.None? && fs.bc.disk == old(fs.bc.disk) && forall k :: 0 < k < NINODES ==> TypOf(fs.bc.disk, k) != 0
    ensures j != 0 ==>
      && j < NINODES && TypOf(old(fs.bc.disk), j) == 0
      && NodesKept(old(fs.bc.disk), fs.bc.disk, j) && NodeOf(fs.bc.disk, j) == Node(typ, 0, [])
      && (forall k :: 0 < k < j ==> TypOf(old(fs.bc.disk), k) != 0)
      && PtrsKept(old(fs.bc.disk), old(fs.islots), fs.bc.disk, fs.islots, j)
      && CurPtrs(fs.bc.disk, fs.islots, j) == {} && InSync(fs.bc.disk, fs.islots, j)
    ensures Room(fs.bc.disk) == Room(old(fs.bc.disk))
    ensures r.None? ==> fs.islots == old(fs.islots)
    ensures r.Some? <==> j != 0 && Spare(IRefs(old(fs.islots))) > 0
    ensures r.Some? ==>
      && j != 0 && r.value < NINODE && fs.islots[r.value].inum == j
      && old(fs.islots[r.value].refcnt) == 0 && IRefs(fs.islots) == IRefs(old(fs.islots))[r.value := 1]
  {
    hide FilesOk, SlotsOk, DirsOk, HeldOk, Kept, NodesKept, DinodeOf, Content, NodeOf, PutDinodeOf, CurAddrs, Ptrs,
      Room, SlotFor;
    FilesSized(fs.own, fs.bc.disk);
    j := 0;
    for inum := 1 to NINODES
      invariant fs.Valid() && fs.islots == old(fs.islots) && fs.bc.disk == old(fs.bc.disk)
      invariant forall k :: 0 < k < inum ==> TypOf(fs.bc.disk, k) != 0
    {
      ghost var s1 := fs.bc.slots;
      var d := ReadDinode(fs.bc, inum);
      KeptSpare(s1, fs.bc.slots);
      if d.typ == 0 {
        NewRecord(fs.own, fs.bc.disk, fs.islots, inum, typ);
        ghost var s2 := fs.bc.slots;
        WriteDinode(fs.bc, inum, NewDinode(typ));
        KeptSpare(s2, fs.bc.slots);
        j := inum;
        FilesSized(fs.own, fs.bc.disk);
        NewTyp(fs.bc.disk, j, typ);
        Unheld(old(fs.bc.disk), fs.islots, j);
        SlotCount(fs.own, fs.bc.disk, fs.islots);
        NewPtrs(fs.own, old(fs.bc.disk), fs.islots, j, typ);
        UnheldSlot(fs.islots, j);
        r := fs.Iget(inum);
        PtrsKeptTo(old(fs.bc.disk), old(fs.islots), fs.bc.disk, old(fs.islots), fs.islots, j);
        return;
      }
    }
    return None, 0;
  }

  lemma PtrsKeptTo(disk: Disk, slots: seq<ISlot>, disk': Disk, slots1: seq<ISlot>, slots': seq<ISlot>, j: nat)
    requires PtrsKept(disk, slots, disk', slots1, j) && CurKept(disk', slots1, slots')
    ensures PtrsKept(disk, slots, disk', slots', j)
    ensures j < NINODES ==>
      CurPtrs(disk', slots', j) == CurPtrs(disk', slots1, j) && InSync(disk', slots', j) == InSync(disk', slots1, j)
  {
    hide CurAddrs, Ptrs, OnDisk;
    forall k | 0 < k < NINODES && k != j ensures PtrsSame(disk, slots, disk', slots', k) {
      assert PtrsSame(disk, slots, disk', slots1, k);
    }
  }

  lemma UnheldSlot(slots: seq<ISlot>, j: nat)
    requires forall i :: 0 <= i < |slots| && slots[i].refcnt > 0 ==> slots[i].inum != j
    ensures SlotFor(slots, j) <==> Spare(IRefs(slots)) > 0
  {
  }

  /** A new record takes no block, has no pointer, and is nobody else's. */
  lemma NewPtrs(own: Owners, disk: Disk, slots: seq<ISlot>, j: nat, typ: int)
    requires FilesOk(own, disk) && SlotsOk(own, disk, slots) && HeldOk(disk, slots) && 0 < j < NINODES
    requires TypOf(disk, j) == 0
    requires typ == T_DIR || typ == T_FILE
    ensures Storable(NewDinode(typ))
    ensures var disk' := PutDinodeOf(disk, j, NewDinode(typ));
            && Room(disk') == Room(disk) && PtrsKept(disk, slots, disk', slots, j)
            && CurPtrs(disk', slots, j) == {} && InSync(disk', slots, j)
  {
    hide FileOk, DinodeOf, Owns, Agrees, PutDinodeOf, CurAddrs, OwnOk, SlotsOk, HeldOk, Ptrs, Room, FilesOk;
    var d := NewDinode(typ);
    assert Storable(d);
    var disk', ip := PutDinodeOf(disk, j, d), FromDinode(j, d);
    FilesOwn(own, disk);
    NoBlocks(disk, ip);
    FileOwns(own, disk, ip);
    RecordSafe(own, disk, j, d, ip.addrs);
    PutElsewhere(disk, j, d);
    RecordOnly(own, disk, disk', j, ip.addrs);
    forall k | 0 < k < NINODES && k != j ensures PtrsSame(disk, slots, disk', slots, k) {
      RecordKept(own, disk, own, disk', j, k);
      CurOwns(own, disk, slots, k);
      SameCur(disk, disk', slots, k);
      SamePtrs(own, disk, own, disk', j, k, CurAddrs(disk, slots, k));
    }
    Unheld(disk, slots, j);
    FreshCur(disk', slots, j, typ);
  }

  lemma SameCur(disk: Disk, disk': Disk, slots: seq<ISlot>, k: nat)
    requires k < NINODES && OnDisk(disk', k) == OnDisk(disk, k)
    ensures CurAddrs(disk', slots, k) == CurAddrs(disk, slots, k)
  {
    hide OnDisk;
  }

  lemma FreshCur(disk: Disk, slots: seq<ISlot>, j: nat, typ: int)
    requires j < NINODES && DinodeOf(disk, j) == NewDinode(typ)
    requires forall i :: 0 <= i < |slots| && slots[i].refcnt > 0 ==> slots[i].inum != j
    ensures CurPtrs(disk, slots, j) == {} && InSync(disk, slots, j)
  {
    hide DinodeOf;
    assert forall i: nat :: !Cached(slots, j, i);
    assert CurAddrs(disk, slots, j) == NoAddrs();
  }

  lemma PutElsewhere(disk: Disk, j: nat, d: Dinode)
    requires j < NINODES && Storable(d)
    ensures forall b :: BMAPSTART <= b < FSSIZE ==> PutDinodeOf(disk, j, d)[b] == disk[b]
    ensures DinodeOf(PutDinodeOf(disk, j, d), j) == d
  {
    DinodePut(disk, j, d, j);
  }

  lemma NewTyp(disk: Disk, j: nat, typ: int)
    requires 0 < j < NINODES && Sized(disk) && NodeOf(disk, j) == Node(typ, 0, [])
    ensures TypOf(disk, j) == typ
  {
    hide DinodeOf;
  }

  lemma Unheld(disk: Disk, slots: seq<ISlot>, j: nat)
    requires HeldOk(disk, slots) && j < NINODES && TypOf(disk, j) == 0
    ensures forall i :: 0 <= i < |slots| && slots[i].refcnt > 0 ==> slots[i].inum != j
  {
    hide TypOf;
  }

  lemma SlotCount(own: Owners, disk: Disk, slots: seq<ISlot>)
    requires SlotsOk(own, disk, slots)
    ensures |slots| == NINODE
  {
  }
}
