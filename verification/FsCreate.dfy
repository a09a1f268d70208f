/** create and mkdir by path: the new name resolves to the new inode, every path that
    led somewhere still leads there, and link counts stay right. */
module FsCreate {
  import opened Prelude
  import opened FsLayout
  import opened BufferCache
  import opened BlockAlloc
  import opened BlockMap
  import opened InodeStore
  import opened FileIo
  import opened Directory
  import opened Inodes
  import opened FsOps
  import opened Paths
  import opened LinkGraph
  import opened FsTree

  const T_DEVICE := 3

  /** inode_type says File. */
  predicate IsFile(typ: int) { typ != T_DIR && typ != T_DEVICE }

  // ---- Paths survive ---------------------------------------------------------------

  ghost predicate ChildrenKept(disk: Disk, disk': Disk)
    requires Sized(disk) && Sized(disk')
  {
    forall d, name :: 0 < d < NINODES && Child(disk, d, name).Some? ==> Child(disk', d, name) == Child(disk, d, name)
  }

  /** Every path that led somewhere leads there still. */
  ghost predicate PathsKept(disk: Disk, disk': Disk)
    requires Sized(disk) && Sized(disk')
  {
    forall j: nat, names :: Walk(disk, j, names).Some? ==> Walk(disk', j, names) == Walk(disk, j, names)
  }

  lemma {:induction false} WalkKept(disk: Disk, disk': Disk, j: nat, names: seq<seq<Byte>>)
    requires Sized(disk) && Sized(disk') && ChildrenKept(disk, disk') && Walk(disk, j, names).Some?
    ensures Walk(disk', j, names) == Walk(disk, j, names)
    decreases |names|
  {
    hide Child;
    if names != [] {
      WalkKept(disk, disk', Child(disk, j, names[0]).value, names[1..]);
    }
  }

  lemma AllWalksKept(disk: Disk, disk': Disk)
    requires Sized(disk) && Sized(disk') && ChildrenKept(disk, disk')
    ensures PathsKept(disk, disk')
  {
    hide ChildrenKept, Walk;
    forall j: nat, names | Walk(disk, j, names).Some? ensures Walk(disk', j, names) == Walk(disk, j, names) {
      WalkKept(disk, disk', j, names);
    }
  }

  /** Types and bytes of w are those of v, but for a new inode j and an entry for it
      in q. */
  ghost predicate GotChild(v: View, w: View, q: nat, name: seq<Byte>, j: nat) {
    && q < NINODES && 0 < j < NINODES && q != j && v[j].typ == 0 && Takes(v, q, name)
    && w[q].typ == T_DIR && w[q].bytes == WithEntry(v[q].bytes, FirstUnused(v[q].bytes, 0), Dirent(j, Stored(name)))
    && forall d :: 0 <= d < NINODES && d != q && d != j ==> w[d] == v[d]
  }

  lemma {:induction false} FindStored(c: seq<Byte>, name: seq<Byte>, other: seq<Byte>, i: nat)
    requires Stored(name) == Stored(other) && i <= Count(c)
    ensures Find(c, name, i) == Find(c, other, i)
    decreases Count(c) - i
  {
    if i < Count(c) {
      FindStored(c, name, other, i + 1);
    }
  }

  lemma LookupStored(c: seq<Byte>, name: seq<Byte>, other: seq<Byte>)
    requires Stored(name) == Stored(other)
    ensures Lookup(c, name) == Lookup(c, other)
  {
    FindStored(c, name, other, 0);
  }

  lemma GotChildKeeps(disk: Disk, disk': Disk, q: nat, name: seq<Byte>, j: nat)
    requires Sized(disk) && Sized(disk') && DirsOk(disk) && 0 < q < NINODES
    requires GotChild(ViewOf(disk), ViewOf(disk'), q, name, j)
    ensures ChildrenKept(disk, disk') && Child(disk', q, name) == Some(j)
  {
    hide Content, DinodeOf, WithEntry, FirstUnused, Lookup, Stored, Entry, ViewOf;
    var v, w := ViewOf(disk), ViewOf(disk');
    var c := v[q].bytes;
    assert DirFine(disk, q);
    LinkIsInsert(c, name, j, name);
    forall d, other | 0 < d < NINODES && Child(disk, d, other).Some?
      ensures Child(disk', d, other) == Child(disk, d, other)
    {
      assert v[d] == NodeOf(disk, d) && w[d] == NodeOf(disk', d);
      if d == q {
        LinkIsInsert(c, name, j, other);
        if Stored(other) == Stored(name) { LookupStored(c, name, other); }
      }
    }
  }

  lemma OrphanKeeps(disk: Disk, disk': Disk, j: nat)
    requires Sized(disk) && Sized(disk') && (ViewOf(disk') == ViewOf(disk) || Orphaned(ViewOf(disk), ViewOf(disk'), j))
    ensures ChildrenKept(disk, disk')
  {
    hide NodeOf, ViewOf, GraphOf, Lookup;
    forall d, other | 0 < d < NINODES && Child(disk, d, other).Some?
      ensures Child(disk', d, other) == Child(disk, d, other)
    {
      assert ViewOf(disk)[d] == NodeOf(disk, d) && ViewOf(disk')[d] == NodeOf(disk', d);
    }
  }

  lemma NewFileGot(v: View, q: nat, name: seq<Byte>, j: nat)
    requires q < NINODES && 0 < j < NINODES && v[j].typ == 0 && Takes(v, q, name)
    ensures GotChild(v, NewFile(v, q, name, j), q, name, j)
  {
    hide WithEntry, FirstUnused, Lookup, Stored;
  }

  lemma NewDirGot(v: View, q: nat, name: seq<Byte>, j: nat)
    requires q < NINODES && 0 < j < NINODES && v[j].typ == 0 && Takes(v, q, name)
    ensures GotChild(v, NewDir(v, q, name, j), q, name, j)
  {
    hide WithEntry, FirstUnused, Lookup, Stored, NewDirBytes;
  }

  // ---- The operations --------------------------------------------------------------

  /** A new inode j named in q: it is the first that did not exist, has no pointers and takes no
      block; the entry takes what it costs; all other inodes have the pointers they had. */
  ghost predicate Booked(disk: Disk, slots: seq<ISlot>, disk': Disk, slots': seq<ISlot>, q: nat, j: nat)
    requires 0 < q < NINODES && 0 < j < NINODES && Sized(disk)
  {
    && (forall k :: 0 < k < j ==> ViewOf(disk)[k].typ != 0)
    && (forall k :: 0 < k < NINODES && k != q && k != j ==> PtrsSame(disk, slots, disk', slots', k))
    && CurPtrs(disk', slots', j) == {} && InSync(disk', slots', j) && InSync(disk', slots', q)
    && CurPtrs(disk', slots', q) == EntryWay(ViewOf(disk)[q].bytes, CurPtrs(disk, slots, q))
    && Room(disk') + EntryCost(ViewOf(disk)[q].bytes, CurPtrs(disk, slots, q)) == Room(disk)
  }

  lemma BookedNew(disk: Disk, slots: seq<ISlot>, disk1: Disk, slots1: seq<ISlot>, disk2: Disk, slots2: seq<ISlot>,
                  q: nat, j: nat)
    requires 0 < q < NINODES && 0 < j < NINODES && q != j && Sized(disk) && Sized(disk1)
    requires forall k :: 0 < k < j ==> TypOf(disk, k) != 0
    requires PtrsKept(disk, slots, disk1, slots1, j) && CurPtrs(disk1, slots1, j) == {} && InSync(disk1, slots1, j)
    requires Room(disk1) == Room(disk) && ViewOf(disk1)[q] == ViewOf(disk)[q]
    requires PtrsKept(disk1, slots1, disk2, slots2, q)
    requires InSync(disk2, slots2, q)
    requires CurPtrs(disk2, slots2, q) == EntryWay(ViewOf(disk1)[q].bytes, CurPtrs(disk1, slots1, q))
    requires Room(disk2) + EntryCost(ViewOf(disk1)[q].bytes, CurPtrs(disk1, slots1, q)) == Room(disk1)
    ensures Booked(disk, slots, disk2, slots2, q, j)
  {
    hide CurPtrs, InSync, Room, EntryWay, EntryCost, NodeOf, TypOf;
    assert PtrsSame(disk, slots, disk1, slots1, q) && PtrsSame(disk1, slots1, disk2, slots2, j);
    forall k | 0 < k < NINODES && k != q && k != j ensures PtrsSame(disk, slots, disk2, slots2, k) {
      assert PtrsSame(disk, slots, disk1, slots1, k) && PtrsSame(disk1, slots1, disk2, slots2, k);
    }
    forall k | 0 < k < j ensures ViewOf(disk)[k].typ != 0 { NodeTyp(disk, k); }
  }

  /** Reading before and dropping references after does not matter. */
  lemma BookedAround(disk: Disk, slots: seq<ISlot>, slots1: seq<ISlot>, disk': Disk, slots2: seq<ISlot>,
                     slots3: seq<ISlot>, q: nat, j: nat)
    requires 0 < q < NINODES && 0 < j < NINODES && Sized(disk)
    requires CurKept(disk, slots, slots1) && Booked(disk, slots1, disk', slots2, q, j) && CurKept(disk', slots2, slots3)
    ensures Booked(disk, slots, disk', slots3, q, j)
  {
    hide CurAddrs, Ptrs, OnDisk, Room, EntryWay, EntryCost, ViewOf;
    forall k | 0 < k < NINODES && k != q && k != j ensures PtrsSame(disk, slots, disk', slots3, k) {
      assert PtrsSame(disk, slots1, disk', slots2, k);
    }
  }

  lemma BookedSync(disk: Disk, slots: seq<ISlot>, disk': Disk, slots': seq<ISlot>, q: nat, j: nat)
    requires 0 < q < NINODES && 0 < j < NINODES && Sized(disk) && Booked(disk, slots, disk', slots', q, j)
    ensures InSync(disk', slots', q)
  {
  }

  /** A saved inode may be dropped. */
  lemma SyncDrop(own: Owners, disk: Disk, slots: seq<ISlot>, p: nat)
    requires SlotsOk(own, disk, slots) && p < NINODE && slots[p].refcnt > 0 && slots[p].inum < NINODES
    requires InSync(disk, slots, slots[p].inum)
    ensures DropSafe(disk, slots[p])
  {
    hide SlotsOk, OnDisk, CurAddrs;
    CurAt(own, disk, slots, p);
  }

  method CreateEmptyFile(fs: FileSystem, p: nat, name: seq<Byte>) returns (r: Option<nat>, ghost j: nat)
    requires fs.Valid() && Sized(fs.bc.disk) && TreeOk(ViewOf(fs.bc.disk)) && p < NINODE && fs.islots[p].refcnt > 0
    modifies fs, fs.bc
    ensures fs.Valid() && Sized(fs.bc.disk) && TreeOk(ViewOf(fs.bc.disk)) && SameHeld(old(fs.islots), fs.islots)
    ensures 0 < old(fs.islots[p].inum) < NINODES
    ensures r.None? ==>
      && IRefs(fs.islots) == IRefs(old(fs.islots)) && GaveUp(ViewOf(old(fs.bc.disk)), ViewOf(fs.bc.disk), j)
      && Blocked(ViewOf(old(fs.bc.disk)), old(fs.islots[p].inum), name, IRefs(old(fs.islots)), fs.bc.disk)
    ensures var q := old(fs.islots[p].inum);
            r.Some? <==>
              CanMake(ViewOf(old(fs.bc.disk)), q, name, CurPtrs(old(fs.bc.disk), old(fs.islots), q),
                      Room(old(fs.bc.disk)), Spare(IRefs(old(fs.islots))), 0)
    ensures r.Some? ==>
      var q, v := old(fs.islots[p].inum), ViewOf(old(fs.bc.disk));
      && r.value < NINODE && 0 < j < NINODES && fs.islots[r.value].inum == j && v[j].typ == 0 && Takes(v, q, name)
      && IRefs(fs.islots) == IRefs(old(fs.islots))[r.value := 1] && old(fs.islots[r.value].refcnt) == 0
      && ViewOf(fs.bc.disk) == NewFile(v, q, name, j)
      && Booked(old(fs.bc.disk), old(fs.islots), fs.bc.disk, fs.islots, q, j)
  {
    hide FilesOk, DirsOk, HeldOk, SlotsOk, DinodeOf, ViewOf, Takes, NodeOf, TreeOk, NodesKept, Cache.Ready, Orphaned,
      Entered,
      SameHeld, IRefs, BlockAlloc.Full, NoInode, NoRoom, Spare, CurPtrs, Room, EntryCost, EntryWay, PtrsKept,
      Booked, InSync;
    SlotRange(fs.own, fs.bc.disk, fs.islots, p);
    ghost var disk, slots, q := fs.bc.disk, fs.islots, fs.islots[p].inum;
    ghost var v := ViewOf(disk);
    r, j := Ialloc(fs, T_FILE);
    if j != 0 {
      BornView(disk, fs.bc.disk, j, T_FILE);
      OrphanTree(v, ViewOf(fs.bc.disk), j);
      SomeInode(v, j);
    } else {
      AllExist(disk);
    }
    if r.None? {
      return;
    }
    ghost var slots1, v1, disk1 := fs.islots, ViewOf(fs.bc.disk), fs.bc.disk;
    NewSlot(slots, slots1, r.value, p);
    SlotsDiffer(fs.own, fs.bc.disk, slots1, r.value, p);
    RoomFor(v, v1, j, j);
    RoomFor(v, v1, j, q);
    PtrsAt(disk, slots, disk1, slots1, j, q);
    var ok := LinkNew(fs, r.value, p, name, false);
    assert v1[q] == v[q];
    SameCanEnter(v, v1, q, name, CurPtrs(disk1, slots1, q), Room(disk1));
    SameDir(v, v1, q, name);
    HeldGrow(slots, slots1, fs.islots, r.value);
    SlotsStay(slots1, fs.islots, r.value);
    if !ok {
      ghost var slots2 := fs.islots;
      fs.Iput(r.value);
      HeldTrans(slots1, slots2, fs.islots);
      HeldGrow(slots, slots1, fs.islots, r.value);
      RefsBack(slots, slots1, fs.islots, r.value);
      return None, j;
    }
    TakesDir(v, q, name);
    BookedNew(disk, slots, disk1, slots1, fs.bc.disk, fs.islots, q, j);
    NewFileTree(v, q, name, j);
  }

  /** Slots that `refs` counts as held stand for the same inodes. */
  ghost predicate StillHeld(refs: seq<nat>, slots: seq<ISlot>, slots': seq<ISlot>) {
    |slots| == |slots'| == |refs| && forall k :: 0 <= k < |refs| && refs[k] > 0 ==> slots'[k].inum == slots[k].inum
  }

  lemma StillHeldNext(refs: seq<nat>, slots: seq<ISlot>, slots1: seq<ISlot>, slots2: seq<ISlot>)
    requires StillHeld(refs, slots, slots1) && SameHeld(slots1, slots2)
    requires forall k :: 0 <= k < |refs| && refs[k] > 0 ==> IRefs(slots1)[k] > 0
    ensures StillHeld(refs, slots, slots2)
  {
    forall k | 0 <= k < |refs| && refs[k] > 0 ensures slots2[k].inum == slots[k].inum {
      assert IRefs(slots1)[k] > 0;
    }
  }

  /** Dropping the reference to p that a walk ended with. */
  lemma DropParent(refs: seq<nat>, slots1: seq<ISlot>, slots2: seq<ISlot>, p: nat)
    requires |refs| == |slots1| == |slots2| && p < |refs| && IRefs(slots1) == Plus(refs, p)
    requires IRefs(slots2) == IRefs(slots1)[p := slots1[p].refcnt - 1]
    ensures IRefs(slots2) == refs
  {
  }

  /** A reference to an existing child, if it is a file. */
  method OpenChild(fs: FileSystem, k: nat) returns (r: Option<nat>)
    requires fs.Valid() && 0 < k < NINODES && TypOf(fs.bc.disk, k) != 0
    modifies fs`islots, fs.bc`slots
    ensures fs.Valid() && |fs.islots| == NINODE == |old(fs.islots)|
    ensures StillHeld(IRefs(old(fs.islots)), old(fs.islots), fs.islots)
    ensures r.None? ==> IRefs(fs.islots) == IRefs(old(fs.islots))
    ensures r.Some? <==> IsFile(TypOf(fs.bc.disk, k)) && SlotFor(old(fs.islots), k)
    ensures r.Some? ==>
      && r.value < NINODE && IRefs(fs.islots) == Plus(IRefs(old(fs.islots)), r.value)
      && fs.islots[r.value].inum == k && IsFile(TypOf(fs.bc.disk, k))
  {
    hide FilesOk, DirsOk, HeldOk, SlotOk, Spare, DinodeOf, Agrees, FileOk, Content, SlotFor, CurKept, Clean;
    ghost var slots := fs.islots;
    r := fs.Iget(k);
    if r.None? {
      return;
    }
    ghost var slots1 := fs.islots;
    assert fs.islots[r.value].refcnt == IRefs(fs.islots)[r.value];
    var ip := fs.Ilock(r.value);
    AgreesSavable(fs.bc.disk, ip);
    ghost var slots2 := fs.islots;
    StillHeldNext(IRefs(slots), slots, slots1, slots2);
    assert fs.islots[r.value].refcnt == IRefs(fs.islots)[r.value];
    if !IsFile(ip.typ) {
      fs.Iput(r.value);
      StillHeldNext(IRefs(slots), slots, slots2, fs.islots);
      assert IRefs(fs.islots) == IRefs(slots);
      return None;
    }
  }

  /** Slots left for a new inode while one at q is held on top of `slots`. */
  ghost function SpareAt(slots: seq<ISlot>, q: nat): int { Spare(IRefs(slots)) - if HeldNow(slots, q) then 0 else 1 }

  lemma SpareSeen(own: Owners, disk: Disk, slots: seq<ISlot>, cur: seq<ISlot>, i: nat)
    requires SlotsOk(own, disk, cur) && SameHeld(slots, cur) && i < |slots| && IRefs(cur) == Plus(IRefs(slots), i)
    ensures SpareAt(slots, cur[i].inum) == Spare(IRefs(cur))
  {
    hide Spare, SlotOk;
    var c := cur[i].inum;
    SpareTaken(IRefs(slots), i);
    forall n | 0 <= n < |slots| ensures cur[n].refcnt == Plus(IRefs(slots),
      i)[n] { assert IRefs(cur)[n] == cur[n].refcnt; }
    assert HeldNow(slots, c) <==> slots[i].refcnt > 0 by {
      if HeldNow(slots, c) {
        var n :| 0 <= n < |slots| && slots[n].refcnt > 0 && slots[n].inum == c;
        assert cur[n].refcnt > 0 && cur[n].inum == c;
      }
    }
  }

  /** Slots that are held as at first. */
  lemma SlotForBack(slots: seq<ISlot>, slots': seq<ISlot>, k: nat)
    requires |slots'| == |slots| && IRefs(slots') == IRefs(slots)
    requires forall n :: 0 <= n < |slots| && slots[n].refcnt > 0 ==> slots'[n].inum == slots[n].inum
    ensures SlotFor(slots', k) <==> SlotFor(slots, k)
  {
    forall n | 0 <= n < |slots| ensures slots'[n].refcnt == slots[n].refcnt {
      assert IRefs(slots')[n] == IRefs(slots)[n];
    }
  }

  lemma CurPtrsSame(disk: Disk, slots: seq<ISlot>, slots': seq<ISlot>, q: nat)
    requires CurKept(disk, slots, slots') && q < NINODES
    ensures CurPtrs(disk, slots', q) == CurPtrs(disk, slots, q)
  {
    hide CurAddrs, Ptrs;
  }

  lemma MovedToChild(refs: seq<nat>, slots1: seq<ISlot>, slots2: seq<ISlot>, slots3: seq<ISlot>, p: nat, i: nat)
    requires |refs| == |slots1| == |slots2| == |slots3| && p < |refs| && i < |refs| && slots1[i].refcnt == 0
    requires IRefs(slots1) == Plus(refs, p) && IRefs(slots2) == IRefs(slots1)[i := 1]
    requires slots2[p].refcnt > 0 && IRefs(slots3) == IRefs(slots2)[p := slots2[p].refcnt - 1]
    ensures IRefs(slots3) == Plus(refs, i) && i != p
  {
    assert IRefs(slots1)[i] == 0;
  }

  lemma PlusHolds(refs: seq<nat>, slots: seq<ISlot>, p: nat)
    requires p < |refs| == |slots| && IRefs(slots) == Plus(refs, p)
    ensures forall k :: 0 <= k < |refs| && refs[k] > 0 ==> IRefs(slots)[k] > 0
    ensures slots[p].refcnt > 0
  {
    assert IRefs(slots)[p] > 0;
  }

  /** create once the parent directory is found: it holds a reference to slot p, which
      it gives back. */
  method CreateAt(fs: FileSystem, p: nat, name: seq<Byte>, ghost base: seq<ISlot>,
                  ghost refs: seq<nat>) returns (r: Option<nat>, ghost j: nat)
    requires fs.Valid() && Sized(fs.bc.disk) && TreeOk(ViewOf(fs.bc.disk)) && p < NINODE
    requires |refs| == NINODE == |fs.islots| && IRefs(fs.islots) == Plus(refs, p)
    requires refs == IRefs(base) && SameHeld(base, fs.islots)
    modifies fs, fs.bc
    ensures fs.Valid() && Sized(fs.bc.disk) && TreeOk(ViewOf(fs.bc.disk)) && StillHeld(refs, old(fs.islots), fs.islots)
    ensures ChildrenKept(old(fs.bc.disk), fs.bc.disk) && 0 < old(fs.islots[p].inum) < NINODES
    ensures var q, v := old(fs.islots[p].inum), ViewOf(old(fs.bc.disk));
            if r.None? then
              && IRefs(fs.islots) == refs
              && if Child(old(fs.bc.disk), q, name).Some? then ViewOf(fs.bc.disk) == v else GaveUp(v,
                ViewOf(fs.bc.disk), j)
            else
              && r.value < NINODE && IRefs(fs.islots) == Plus(refs, r.value)
              && Child(fs.bc.disk, q, name) == Some(fs.islots[r.value].inum)
              && fs.islots[r.value].inum < NINODES && IsFile(TypOf(fs.bc.disk, fs.islots[r.value].inum))
              && (fs.bc.disk == old(fs.bc.disk) ||
                  (0 < j < NINODES && v[j].typ == 0 && ViewOf(fs.bc.disk) == NewFile(v, q, name, j)
                   && fs.islots[r.value].inum == j
                   && Booked(old(fs.bc.disk), old(fs.islots), fs.bc.disk, fs.islots, q, j)))
    ensures var q, v := old(fs.islots[p].inum), ViewOf(old(fs.bc.disk));
            r.Some? <==> match Child(old(fs.bc.disk), q, name)
              case Some(k) => k < NINODES && IsFile(TypOf(old(fs.bc.disk), k)) && SlotFor(base, k)
              case None =>
                && SpareAt(base, q) > 0
                && CanMake(v, q, name, CurPtrs(old(fs.bc.disk), old(fs.islots), q), Room(old(fs.bc.disk)),
                  SpareAt(base, q), 0)
  {
    hide FilesOk, DirsOk, HeldOk, SlotsOk, DinodeOf, ViewOf, Takes, NodeOf, TreeOk, NodesKept, Cache.Ready, Orphaned,
      NewFile,
      SameHeld, IRefs, BlockAlloc.Full, NoInode, NoRoom, Spare, ChildrenKept, Child, Plus, GotChild, Blocked, CurPtrs,
        Room, SlotFor,
      CurKept, Clean, CanEnter, SpareAt, Booked, InSync, DropSafe;
    ghost var disk, slots := fs.bc.disk, fs.islots;
    PlusHolds(refs, slots, p);
    SlotRange(fs.own, disk, slots, p);
    SpareSeen(fs.own, disk, base, slots, p);
    ghost var q, v := slots[p].inum, ViewOf(disk);
    j := 0;
    OrphanKeeps(disk, disk, j);
    HeldSelf(refs, slots);
    var existing := LookupIn(fs, p, name);
    ghost var slots1 := fs.islots;
    HeldLen(slots, slots1);
    InumOf(slots, slots1, p);
    StillHeldNext(refs, slots, slots, slots1);
    PlusHolds(refs, slots1, p);
    CurPtrsSame(disk, slots, slots1, q);
    if existing.Some? {
      fs.Iput(p);
      ghost var slots2 := fs.islots;
      HeldLen(slots1, slots2);
      StillHeldNext(refs, slots, slots1, slots2);
      DropParent(refs, slots1, slots2, p);
      BaseHeld(base, slots, slots2);
      SlotForBack(base, slots2, existing.value);
      r := OpenChild(fs, existing.value);
      HeldOn(refs, slots, slots2, fs.islots);
      return;
    }
    r, j := CreateEmptyFile(fs, p, name);
    ghost var slots2 := fs.islots;
    HeldLen(slots1, slots2);
    StillHeldNext(refs, slots, slots1, slots2);
    NewRefs(refs, slots1, slots2, p, r);
    if r.Some? {
      InumOf(slots1, slots2, p);
      assert InSync(fs.bc.disk, slots2, q) by { BookedSync(disk, slots1, fs.bc.disk, slots2, q, j); }
      SyncDrop(fs.own, fs.bc.disk, slots2, p);
    }
    fs.Iput(p);
    HeldLen(slots2, fs.islots);
    StillHeldNext(refs, slots, slots2, fs.islots);
    if r.None? {
      DropParent(refs, slots2, fs.islots, p);
      OrphanKeeps(disk, fs.bc.disk, j);
    } else {
      MovedToChild(refs, slots1, slots2, fs.islots, p, r.value);
      BookedAround(disk, slots, slots1, fs.bc.disk, slots2, fs.islots, q, j);
      NewFileGot(v, q, name, j);
      GotChildKeeps(disk, fs.bc.disk, q, name, j);
      NewFileTyp(v, q, name, j);
      NodeTyp(fs.bc.disk, j);
      InumOf(slots2, fs.islots, r.value);
    }
  }

  lemma BaseHeld(base: seq<ISlot>, slots: seq<ISlot>, slots': seq<ISlot>)
    requires SameHeld(base, slots) && StillHeld(IRefs(base), slots, slots')
    ensures |slots'| == |base| && forall n :: 0 <= n < |base| && base[n].refcnt > 0 ==> slots'[n].inum == base[n].inum
  {
    forall n | 0 <= n < |base| && base[n].refcnt > 0 ensures slots'[n].inum == base[n].inum {
      assert IRefs(base)[n] > 0;
    }
  }

  lemma HeldSelf(refs: seq<nat>, slots: seq<ISlot>)
    requires |refs| == |slots|
    ensures StillHeld(refs, slots, slots)
  {
  }

  lemma HeldLen(slots: seq<ISlot>, slots': seq<ISlot>)
    requires SameHeld(slots, slots')
    ensures |slots'| == |slots|
  {
  }

  lemma HeldOn(refs: seq<nat>, slots: seq<ISlot>, slots1: seq<ISlot>, slots2: seq<ISlot>)
    requires StillHeld(refs, slots, slots1) && StillHeld(refs, slots1, slots2)
    ensures StillHeld(refs, slots, slots2)
  {
  }

  lemma NewRefs(refs: seq<nat>, slots1: seq<ISlot>, slots2: seq<ISlot>, p: nat, r: Option<nat>)
    requires |refs| == |slots1| == |slots2| && p < |refs| && IRefs(slots1) == Plus(refs, p)
    requires r.None? ==> IRefs(slots2) == IRefs(slots1)
    requires r.Some? ==> r.value < |refs| && IRefs(slots2) == IRefs(slots1)[r.value := 1]
    ensures slots2[p].refcnt > 0 && forall k :: 0 <= k < |refs| && refs[k] > 0 ==> IRefs(slots2)[k] > 0
  {
    PlusHolds(refs, slots1, p);
    assert slots2[p].refcnt == IRefs(slots2)[p];
  }

  lemma NewFileTyp(v: View, q: nat, name: seq<Byte>, j: nat)
    requires q < NINODES && 0 < j < NINODES && v[j].typ == 0 && Takes(v, q, name)
    ensures NewFile(v, q, name, j)[j].typ == T_FILE
  {
  }

  lemma InumOf(slots: seq<ISlot>, slots': seq<ISlot>, i: nat)
    requires SameHeld(slots, slots') && i < |slots| && slots[i].refcnt > 0
    ensures slots'[i].inum == slots[i].inum
  {
  }

  /** mkdir once the parent directory is found. */
  method MkdirAt(fs: FileSystem, p: nat, name: seq<Byte>, ghost base: seq<ISlot>,
                 ghost refs: seq<nat>) returns (r: Option<nat>, ghost j: nat)
    requires fs.Valid() && Sized(fs.bc.disk) && TreeOk(ViewOf(fs.bc.disk)) && p < NINODE
    requires |refs| == NINODE == |fs.islots| && IRefs(fs.islots) == Plus(refs, p)
    requires refs == IRefs(base) && SameHeld(base, fs.islots)
    modifies fs, fs.bc
    ensures fs.Valid() && Sized(fs.bc.disk) && TreeOk(ViewOf(fs.bc.disk)) && StillHeld(refs, old(fs.islots), fs.islots)
    ensures ChildrenKept(old(fs.bc.disk), fs.bc.disk) && 0 < old(fs.islots[p].inum) < NINODES
    ensures var q, v := old(fs.islots[p].inum), ViewOf(old(fs.bc.disk));
            if r.None? then
              && IRefs(fs.islots) == refs
              && if Child(old(fs.bc.disk), q, name).Some? then ViewOf(fs.bc.disk) == v else GaveUp(v,
                ViewOf(fs.bc.disk), j)
            else
              && r.value < NINODE && IRefs(fs.islots) == Plus(refs, r.value) && fs.islots[r.value].inum == j
              && Child(old(fs.bc.disk), q, name) == None && Child(fs.bc.disk, q, name) == Some(j)
              && 0 < j < NINODES && v[j].typ == 0 && ViewOf(fs.bc.disk) == NewDir(v, q, name, j)
    ensures var q, v := old(fs.islots[p].inum), ViewOf(old(fs.bc.disk));
            r.Some? <==>
              && Child(old(fs.bc.disk), q, name) == None && SpareAt(base, q) > 0
              && CanMake(v, q, name, CurPtrs(old(fs.bc.disk), old(fs.islots), q), Room(old(fs.bc.disk)),
                SpareAt(base, q), 1)
  {
    hide FilesOk, DirsOk, HeldOk, SlotsOk, DinodeOf, ViewOf, Takes, NodeOf, TreeOk, NodesKept, Cache.Ready, Orphaned,
      NewDir,
      SameHeld, IRefs, BlockAlloc.Full, NoInode, NoRoom, Spare, ChildrenKept, Child, Plus, GotChild, Blocked, CurPtrs,
        Room, SlotFor,
      CurKept, Clean, CanEnter, SpareAt, Booked, InSync, DropSafe;
    ghost var disk, slots := fs.bc.disk, fs.islots;
    PlusHolds(refs, slots, p);
    SlotRange(fs.own, disk, slots, p);
    SpareSeen(fs.own, disk, base, slots, p);
    ghost var q, v := slots[p].inum, ViewOf(disk);
    j := 0;
    OrphanKeeps(disk, disk, j);
    HeldSelf(refs, slots);
    var existing := LookupIn(fs, p, name);
    ghost var slots1 := fs.islots;
    HeldLen(slots, slots1);
    InumOf(slots, slots1, p);
    StillHeldNext(refs, slots, slots, slots1);
    PlusHolds(refs, slots1, p);
    CurPtrsSame(disk, slots, slots1, q);
    if existing.Some? {
      fs.Iput(p);
      HeldLen(slots1, fs.islots);
      StillHeldNext(refs, slots, slots1, fs.islots);
      DropParent(refs, slots1, fs.islots, p);
      return None, 0;
    }
    r, j := MkdirChild(fs, p, name);
    ghost var slots2 := fs.islots;
    HeldLen(slots1, slots2);
    StillHeldNext(refs, slots, slots1, slots2);
    NewRefs(refs, slots1, slots2, p, r);
    fs.Iput(p);
    HeldLen(slots2, fs.islots);
    StillHeldNext(refs, slots, slots2, fs.islots);
    if r.None? {
      DropParent(refs, slots2, fs.islots, p);
      OrphanKeeps(disk, fs.bc.disk, j);
    } else {
      MovedToChild(refs, slots1, slots2, fs.islots, p, r.value);
      NewDirGot(v, q, name, j);
      GotChildKeeps(disk, fs.bc.disk, q, name, j);
      InumOf(slots2, fs.islots, r.value);
    }
  }

  /** After an operation in the directory that all but the last component of a path lead
      to, the whole path leads to what the last component names there. */
  lemma PathToChild(disk: Disk, disk': Disk, start: nat, names: seq<seq<Byte>>, q: nat)
    requires Sized(disk) && Sized(disk') && names != [] && Walk(disk, start, Init(names)) == Some(q)
    requires ChildrenKept(disk, disk')
    ensures Walk(disk', start, names) == match Child(disk', q,
      Last(names)) case None => None case Some(k) => Walk(disk', k, [])
  {
    hide Child, ChildrenKept;
    WalkKept(disk, disk', start, Init(names));
    WalkAppend(disk', start, Init(names), q, Last(names));
    assert Init(names) + [Last(names)] == names;
  }

  lemma ChildrenSame(disk: Disk)
    requires Sized(disk)
    ensures ChildrenKept(disk, disk)
  {
  }

  /** The walk to the directory of the last component succeeds. */
  ghost predicate Found(disk: Disk, slots: seq<ISlot>, start: nat, path: seq<Byte>)
    requires Sized(disk)
  {
    && Components(path) != [] && Walk(disk, start, Init(Components(path))).Some?
    && StartFits(slots, path) && WalkFits(disk, slots, start, Init(Components(path)))
  }

  /** An inode can be made for the last component, with `own` blocks for itself. */
  ghost predicate MakesNew(disk: Disk, slots: seq<ISlot>, q: nat, name: seq<Byte>, own: nat)
    requires 0 < q < NINODES && Sized(disk)
  {
    SpareAt(slots, q) > 0 && CanMake(ViewOf(disk), q, name, CurPtrs(disk, slots, q), Room(disk), SpareAt(slots, q), own)
  }

  /** create: the path resolves to the file that is returned, whether it was there or is
      new; link counts stay right and no path is lost, also when it fails. It succeeds exactly
      when the directory is found and holds a file by that name or can get one. A failure
      leaves an inode in use without a name exactly when the directory was found, the name was
      free and there was an inode to be had. */
  method Create(fs: FileSystem, cwd: nat, path: seq<Byte>) returns (r: Option<nat>, ghost j: nat)
    requires fs.Valid() && Sized(fs.bc.disk) && TreeOk(ViewOf(fs.bc.disk)) && cwd < NINODE && fs.islots[cwd].refcnt > 0
    modifies fs, fs.bc
    ensures fs.Valid() && Sized(fs.bc.disk) && TreeOk(ViewOf(fs.bc.disk)) && SameHeld(old(fs.islots), fs.islots)
    ensures PathsKept(old(fs.bc.disk), fs.bc.disk) && |fs.islots| == NINODE == |old(fs.islots)|
    ensures r.None? ==> IRefs(fs.islots) == IRefs(old(fs.islots))
    ensures Components(path) == [] ==> r.None? && ViewOf(fs.bc.disk) == ViewOf(old(fs.bc.disk))
    ensures Components(path) != [] ==>
      var start := if path != [] && path[0] == SLASH then ROOTINO else old(fs.islots[cwd].inum);
      var names, v := Components(path), ViewOf(old(fs.bc.disk));
      var dir, was := Walk(old(fs.bc.disk), start, Init(names)), Walk(old(fs.bc.disk), start, names);
      && (r.Some? ==>
            && r.value < NINODE && IRefs(fs.islots) == Plus(IRefs(old(fs.islots)), r.value)
            && Walk(fs.bc.disk, start, names) == Some(fs.islots[r.value].inum)
            && fs.islots[r.value].inum < NINODES && TypOf(fs.bc.disk, fs.islots[r.value].inum) !in {T_DIR, T_DEVICE}
            && (fs.bc.disk == old(fs.bc.disk) || (dir.Some? && 0 < j < NINODES && v[j].typ == 0
                && ViewOf(fs.bc.disk) == NewFile(v, dir.value, Last(names), j)
                && fs.islots[r.value].inum == j
                && Booked(old(fs.bc.disk), old(fs.islots), fs.bc.disk, fs.islots, dir.value, j))))
      && (r.Some? <==>
            && Found(old(fs.bc.disk), old(fs.islots), start, path)
            && if was.Some? then
                 TypOf(old(fs.bc.disk), was.value) !in {T_DIR, T_DEVICE} && SlotFor(old(fs.islots), was.value)
               else MakesNew(old(fs.bc.disk), old(fs.islots), dir.value, Last(names), 0))
      && (r.None? ==>
            && (ViewOf(fs.bc.disk) != v <==>
                  Found(old(fs.bc.disk), old(fs.islots), start, path) && was.None? && !NoInode(v))
            && (ViewOf(fs.bc.disk) != v ==> Orphaned(v, ViewOf(fs.bc.disk), j)))
  {
    hide FilesOk, DirsOk, HeldOk, SlotsOk, DinodeOf, ViewOf, NodeOf, NodesKept, Cache.Ready, Orphaned, NewFile, TreeOk,
      IRefs, Spare, ChildrenKept, Child, Plus, Blocked, Walk, PathsKept, Components, BlockAlloc.Full, CurPtrs, Room,
        SlotFor,
      CurKept, Clean, CanEnter, SpareAt, StartFits, WalkFits, NoInode, Booked;
    ghost var disk, slots := fs.bc.disk, fs.islots;
    SlotRange(fs.own, disk, slots, cwd);
    RootExists(disk);
    ChildrenSame(disk);
    AllWalksKept(disk, disk);
    var par := NameiParent(fs, cwd, path);
    if par.None? {
      return None, 0;
    }
    var (p, name) := par.value;
    ghost var slots1 := fs.islots;
    CurPtrsSame(disk, slots, slots1, slots1[p].inum);
    r, j := CreateAt(fs, p, name, slots, IRefs(slots));
    CurSelfKept(fs.bc.disk, fs.islots);
    if r.Some? && fs.bc.disk != disk { BookedAround(disk, slots, slots1, fs.bc.disk, fs.islots, fs.islots,
      slots1[p].inum, j); }
    if r.None? && Child(disk, slots1[p].inum, name).None? { GaveUpChanged(ViewOf(disk), ViewOf(fs.bc.disk), j); }
    HeldBack(slots, slots1, fs.islots);
    AllWalksKept(disk, fs.bc.disk);
    ghost var start := if path != [] && path[0] == SLASH then ROOTINO else slots[cwd].inum;
    ghost var names, q := Components(path), slots1[p].inum;
    PathToChild(disk, disk, start, names, q);
    PathToChild(disk, fs.bc.disk, start, names, q);
    if r.Some? { WalkHere(fs.bc.disk, fs.islots[r.value].inum, fs.own, fs.islots, r.value, IRefs(slots)); }
    if Child(disk, q, name).Some? { ChildExists(disk, q, name); WalkNone(disk, Child(disk, q, name).value); }
  }

  lemma RootExists(disk: Disk)
    requires Sized(disk) && TreeOk(ViewOf(disk))
    ensures TypOf(disk, ROOTINO) != 0
  {
    NodeTyp(disk, ROOTINO);
  }

  lemma HeldBack(slots: seq<ISlot>, slots1: seq<ISlot>, slots2: seq<ISlot>)
    requires SameHeld(slots, slots1) && StillHeld(IRefs(slots), slots1, slots2)
    ensures SameHeld(slots, slots2) && |slots2| == |slots|
  {
    forall k | 0 <= k < |slots| && slots[k].refcnt > 0 ensures slots2[k].inum == slots[k].inum {
      assert IRefs(slots)[k] > 0;
    }
  }

  lemma WalkNone(disk: Disk, k: nat)
    requires Sized(disk) && 0 < k < NINODES
    ensures Walk(disk, k, []) == Some(k)
  {
  }

  lemma WalkHere(disk: Disk, k: nat, own: Owners, slots: seq<ISlot>, i: nat, refs: seq<nat>)
    requires Sized(disk) && SlotsOk(own, disk, slots) && i < NINODE == |slots| == |refs|
    requires IRefs(slots) == Plus(refs, i)
    requires k == slots[i].inum
    ensures Walk(disk, k, []) == Some(k)
  {
    hide SlotsOk;
    PlusHolds(refs, slots, i);
    SlotRange(own, disk, slots, i);
  }

  /** mkdir: the path was free and now resolves to a new directory with "." and "..";
      link counts stay right and no path is lost, also when it fails. */
  method Mkdir(fs: FileSystem, cwd: nat, path: seq<Byte>) returns (r: Option<nat>, ghost j: nat)
    requires fs.Valid() && Sized(fs.bc.disk) && TreeOk(ViewOf(fs.bc.disk)) && cwd < NINODE && fs.islots[cwd].refcnt > 0
    modifies fs, fs.bc
    ensures fs.Valid() && Sized(fs.bc.disk) && TreeOk(ViewOf(fs.bc.disk)) && SameHeld(old(fs.islots), fs.islots)
    ensures PathsKept(old(fs.bc.disk), fs.bc.disk) && |fs.islots| == NINODE == |old(fs.islots)|
    ensures r.None? ==> IRefs(fs.islots) == IRefs(old(fs.islots))
    ensures Components(path) == [] ==> r.None? && ViewOf(fs.bc.disk) == ViewOf(old(fs.bc.disk))
    ensures Components(path) != [] ==>
      var start := if path != [] && path[0] == SLASH then ROOTINO else old(fs.islots[cwd].inum);
      var names, v := Components(path), ViewOf(old(fs.bc.disk));
      var dir, was := Walk(old(fs.bc.disk), start, Init(names)), Walk(old(fs.bc.disk), start, names);
      && (r.Some? ==>
            && r.value < NINODE && IRefs(fs.islots) == Plus(IRefs(old(fs.islots)), r.value)
            && was == None && Walk(fs.bc.disk, start, names) == Some(fs.islots[r.value].inum) == Some(j)
            && dir.Some? && 0 < j < NINODES && v[j].typ == 0
            && ViewOf(fs.bc.disk) == NewDir(v, dir.value, Last(names), j))
      && (r.Some? <==>
            && Found(old(fs.bc.disk), old(fs.islots), start, path) && was.None?
            && MakesNew(old(fs.bc.disk), old(fs.islots), dir.value, Last(names), 1))
      && (r.None? ==>
            && (ViewOf(fs.bc.disk) != v <==>
                  Found(old(fs.bc.disk), old(fs.islots), start, path) && was.None? && !NoInode(v))
            && (ViewOf(fs.bc.disk) != v ==> Orphaned(v, ViewOf(fs.bc.disk), j)))
  {
    hide FilesOk, DirsOk, HeldOk, SlotsOk, DinodeOf, ViewOf, NodeOf, NodesKept, Cache.Ready, Orphaned, NewDir, TreeOk,
      IRefs, Spare, ChildrenKept, Child, Plus, Blocked, Walk, PathsKept, Components, BlockAlloc.Full, CurPtrs, Room,
        SlotFor,
      CurKept, Clean, CanEnter, SpareAt, StartFits, WalkFits, NoInode, Booked;
    ghost var disk, slots := fs.bc.disk, fs.islots;
    SlotRange(fs.own, disk, slots, cwd);
    RootExists(disk);
    ChildrenSame(disk);
    AllWalksKept(disk, disk);
    var par := NameiParent(fs, cwd, path);
    if par.None? {
      return None, 0;
    }
    var (p, name) := par.value;
    ghost var slots1 := fs.islots;
    CurPtrsSame(disk, slots, slots1, slots1[p].inum);
    r, j := MkdirAt(fs, p, name, slots, IRefs(slots));
    if r.None? && Child(disk, slots1[p].inum, name).None? { GaveUpChanged(ViewOf(disk), ViewOf(fs.bc.disk), j); }
    HeldBack(slots, slots1, fs.islots);
    AllWalksKept(disk, fs.bc.disk);
    ghost var start := if path != [] && path[0] == SLASH then ROOTINO else slots[cwd].inum;
    ghost var names, q := Components(path), slots1[p].inum;
    PathToChild(disk, disk, start, names, q);
    PathToChild(disk, fs.bc.disk, start, names, q);
    if r.Some? { WalkNone(fs.bc.disk, j); }
    if Child(disk, q, name).Some? { ChildExists(disk, q, name); WalkNone(disk, Child(disk, q, name).value); }
  }

  // ---- The first directory, and operations that name nothing ---------------------------

  /** Writing or truncating a file concerns no link count. */
  lemma WriteKeepsTree(v: View, v': View, j: nat)
    requires TreeOk(v) && j < NINODES && v[j].typ != T_DIR && v' == v[j := v[j].(bytes := v'[j].bytes)]
    ensures TreeOk(v')
  {
    hide NamesIn, Reach, Counted, NamesExist, LinksRight, Bounded;
    assert GraphOf(v') == GraphOf(v);
  }

  ghost function Copies(k: nat, n: nat): multiset<nat> { multiset{}[k := n] }

  lemma {:induction false} OnlyRootNames(g: Graph, k: nat, n: nat)
    requires n <= |g|
    ensures Named(g, {ROOT}, k, n) == if ROOT < n then g[ROOT].names[k] else 0
  {
    if n > 0 {
      OnlyRootNames(g, k, n - 1);
    }
  }

  /** A root that names only itself, as often as it has links, and no other inode. */
  lemma RootTree(v: View)
    requires v[ROOTINO].typ == T_DIR && 0 <= v[ROOTINO].nlink <= 2
    requires VertexOf(v[ROOTINO]).names == Copies(ROOT, v[ROOTINO].nlink)
    requires forall k :: 0 <= k < NINODES && k != ROOTINO ==> v[k] == Node(0, 0, [])
    ensures TreeOk(v)
  {
    hide NamesIn;
    var g := GraphOf(v);
    OnlyRootNames(g, ROOT, NINODES);
    assert Closed(g, {ROOT});
    assert Reach(g, {ROOT}) && Counted(g, {ROOT});
    RootCounted(g, NINODES);
  }

  lemma {:induction false} RootCounted(g: Graph, n: nat)
    requires ROOT < n <= |g| && g[ROOT].typ != 0
    ensures Existing(g, n) >= 1
  {
    if n > ROOT + 1 {
      RootCounted(g, n - 1);
    }
  }

  /** The entry just made adds one name of the root. */
  lemma RootNamed(v: View, name: seq<Byte>, n: nat)
    requires Takes(v, ROOTINO, name) && VertexOf(v[ROOTINO]).names == Copies(ROOT, n)
    ensures VertexOf(Entered(v, ROOTINO, name, ROOTINO)[ROOTINO]).names == Copies(ROOT, n + 1)
  {
    hide NamesIn, WithEntry, Takes;
    EnteredGraph(v, ROOTINO, name, ROOTINO);
    assert GraphOf(Entered(v, ROOTINO, name, ROOTINO))[ROOTINO].names == Copies(ROOT, n) + multiset{ROOT};
  }

  lemma EmptyNodes(disk: Disk)
    requires forall j :: 0 < j < NINODES ==> DinodeOf(disk, j) == Dinode(0, 0, 0, 0, 0, NoAddrs())
    ensures Sized(disk) && forall j :: 0 <= j < NINODES ==> ViewOf(disk)[j] == Node(0, 0, [])
  {
    hide DinodeOf, Content;
    forall j | 0 < j < NINODES
      ensures OnDisk(disk, j).size <= MAXBYTES && NodeOf(disk, j) == Node(0, 0, [])
    {
      ContentLen(disk, OnDisk(disk, j));
    }
  }

  /** init_root: the record of the root, still empty, and a reference to it. */
  method InitRoot() returns (fs: FileSystem, root: nat)
    ensures fresh(fs) && fresh(fs.bc) && fs.Valid() && Sized(fs.bc.disk)
    ensures root < NINODE == |fs.islots| && fs.islots[root].inum == ROOTINO && fs.islots[root].refcnt == 1
    ensures IRefs(fs.islots) == seq(NINODE, _ => 0)[root := 1] && Room(fs.bc.disk) == FSSIZE - DATASTART
    ensures var v := ViewOf(fs.bc.disk);
            v[ROOTINO] == Node(T_DIR, 0, []) && forall k :: 0 <= k < NINODES && k != ROOTINO ==> v[k] == Node(0, 0, [])
    ensures CurPtrs(fs.bc.disk, fs.islots, ROOTINO) == {} && TypOf(fs.bc.disk, ROOTINO) == T_DIR
  {
    hide FilesOk, DirsOk, HeldOk, SlotsOk, DinodeOf, NodeOf, NodesKept, ViewOf, Kept, PutDinodeOf, Spare, CurPtrs,
      Room, SlotFor, CurKept,
      Clean, PtrsKept;
    fs := new FileSystem();
    ghost var disk, slots := fs.bc.disk, fs.islots;
    EmptyNodes(disk);
    NewRecord(fs.own, disk, slots, ROOTINO, T_DIR);
    NewPtrs(fs.own, disk, slots, ROOTINO, T_DIR);
    ghost var s1 := fs.bc.slots;
    WriteDinode(fs.bc, ROOTINO, NewDinode(T_DIR));
    KeptSpare(s1, fs.bc.slots);
    ghost var disk1 := fs.bc.disk;
    ViewAfter(disk, disk1, ROOTINO);
    NewTyp(disk1, ROOTINO, T_DIR);
    SlotCount(fs.own, disk1, slots);
    AllSpare(slots);
    var r := fs.Iget(ROOTINO);
    assert IRefs(slots)[0] == 0;
    root := r.value;
    CurPtrsSame(disk1, slots, fs.islots, ROOTINO);
    assert IRefs(fs.islots)[root] == 1;
  }

  lemma AllSpare(slots: seq<ISlot>)
    requires |slots| == NINODE && IRefs(slots) == seq(NINODE, _ => 0)
    ensures forall j :: SlotFor(slots, j)
  {
    SpareCounts(IRefs(slots), 0);
  }

  /** The two entries of the root can be made. */
  lemma RootTakes(v: View, room: nat)
    requires v[ROOTINO] == Node(T_DIR, 0, []) && room > 0
    ensures CanEnter(v, ROOTINO, DOT, {}, room) && EntryCost([], {}) == 1 && EntryWay([], {}) == {0}
    ensures var w := Entered(v, ROOTINO, DOT, ROOTINO);
            CanEnter(w, ROOTINO, DOTDOT, {0}, room - 1) && EntryCost(w[ROOTINO].bytes, {0}) == 0
            && EntryWay(w[ROOTINO].bytes, {0}) == {0}
  {
    hide EntryCost, EntryWay, WithEntry, Lookup, FirstUnused, Stored;
    SmallDir(ROOTINO);
    var c := WithEntry([], 0, Dirent(ROOTINO, Stored(DOT)));
    FirstBlock([], {});
    FirstBlock(c, {0});
    assert {} + {0} == {0};
    OneEntry(Dirent(ROOTINO, Stored(DOT)));
  }

  lemma OneEntry(de: Dirent)
    requires de.inum < 65536 && |de.name| == DIRSIZ
    ensures |WithEntry([], 0, de)| % ENTSIZE == 0
  {
  }

  /** init and populate_root up to the root directory itself: it names itself twice, has two
      links and takes one block, and nothing else exists. */
  method MakeRoot() returns (fs: FileSystem, root: nat)
    ensures fresh(fs) && fresh(fs.bc) && fs.Valid() && Sized(fs.bc.disk) && TreeOk(ViewOf(fs.bc.disk))
    ensures root < NINODE == |fs.islots| && fs.islots[root].inum == ROOTINO
    ensures IRefs(fs.islots) == seq(NINODE, _ => 0)[root := 1]
    ensures var v := ViewOf(fs.bc.disk);
            && v[ROOTINO] == Node(T_DIR, 2, NewDirBytes(ROOTINO, ROOTINO))
            && forall k :: 0 <= k < NINODES && k != ROOTINO ==> v[k] == Node(0, 0, [])
    ensures Room(fs.bc.disk) + 1 == FSSIZE - DATASTART && CurPtrs(fs.bc.disk, fs.islots, ROOTINO) == {0}
  {
    hide FilesOk, DirsOk, HeldOk, SlotsOk, DinodeOf, NodeOf, NodesKept, ViewOf, Takes, NamesIn, WithEntry,
      BlockAlloc.Full, Entered, NoRoom, TreeOk, CurPtrs, Room, EntryCost, EntryWay, CanEnter, PtrsKept;
    fs, root := InitRoot();
    ghost var slots1, v1 := fs.islots, ViewOf(fs.bc.disk);
    RootTakes(v1, Room(fs.bc.disk));
    assert VertexOf(v1[ROOTINO]).names == Copies(ROOT, 0) by { EmptyNames(); }
    var nlink := 0;
    var ok := AddEntry(fs, root, DOT, ROOTINO);
    if ok {
      nlink := nlink + 1;
    }
    RootNamed(v1, DOT, 0);
    ghost var slots2, v2 := fs.islots, ViewOf(fs.bc.disk);
    SlotsStay(slots1, slots2, root);
    assert v2[ROOTINO].typ == T_DIR by { EnteredTyp(v1, DOT); }
    assert TypOf(fs.bc.disk, ROOTINO) != 0 by { NodeTyp(fs.bc.disk, ROOTINO); }
    ok := AddEntry(fs, root, DOTDOT, ROOTINO);
    if ok {
      nlink := nlink + 1;
    }
    RootNamed(v2, DOTDOT, 1);
    ghost var disk3, slots3, v3 := fs.bc.disk, fs.islots, ViewOf(fs.bc.disk);
    SlotsStay(slots2, slots3, root);
    assert v3[ROOTINO].typ == T_DIR by { EnteredTyp(v2, DOTDOT); }
    SaveNlink(fs, root, nlink);
    ViewAfter(disk3, fs.bc.disk, ROOTINO);
    SlotsStay(slots3, fs.islots, root);
    OthersEmpty(v1, v2, DOT);
    OthersEmpty(v2, v3, DOTDOT);
    RootBytes(v1);
    RootTree(ViewOf(fs.bc.disk));
  }

  lemma RootBytes(v: View)
    requires v[ROOTINO] == Node(T_DIR, 0, [])
    ensures Entered(Entered(v, ROOTINO, DOT, ROOTINO), ROOTINO, DOTDOT,
      ROOTINO)[ROOTINO].bytes == NewDirBytes(ROOTINO, ROOTINO)
  {
  }

  lemma EmptyNames()
    ensures VertexOf(Node(T_DIR, 0, [])).names == multiset{}
  {
  }

  lemma EnteredTyp(v: View, name: seq<Byte>)
    ensures Entered(v, ROOTINO, name, ROOTINO)[ROOTINO].typ == v[ROOTINO].typ
  {
  }

  lemma OthersEmpty(v: View, w: View, name: seq<Byte>)
    requires w == v || w == Entered(v, ROOTINO, name, ROOTINO)
    ensures forall k :: 0 <= k < NINODES && k != ROOTINO ==> w[k] == v[k]
  {
  }
}
