/** Which blocks a file owns: twelve direct pointers, one indirect block of 256
    more, and a ghost map that gives every allocated block the one pointer it
    belongs to. */
module BlockMap {
  import opened Prelude
  import opened FsLayout
  import opened BufferCache
  import opened BlockAlloc

  /** Pointer slots of a file: 0..12 direct, 12 the indirect block, 13.. its words. */
  const NPTR := NDIRECT + 1 + NINDIRECT

  type Addrs = a: seq<nat> | |a| == NDIRECT + 1 witness seq(NDIRECT + 1, _ => 0)

  /** An in-memory inode. */
  datatype Inode = Inode(inum: nat, typ: int, major: int, minor: int, nlink: int, size: nat, addrs: Addrs)

  /** Pointer slot of logical block bn. */
  function Slot(bn: nat): nat { if bn < NDIRECT then bn else bn + 1 }

  function PtrAt(disk: Disk, addrs: Addrs, k: nat): nat
    requires k < NPTR
  {
    if k <= NDIRECT then addrs[k]
    else if addrs[NDIRECT] == 0 || addrs[NDIRECT] >= FSSIZE then 0
    else U32At(disk[addrs[NDIRECT]], 4 * (k - NDIRECT - 1))
  }

  /** Which pointer slot of which file a block belongs to. */
  type Owners = map<nat, (nat, nat)>

  /** Owned blocks are data blocks marked in use. */
  ghost predicate OwnOk(own: Owners, disk: Disk) {
    forall b :: b in own ==> DATASTART <= b < FSSIZE && Marked(disk, b)
  }

  ghost predicate OwnsAt(own: Owners, disk: Disk, inum: nat, addrs: Addrs, k: nat)
    requires k < NPTR
  {
    var b := PtrAt(disk, addrs, k);
    b != 0 ==> b in own && own[b] == (inum, k)
  }

  /** Every block the file points to is its own, under exactly that pointer. */
  ghost predicate Owns(own: Owners, disk: Disk, inum: nat, addrs: Addrs) {
    forall k :: 0 <= k < NPTR ==> OwnsAt(own, disk, inum, addrs, k)
  }

  /** Nothing that belongs to a file other than `inum` changed, nor any inode block. */
  ghost predicate OthersKept(own: Owners, disk: Disk, own': Owners, disk': Disk, inum: nat) {
    && (forall b :: b in own && own[b].0 != inum ==>
      b in own' && own'[b] == own[b] && b < FSSIZE && disk'[b] == disk[b])
    && (forall b :: 0 <= b < BMAPSTART ==> disk'[b] == disk[b])
  }

  ghost predicate ExtendsAt(disk: Disk, addrs: Addrs, disk': Disk, addrs': Addrs, k: nat)
    requires k < NPTR
  {
    var b := PtrAt(disk, addrs, k);
    b != 0 ==> PtrAt(disk', addrs', k) == b && (k != NDIRECT && b < FSSIZE ==> disk'[b] == disk[b])
  }

  /** The file kept its pointers and the data behind them; it may have new ones. */
  ghost predicate Extends(disk: Disk, addrs: Addrs, disk': Disk, addrs': Addrs) {
    forall k :: 0 <= k < NPTR ==> ExtendsAt(disk, addrs, disk', addrs', k)
  }

  /** Pointers of the inode itself are only added, never changed. */
  ghost predicate Grows(addrs: Addrs, addrs': Addrs) {
    forall k :: 0 <= k <= NDIRECT && addrs[k] != 0 ==> addrs'[k] == addrs[k]
  }

  lemma ExtendsGrows(disk: Disk, addrs: Addrs, disk': Disk, addrs': Addrs)
    requires Extends(disk, addrs, disk', addrs')
    ensures Grows(addrs, addrs')
  {
    forall k | 0 <= k <= NDIRECT && addrs[k] != 0 ensures addrs'[k] == addrs[k] {
      assert ExtendsAt(disk, addrs, disk', addrs', k);
    }
  }

  lemma ExtendsTrans(d1: Disk, a1: Addrs, d2: Disk, a2: Addrs, d3: Disk, a3: Addrs)
    requires Extends(d1, a1, d2, a2) && Extends(d2, a2, d3, a3)
    ensures Extends(d1, a1, d3, a3)
  {
    forall k | 0 <= k < NPTR ensures ExtendsAt(d1, a1, d3, a3, k) {
      assert ExtendsAt(d1, a1, d2, a2, k) && ExtendsAt(d2, a2, d3, a3, k);
    }
  }

  // ---- Taking a fresh block -------------------------------------------------------

  /** The disk after balloc returned b. */
  function Fresh(disk: Disk, b: nat): Disk
    requires DATASTART <= b < FSSIZE
  {
    SetMark(disk, b, true)[b := ZeroBlock()]
  }

  lemma FreshFacts(disk: Disk, own: Owners, b: nat, owner: (nat, nat))
    requires FirstFree(disk, b) && OwnOk(own, disk)
    ensures b !in own
    ensures OwnOk(own[b := owner], Fresh(disk, b))
    ensures forall c :: 0 <= c < FSSIZE && c != b && !(BMAPSTART <= c < DATASTART) ==> Fresh(disk, b)[c] == disk[c]
    ensures Fresh(disk, b)[b] == ZeroBlock()
  {
    hide Marked, SetMark;
    forall c | 0 <= c < FSSIZE
      ensures !(BMAPSTART <= c < DATASTART) ==> SetMark(disk, b, true)[c] == disk[c]
      ensures Marked(Fresh(disk, b), c) == (c == b || Marked(disk, c))
    {
      MarkPut(disk, b, true, c);
      ZeroMark(SetMark(disk, b, true), b, c);
    }
  }

  /** A block taken is one block less. */
  lemma RoomFresh(disk: Disk, b: nat)
    requires FirstFree(disk, b)
    ensures DATASTART <= b < FSSIZE && Room(Fresh(disk, b)) + 1 == Room(disk)
  {
    hide Marked, SetMark;
    forall c | 0 <= c < FSSIZE ensures Marked(Fresh(disk, b), c) == (c == b || Marked(disk, c)) {
      MarkPut(disk, b, true, c);
      ZeroMark(SetMark(disk, b, true), b, c);
    }
    assert FreeSet(Fresh(disk, b)) == FreeSet(disk) - {b};
    assert b in FreeSet(disk);
  }

  /** Zeroing a data block leaves the bitmap alone. */
  lemma ZeroMark(disk: Disk, b: nat, c: nat)
    requires DATASTART <= b < FSSIZE && c < FSSIZE
    ensures Marked(disk[b := ZeroBlock()], c) == Marked(disk, c)
  {
  }

  lemma ZeroWord(off: nat)
    requires off + 4 <= BSIZE
    ensures U32At(ZeroBlock(), off) == 0
  {
  }

  /** A fresh block for pointer slot k of the inode itself. */
  lemma DirectFresh(own: Owners, disk: Disk, inum: nat, addrs: Addrs, k: nat, b: nat)
    requires OwnOk(own, disk) && Owns(own, disk, inum, addrs) && k <= NDIRECT && addrs[k] == 0 && FirstFree(disk, b)
    ensures var own', disk', addrs' := own[b := (inum, k)], Fresh(disk, b), addrs[k := b];
            && OwnOk(own', disk') && Owns(own', disk', inum, addrs')
            && OthersKept(own, disk, own', disk', inum) && Extends(disk, addrs, disk', addrs')
  {
    hide Fresh, U32At, FirstFree, Marked;
    FreeIsData(disk, b);
    var own', disk', addrs' := own[b := (inum, k)], Fresh(disk, b), addrs[k := b];
    FreshFacts(disk, own, b, (inum, k));
    assert OwnsAt(own, disk, inum, addrs, NDIRECT);
    forall j | 0 <= j < NPTR
      ensures OwnsAt(own', disk', inum, addrs', j) && ExtendsAt(disk, addrs, disk', addrs', j)
    {
      assert OwnsAt(own, disk, inum, addrs, j);
      if j > NDIRECT {
        ZeroWord(4 * (j - NDIRECT - 1));
      }
    }
  }

  lemma FreeIsData(disk: Disk, b: nat)
    requires FirstFree(disk, b)
    ensures DATASTART <= b < FSSIZE
  {
  }

  /** A fresh block for word j of the indirect block. */
  lemma IndirectFresh(own: Owners, disk: Disk, inum: nat, addrs: Addrs, j: nat, b: nat)
    requires OwnOk(own, disk) && Owns(own, disk, inum, addrs) && j < NINDIRECT && addrs[NDIRECT] != 0
    requires FirstFree(disk, b)
    requires PtrAt(disk, addrs, NDIRECT + 1 + j) == 0
    ensures var ind, k := addrs[NDIRECT], NDIRECT + 1 + j;
            && ind < FSSIZE && DATASTART <= b < FSSIZE
            && var own', disk' := own[b := (inum, k)], Fresh(disk, b)[ind := PutU32(disk[ind], 4 * j, b)];
            && OwnOk(own', disk') && Owns(own', disk', inum, addrs)
            && OthersKept(own, disk, own', disk', inum) && Extends(disk, addrs, disk', addrs)
            && PtrAt(disk', addrs, k) == b && Fresh(disk, b)[ind] == disk[ind]
  {
    hide Fresh, U32At, PutU32, FirstFree, Marked, Owns, Extends, PtrAt;
    var ind := addrs[NDIRECT];
    FreeIsData(disk, b);
    FreshFacts(disk, own, b, (inum, NDIRECT + 1 + j));
    IndirectBlock(own, disk, inum, addrs);
    assert ind != b;
    var own', zeroed := own[b := (inum, NDIRECT + 1 + j)], Fresh(disk, b);
    var disk' := zeroed[ind := PutU32(disk[ind], 4 * j, b)];
    DataOwnOk(own', zeroed, ind, PutU32(disk[ind], 4 * j, b));
    WordOthers(own, disk, own', zeroed, inum, ind, b, PutU32(disk[ind], 4 * j, b));
    assert forall c :: c in own && c < FSSIZE && c != ind ==> disk'[c] == disk[c] by { OwnedData(own, disk); }
    hide OwnOk, OthersKept;
    IndirectPtrs(own, disk, own', disk', inum, addrs, j, b);
  }

  lemma OwnedData(own: Owners, disk: Disk)
    requires OwnOk(own, disk)
    ensures forall b :: b in own ==> DATASTART <= b < FSSIZE
  {
  }

  lemma DataOwnOk(own: Owners, disk: Disk, b: nat, data: Block)
    requires OwnOk(own, disk) && DATASTART <= b < FSSIZE
    ensures OwnOk(own, disk[b := data])
  {
    hide Marked;
    forall c | c in own ensures Marked(disk[b := data], c) {
      DataMark(disk, b, data, c);
    }
  }

  /** A block of the file itself was rewritten after block b was taken. */
  lemma WordOthers(own: Owners, disk: Disk, own': Owners, disk': Disk, inum: nat, ind: nat, b: nat, data: Block)
    requires OwnOk(own, disk) && ind in own && own[ind].0 == inum && ind < FSSIZE && b !in own && b >= DATASTART
    requires b in own' && own' == own[b := own'[b]]
    requires forall c :: 0 <= c < FSSIZE && c != b && !(BMAPSTART <= c < DATASTART) ==> disk'[c] == disk[c]
    ensures OthersKept(own, disk, own', disk'[ind := data], inum)
  {
    hide Marked;
  }

  lemma IndirectBlock(own: Owners, disk: Disk, inum: nat, addrs: Addrs)
    requires OwnOk(own, disk) && Owns(own, disk, inum, addrs) && addrs[NDIRECT] != 0
    ensures DATASTART <= addrs[NDIRECT] < FSSIZE && addrs[NDIRECT] in own && own[addrs[NDIRECT]] == (inum, NDIRECT)
  {
    assert OwnsAt(own, disk, inum, addrs, NDIRECT);
  }

  lemma PtrAfter(disk: Disk, disk': Disk, addrs: Addrs, j: nat, b: nat, k: nat)
    requires j < NINDIRECT && 0 < addrs[NDIRECT] < FSSIZE && b < FSSIZE && k < NPTR
    requires disk'[addrs[NDIRECT]] == PutU32(disk[addrs[NDIRECT]], 4 * j, b)
    ensures PtrAt(disk', addrs, k) == if k == NDIRECT + 1 + j then b else PtrAt(disk, addrs, k)
  {
    hide U32At, PutU32;
    if k > NDIRECT {
      U32Put(disk[addrs[NDIRECT]], 4 * j, b, 4 * (k - NDIRECT - 1));
    }
  }

  /** All pointers of a file after word j of its indirect block was set. */
  lemma IndirectPtrs(own: Owners, disk: Disk, own': Owners, disk': Disk, inum: nat, addrs: Addrs, j: nat, b: nat)
    requires Owns(own, disk, inum, addrs) && j < NINDIRECT && DATASTART <= addrs[NDIRECT] < FSSIZE
    requires DATASTART <= b < FSSIZE && b !in own && own' == own[b := (inum, NDIRECT + 1 + j)]
    requires PtrAt(disk, addrs, NDIRECT + 1 + j) == 0 && disk'[addrs[NDIRECT]] == PutU32(disk[addrs[NDIRECT]], 4 * j, b)
    requires addrs[NDIRECT] in own && own[addrs[NDIRECT]] == (inum, NDIRECT)
    requires forall c :: c in own && c < FSSIZE && c != addrs[NDIRECT] ==> disk'[c] == disk[c]
    ensures Owns(own', disk', inum, addrs) && Extends(disk, addrs, disk', addrs)
    ensures PtrAt(disk', addrs, NDIRECT + 1 + j) == b
  {
    hide PtrAt, PutU32;
    PtrAfter(disk, disk', addrs, j, b, NDIRECT + 1 + j);
    forall k | 0 <= k < NPTR
      ensures OwnsAt(own', disk', inum, addrs, k) && ExtendsAt(disk, addrs, disk', addrs, k)
    {
      assert OwnsAt(own, disk, inum, addrs, k);
      PtrAfter(disk, disk', addrs, j, b, k);
    }
  }

  /** Writing a data block leaves the bitmap alone. */
  lemma DataMark(disk: Disk, b: nat, data: Block, c: nat)
    requires DATASTART <= b < FSSIZE && c < FSSIZE
    ensures Marked(disk[b := data], c) == Marked(disk, c)
  {
  }

  // ---- What a block costs -------------------------------------------------------------

  /** Pointer slots that lead somewhere. */
  ghost function Ptrs(disk: Disk, addrs: Addrs): set<nat> { set k: nat | k < NPTR && PtrAt(disk, addrs, k) != 0 }

  /** Blocks to allocate for logical block bn. */
  ghost function Missing(ptrs: set<nat>, bn: nat): nat {
    (if Slot(bn) in ptrs then 0 else 1) + if bn < NDIRECT || NDIRECT in ptrs then 0 else 1
  }

  ghost function WithBlock(ptrs: set<nat>, bn: nat): set<nat> {
    ptrs + {Slot(bn)} + if bn < NDIRECT then {} else {NDIRECT}
  }

  lemma DirectPtrs(disk: Disk, addrs: Addrs, k: nat, b: nat)
    requires k <= NDIRECT && addrs[k] == 0 && FirstFree(disk, b) && addrs[NDIRECT] != b
    requires addrs[NDIRECT] != 0 ==> DATASTART <= addrs[NDIRECT] < FSSIZE
    ensures DATASTART <= b < FSSIZE && Ptrs(Fresh(disk, b), addrs[k := b]) == Ptrs(disk, addrs) + {k}
  {
    hide U32At, Marked, SetMark;
    var disk', addrs' := Fresh(disk, b), addrs[k := b];
    FreshElsewhere(disk, b);
    forall j | 0 <= j < NPTR ensures PtrAt(disk', addrs', j) != 0 <==> PtrAt(disk, addrs, j) != 0 || j == k {
      if j > NDIRECT {
        ZeroWord(4 * (j - NDIRECT - 1));
      }
    }
  }

  lemma FreshElsewhere(disk: Disk, b: nat)
    requires FirstFree(disk, b)
    ensures DATASTART <= b < FSSIZE && Fresh(disk, b)[b] == ZeroBlock()
    ensures forall c :: 0 <= c < FSSIZE && c != b && !(BMAPSTART <= c < DATASTART) ==> Fresh(disk, b)[c] == disk[c]
  {
    hide Marked, SetMark;
    forall c | 0 <= c < FSSIZE && c != b && !(BMAPSTART <= c < DATASTART) ensures Fresh(disk, b)[c] == disk[c] {
      MarkPut(disk, b, true, c);
    }
  }

  lemma WordPtrs(disk: Disk, disk': Disk, addrs: Addrs, j: nat, b: nat)
    requires j < NINDIRECT && 0 < addrs[NDIRECT] < FSSIZE && 0 < b < FSSIZE
    requires disk'[addrs[NDIRECT]] == PutU32(disk[addrs[NDIRECT]], 4 * j, b)
    ensures Ptrs(disk', addrs) == Ptrs(disk, addrs) + {NDIRECT + 1 + j}
  {
    hide PtrAt, PutU32;
    forall k | 0 <= k < NPTR ensures PtrAt(disk', addrs, k) != 0 <==>
      PtrAt(disk, addrs, k) != 0 || k == NDIRECT + 1 + j {
      PtrAfter(disk, disk', addrs, j, b, k);
    }
  }

  // ---- Lookup and allocation --------------------------------------------------------

  lemma IndirectOnDisk(own: Owners, disk: Disk, inum: nat, addrs: Addrs)
    requires OwnOk(own, disk) && Owns(own, disk, inum, addrs)
    ensures forall k :: 0 <= k < NPTR && PtrAt(disk, addrs, k) != 0 ==> DATASTART <= PtrAt(disk, addrs, k) < FSSIZE
  {
    forall k | 0 <= k < NPTR && PtrAt(disk, addrs, k) != 0
      ensures DATASTART <= PtrAt(disk, addrs, k) < FSSIZE
    {
      assert OwnsAt(own, disk, inum, addrs, k);
    }
  }

  /** The block behind logical block bn, if there is one. */
  method BmapLookup(bc: Cache, addrs: Addrs, bn: nat) returns (r: Option<nat>)
    requires bc.Ready(1) && addrs[NDIRECT] < FSSIZE
    modifies bc`slots
    ensures bc.Valid() && Kept(old(bc.slots), bc.slots)
    ensures r.Some? <==> bn < MAXFILE && PtrAt(bc.disk, addrs, Slot(bn)) != 0
    ensures r.Some? ==> r.value == PtrAt(bc.disk, addrs, Slot(bn))
  {
    if bn < NDIRECT {
      return if addrs[bn] != 0 then Some(addrs[bn]) else None;
    }
    var n := bn - NDIRECT;
    if n < NINDIRECT {
      if addrs[NDIRECT] == 0 {
        return None;
      }
      var data := bc.ReadBlock(addrs[NDIRECT]);
      var b := U32At(data, n * 4);
      return if b != 0 then Some(b) else None;
    }
    return None;
  }

  /** The file after bmap_alloc, whether or not it got a block. */
  ghost predicate Mapped(own: Owners, disk: Disk, own': Owners, disk': Disk, inum: nat, addrs: Addrs, addrs': Addrs) {
    && OwnOk(own', disk') && Owns(own', disk', inum, addrs')
    && OthersKept(own, disk, own', disk', inum) && Extends(disk, addrs, disk', addrs')
  }

  /** A block for pointer slot k of the inode itself, allocated if missing. */
  method AllocDirect(bc: Cache, inum: nat, addrs: Addrs, k: nat, ghost own: Owners)
    returns (addrs': Addrs, r: Option<nat>, ghost own': Owners)
    requires bc.Ready(1) && OwnOk(own, bc.disk) && Owns(own, bc.disk, inum, addrs) && k <= NDIRECT
    modifies bc
    ensures bc.Valid() && Kept(old(bc.slots), bc.slots)
    ensures Mapped(own, old(bc.disk), own', bc.disk, inum, addrs, addrs')
    ensures r.Some? ==> r.value == addrs'[k] != 0
    ensures r.None? ==> Full(bc.disk) && addrs'[k] == 0
    ensures r.Some? <==> addrs[k] != 0 || Room(old(bc.disk)) > 0
    ensures r.None? || addrs[k] != 0 ==> bc.disk == old(bc.disk) && addrs' == addrs
    ensures r.Some? && addrs[k] == 0 ==> Room(bc.disk) + 1 == Room(old(bc.disk))
    ensures r.Some? ==> Ptrs(bc.disk, addrs') == Ptrs(old(bc.disk), addrs) + {k}
  {
    hide FirstFree, Marked, SetMark, Fresh, BlockAlloc.Full, Room, PtrAt;
    addrs', own' := addrs, own;
    FullRoom(bc.disk);
    if addrs[k] != 0 {
      PtrThere(bc.disk, addrs, k);
      ExtendsSelf(bc.disk, addrs);
      return addrs', Some(addrs[k]), own';
    }
    r := Balloc(bc);
    if r.Some? {
      FreshIs(old(bc.disk), r.value);
      DirectFresh(own, old(bc.disk), inum, addrs, k, r.value);
      RoomFresh(old(bc.disk), r.value);
      NotIndirect(own, old(bc.disk), inum, addrs, r.value);
      DirectPtrs(old(bc.disk), addrs, k, r.value);
      addrs' := addrs[k := r.value];
      own' := own[r.value := (inum, k)];
    } else {
      ExtendsSelf(bc.disk, addrs);
    }
  }

  lemma PtrThere(disk: Disk, addrs: Addrs, k: nat)
    requires k <= NDIRECT && addrs[k] != 0
    ensures Ptrs(disk, addrs) + {k} == Ptrs(disk, addrs)
  {
    assert PtrAt(disk, addrs, k) == addrs[k];
  }

  lemma NotIndirect(own: Owners, disk: Disk, inum: nat, addrs: Addrs, b: nat)
    requires OwnOk(own, disk) && Owns(own, disk, inum, addrs) && FirstFree(disk, b)
    ensures b != addrs[NDIRECT] && (addrs[NDIRECT] != 0 ==> DATASTART <= addrs[NDIRECT] < FSSIZE)
  {
    hide Marked;
    if addrs[NDIRECT] != 0 { IndirectBlock(own, disk, inum, addrs); }
  }

  lemma FreshIs(disk: Disk, b: nat)
    requires FirstFree(disk, b)
    ensures DATASTART <= b < FSSIZE && Fresh(disk, b) == SetMark(disk, b, true)[b := ZeroBlock()]
  {
  }

  lemma ExtendsSelf(disk: Disk, addrs: Addrs)
    ensures Extends(disk, addrs, disk, addrs)
  {
  }

  lemma OthersSelf(own: Owners, disk: Disk, inum: nat)
    requires OwnOk(own, disk)
    ensures OthersKept(own, disk, own, disk, inum)
  {
  }

  lemma MappedTrans(o1: Owners, d1: Disk, o2: Owners, d2: Disk, o3: Owners, d3: Disk, inum: nat, a1: Addrs, a2: Addrs,
                    a3: Addrs)
    requires Mapped(o1, d1, o2, d2, inum, a1, a2) && Mapped(o2, d2, o3, d3, inum, a2, a3)
    ensures Mapped(o1, d1, o3, d3, inum, a1, a3)
  {
    ExtendsTrans(d1, a1, d2, a2, d3, a3);
  }

  /** A block for word j of the indirect block, which stays pinned meanwhile. */
  method AllocIndirect(bc: Cache, inum: nat, addrs: Addrs, j: nat, ghost own: Owners)
    returns (r: Option<nat>, ghost own': Owners)
    requires bc.Ready(2) && OwnOk(own, bc.disk) && Owns(own, bc.disk, inum, addrs)
    requires j < NINDIRECT && addrs[NDIRECT] != 0
    modifies bc
    ensures bc.Valid() && Kept(old(bc.slots), bc.slots)
    ensures Mapped(own, old(bc.disk), own', bc.disk, inum, addrs, addrs)
    ensures r.Some? ==> r.value == PtrAt(bc.disk, addrs, NDIRECT + 1 + j) != 0
    ensures r.None? ==> Full(bc.disk)
    ensures var there := PtrAt(old(bc.disk), addrs, NDIRECT + 1 + j) != 0;
            && (r.Some? <==> there || Room(old(bc.disk)) > 0)
            && (r.None? || there ==> bc.disk == old(bc.disk))
            && (r.Some? && !there ==> Room(bc.disk) + 1 == Room(old(bc.disk)))
    ensures r.Some? ==> Ptrs(bc.disk, addrs) == Ptrs(old(bc.disk), addrs) + {NDIRECT + 1 + j}
  {
    hide FirstFree, Marked, SetMark, Fresh, BlockAlloc.Full, U32At, PutU32, Extends, Owns, OwnOk, OthersKept, Unique,
      Coherent, Room, Ptrs;
    FullRoom(bc.disk);
    own' := own;
    var ind := addrs[NDIRECT];
    IndirectOnDisk(own, bc.disk, inum, addrs);
    assert PtrAt(bc.disk, addrs, NDIRECT) == ind;
    var i := bc.Pin(ind);
    ghost var pinned := bc.slots;
    var b := U32At(bc.slots[i].data, j * 4);
    assert b == PtrAt(bc.disk, addrs, NDIRECT + 1 + j);
    r := Some(b);
    ExtendsSelf(bc.disk, addrs);
    OthersSelf(own, bc.disk, inum);
    WordThere(bc.disk, addrs, j);
    if b == 0 {
      r := Balloc(bc);
      assert bc.Pins(i, ind);
      if r.Some? {
        FreshIs(old(bc.disk), r.value);
        IndirectFresh(own, old(bc.disk), inum, addrs, j, r.value);
        RoomFresh(old(bc.disk), r.value);
        PinnedData(bc.slots, bc.disk, i);
        bc.Bwrite(i, PutU32(bc.slots[i].data, j * 4, r.value), ind);
        RoomData(Fresh(old(bc.disk), r.value), bc.disk, ind);
        WordPtrs(old(bc.disk), bc.disk, addrs, j, r.value);
        own' := own[r.value := (inum, NDIRECT + 1 + j)];
      }
    }
    ghost var worked := bc.slots;
    bc.Brelse(i);
    KeptAcross(old(bc.slots), pinned, worked, bc.slots, i);
  }

  lemma WordThere(disk: Disk, addrs: Addrs, j: nat)
    requires j < NINDIRECT
    ensures PtrAt(disk, addrs, NDIRECT + 1 + j) != 0 ==> Ptrs(disk, addrs) + {NDIRECT + 1 + j} == Ptrs(disk, addrs)
  {
    hide PtrAt;
  }

  /** Writing one data block leaves the number of free blocks. */
  lemma RoomData(disk: Disk, disk': Disk, b: nat)
    requires DATASTART <= b < FSSIZE && disk' == disk[b := disk'[b]]
    ensures Room(disk') == Room(disk)
  {
    hide Marked, Room;
    forall c | DATASTART <= c < FSSIZE ensures Marked(disk', c) == Marked(disk, c) { DataMark(disk, b, disk'[b], c); }
    RoomSame(disk, disk');
  }

  /** The block behind logical block bn, allocated if missing. A failure means bn is
      beyond the largest file or the disk is full; what was allocated on the way
      stays with the file. */
  method BmapAlloc(bc: Cache, inum: nat, addrs: Addrs, bn: nat, ghost own: Owners)
    returns (addrs': Addrs, r: Option<nat>, ghost own': Owners)
    requires bc.Ready(2) && OwnOk(own, bc.disk) && Owns(own, bc.disk, inum, addrs)
    modifies bc
    ensures bc.Valid() && Kept(old(bc.slots), bc.slots)
    ensures Mapped(own, old(bc.disk), own', bc.disk, inum, addrs, addrs')
    ensures r.Some? ==> bn < MAXFILE && r.value == PtrAt(bc.disk, addrs', Slot(bn)) != 0
    ensures r.None? ==> bn >= MAXFILE || Full(bc.disk)
    ensures bn < MAXFILE ==>
      var ptrs, room := Ptrs(old(bc.disk), addrs), Room(old(bc.disk));
      && (r.Some? <==> Missing(ptrs, bn) <= room)
      && (r.Some? ==> Room(bc.disk) + Missing(ptrs, bn) == room && Ptrs(bc.disk, addrs') == WithBlock(ptrs, bn))
      && (r.None? ==> Room(bc.disk) == 0 && Ptrs(bc.disk, addrs') == (if room == 0 then ptrs else ptrs + {NDIRECT}))
      && (r.None? ==> (addrs' != addrs <==> room > 0))
      && (addrs' != addrs ==> room > 0 && (bn < NDIRECT || NDIRECT !in ptrs))
      && (Missing(ptrs, bn) == 0 ==> addrs' == addrs)
      && (r.Some? && Missing(ptrs, bn) > 0 && (bn < NDIRECT || NDIRECT !in ptrs) ==> addrs' != addrs)
  {
    hide Extends, Owns, OwnOk, OthersKept, Unique, Coherent, BlockAlloc.Full, Room, PtrAt, Ptrs;
    FullRoom(bc.disk);
    PtrIn(bc.disk, addrs, Slot(bn));
    PtrIn(bc.disk, addrs, NDIRECT);
    if bn < NDIRECT {
      addrs', r, own' := AllocDirect(bc, inum, addrs, bn, own);
      PtrIn(bc.disk, addrs', bn);
      return;
    }
    var n := bn - NDIRECT;
    if n < NINDIRECT {
      addrs', r, own' := AllocDirect(bc, inum, addrs, NDIRECT, own);
      if r.None? {
        return;
      }
      ghost var mid, midOwn := bc.disk, own';
      PtrIn(mid, addrs', Slot(bn));
      FullRoom(mid);
      r, own' := AllocIndirect(bc, inum, addrs', n, own');
      MappedTrans(own, old(bc.disk), midOwn, mid, own', bc.disk, inum, addrs, addrs', addrs');
      return;
    }
    ExtendsSelf(bc.disk, addrs);
    OthersSelf(own, bc.disk, inum);
    return addrs, None, own;
  }

  lemma PtrIn(disk: Disk, addrs: Addrs, k: nat)
    ensures k < NPTR ==> (k in Ptrs(disk, addrs) <==> PtrAt(disk, addrs, k) != 0)
    ensures k <= NDIRECT ==> PtrAt(disk, addrs, k) == addrs[k]
  {
  }

  // ---- Truncation -------------------------------------------------------------------

  /** Some pointer slot in `ks` holds b. */
  ghost predicate PointsTo(disk: Disk, addrs: Addrs, ks: set<nat>, b: nat) {
    exists k :: k in ks && k < NPTR && PtrAt(disk, addrs, k) == b
  }

  /** Exactly the blocks behind the slots `ks` lost their mark; nothing else changed. */
  ghost predicate Freed(disk: Disk, disk': Disk, addrs: Addrs, ks: set<nat>) {
    && (forall b :: DATASTART <= b < FSSIZE ==>
      (Marked(disk', b) <==> Marked(disk, b) && !PointsTo(disk, addrs, ks, b)))
    && (forall b :: 0 <= b < FSSIZE && !(BMAPSTART <= b < DATASTART) ==> disk'[b] == disk[b])
  }

  lemma PointsPlus(disk: Disk, addrs: Addrs, ks: set<nat>, k: nat, c: nat)
    requires k < NPTR
    ensures PointsTo(disk, addrs, ks + {k}, c) <==> PointsTo(disk, addrs, ks, c) || PtrAt(disk, addrs, k) == c
  {
    hide PtrAt;
    if PtrAt(disk, addrs, k) == c { assert k in ks + {k}; }
    if PointsTo(disk, addrs, ks, c) {
      var j :| j in ks && j < NPTR && PtrAt(disk, addrs, j) == c;
      assert j in ks + {k};
    }
  }

  /** Freeing the block behind one more slot is possible, and frees just that. */
  lemma FreeOne(own: Owners, disk: Disk, disk': Disk, inum: nat, addrs: Addrs, ks: set<nat>, k: nat)
    requires OwnOk(own, disk) && Owns(own, disk, inum, addrs) && Freed(disk, disk', addrs, ks)
    requires k < NPTR && k !in ks && PtrAt(disk, addrs, k) != 0
    ensures var b := PtrAt(disk, addrs, k);
            && DATASTART <= b < FSSIZE && Marked(disk', b)
            && Freed(disk, SetMark(disk', b, false), addrs, ks + {k})
  {
    hide Marked, SetMark, PtrAt, PointsTo;
    var b := PtrAt(disk, addrs, k);
    assert OwnsAt(own, disk, inum, addrs, k);
    assert !PointsTo(disk, addrs, ks, b) by { NotPointed(own, disk, inum, addrs, ks, k); }
    forall c | 0 <= c < FSSIZE
      ensures DATASTART <= c ==> (PointsTo(disk, addrs, ks + {k}, c) <==> PointsTo(disk, addrs, ks, c) || c == b)
      ensures Marked(SetMark(disk', b, false), c) == (c != b && Marked(disk', c))
      ensures !(BMAPSTART <= c < DATASTART) ==> SetMark(disk', b, false)[c] == disk'[c]
    {
      MarkPut(disk', b, false, c);
      PointsPlus(disk, addrs, ks, k, c);
    }
  }

  /** Two slots of a file never hold the same block. */
  lemma NotPointed(own: Owners, disk: Disk, inum: nat, addrs: Addrs, ks: set<nat>, k: nat)
    requires Owns(own, disk, inum, addrs) && k < NPTR && k !in ks && PtrAt(disk, addrs, k) != 0
    ensures !PointsTo(disk, addrs, ks, PtrAt(disk, addrs, k))
  {
    hide PtrAt;
    assert OwnsAt(own, disk, inum, addrs, k);
    forall j | j in ks && j < NPTR ensures PtrAt(disk, addrs, j) != PtrAt(disk, addrs, k) {
      assert OwnsAt(own, disk, inum, addrs, j);
    }
  }

  lemma FreeNone(disk: Disk, disk': Disk, addrs: Addrs, ks: set<nat>, k: nat)
    requires Freed(disk, disk', addrs, ks) && k < NPTR && PtrAt(disk, addrs, k) == 0
    ensures Freed(disk, disk', addrs, ks + {k})
  {
    hide PtrAt, PointsTo, Marked;
    forall c | DATASTART <= c < FSSIZE
      ensures PointsTo(disk, addrs, ks + {k}, c) <==> PointsTo(disk, addrs, ks, c)
    {
      PointsPlus(disk, addrs, ks, k, c);
    }
  }

  ghost function Slots(lo: nat, hi: nat): (ks: set<nat>)
    ensures forall k :: k in ks <==> lo <= k < hi
    decreases hi
  {
    if lo >= hi then {} else Slots(lo, hi - 1) + {hi - 1}
  }

  ghost function AllSlots(): set<nat> { Slots(0, NPTR) }

  /** The direct pointers, in order. */
  method FreeDirect(bc: Cache, addrs: Addrs, ghost own: Owners, ghost inum: nat) returns (addrs': Addrs)
    requires bc.Ready(1) && OwnOk(own, bc.disk) && Owns(own, bc.disk, inum, addrs)
    modifies bc
    ensures bc.Valid() && Kept(old(bc.slots), bc.slots)
    ensures Freed(old(bc.disk), bc.disk, addrs, Slots(0, NDIRECT))
    ensures addrs'[NDIRECT] == addrs[NDIRECT] && forall k :: 0 <= k < NDIRECT ==> addrs'[k] == 0
  {
    hide Marked, SetMark, Owns, OwnOk, Freed, Unique, Coherent;
    addrs' := addrs;
    FreedNothing(bc.disk, addrs);
    for i := 0 to NDIRECT
      invariant bc.Ready(1) && Kept(old(bc.slots), bc.slots)
      invariant Freed(old(bc.disk), bc.disk, addrs, Slots(0, i))
      invariant forall k :: 0 <= k < i ==> addrs'[k] == 0
      invariant forall k :: i <= k <= NDIRECT ==> addrs'[k] == addrs[k]
    {
      assert Slots(0, i + 1) == Slots(0, i) + {i};
      assert PtrAt(old(bc.disk), addrs, i) == addrs[i];
      if addrs'[i] != 0 {
        FreeOne(own, old(bc.disk), bc.disk, inum, addrs, Slots(0, i), i);
        Bfree(bc, addrs'[i]);
        addrs' := addrs'[i := 0];
      } else {
        FreeNone(old(bc.disk), bc.disk, addrs, Slots(0, i), i);
      }
    }
  }

  lemma FreedNothing(disk: Disk, addrs: Addrs)
    ensures Freed(disk, disk, addrs, Slots(0, 0))
  {
    assert Slots(0, 0) == {};
  }

  /** Freeing leaves the indirect block readable: its words still say what they said. */
  lemma FreedPtr(disk: Disk, disk': Disk, addrs: Addrs, ks: set<nat>, k: nat)
    requires Freed(disk, disk', addrs, ks) && k < NPTR && (addrs[NDIRECT] != 0 ==> addrs[NDIRECT] >= DATASTART)
    ensures PtrAt(disk', addrs, k) == PtrAt(disk, addrs, k)
  {
  }

  /** The words of the indirect block, which stays pinned, then the block itself. */
  method FreeIndirect(bc: Cache, addrs: Addrs, ghost own: Owners, ghost inum: nat, ghost disk0: Disk)
    requires bc.Ready(2) && OwnOk(own, disk0) && Owns(own, disk0, inum, addrs) && addrs[NDIRECT] != 0
    requires Freed(disk0, bc.disk, addrs, Slots(0, NDIRECT))
    modifies bc
    ensures bc.Valid() && Kept(old(bc.slots), bc.slots)
    ensures Freed(disk0, bc.disk, addrs, AllSlots())
  {
    hide Marked, SetMark, Owns, OwnOk, Freed, U32At, Unique, Coherent, PtrAt, Slots;
    var ind := addrs[NDIRECT];
    IndirectOnDisk(own, disk0, inum, addrs);
    assert PtrAt(disk0, addrs, NDIRECT) == ind by { PtrDirect(disk0, addrs, NDIRECT); }
    var p := bc.Pin(ind);
    ghost var pinned := bc.slots;
    ghost var ks := Slots(0, NDIRECT);
    for i := 0 to NINDIRECT
      invariant bc.Ready(1) && Kept(pinned, bc.slots) && bc.Pins(p, ind)
      invariant ks == Slots(0, NDIRECT) + Slots(NDIRECT + 1, NDIRECT + 1 + i)
      invariant Freed(disk0, bc.disk, addrs, ks)
    {
      PinnedData(bc.slots, bc.disk, p);
      var b := U32At(bc.slots[p].data, i * 4);
      ghost var k := NDIRECT + 1 + i;
      FreedPtr(disk0, bc.disk, addrs, ks, k);
      assert b == PtrAt(disk0, addrs, k) by { PtrWord(bc.disk, addrs, i); }
      if b != 0 {
        FreeOne(own, disk0, bc.disk, inum, addrs, ks, k);
        Bfree(bc, b);
      } else {
        FreeNone(disk0, bc.disk, addrs, ks, k);
      }
      assert Slots(NDIRECT + 1, k + 1) == Slots(NDIRECT + 1, k) + {k};
      ks := ks + {k};
    }
    ghost var worked := bc.slots;
    bc.Brelse(p);
    KeptAcross(old(bc.slots), pinned, worked, bc.slots, p);
    FreeOne(own, disk0, bc.disk, inum, addrs, ks, NDIRECT);
    Bfree(bc, ind);
    assert ks + {NDIRECT} == AllSlots();
  }

  lemma PtrDirect(disk: Disk, addrs: Addrs, k: nat)
    requires k <= NDIRECT
    ensures PtrAt(disk, addrs, k) == addrs[k]
  {
  }

  lemma PtrWord(disk: Disk, addrs: Addrs, i: nat)
    requires 0 < addrs[NDIRECT] < FSSIZE && i < NINDIRECT
    ensures PtrAt(disk, addrs, NDIRECT + 1 + i) == U32At(disk[addrs[NDIRECT]], i * 4)
  {
  }

  /** What is left when a file gave up all its blocks. */
  ghost function Released(own: Owners, disk: Disk): Owners {
    map b | b in own && b < FSSIZE && Marked(disk, b) :: own[b]
  }

  /** Truncation frees exactly the blocks the file owned and touches no other file. */
  lemma FreedAll(own: Owners, disk: Disk, disk': Disk, inum: nat, addrs: Addrs)
    requires OwnOk(own, disk) && Owns(own, disk, inum, addrs) && Freed(disk, disk', addrs, AllSlots())
    ensures OwnOk(Released(own, disk'), disk') && OthersKept(own, disk, Released(own, disk'), disk', inum)
  {
    hide Marked, PtrAt, Slots, PointsTo;
    forall b | b in own && own[b].0 != inum
      ensures Marked(disk', b)
    {
      OthersNotPointed(own, disk, inum, addrs, b);
    }
  }

  lemma OthersNotPointed(own: Owners, disk: Disk, inum: nat, addrs: Addrs, b: nat)
    requires Owns(own, disk, inum, addrs) && b in own && own[b].0 != inum && b != 0
    ensures !PointsTo(disk, addrs, AllSlots(), b)
  {
    hide PtrAt, Slots;
    forall k | k in AllSlots() && k < NPTR ensures PtrAt(disk, addrs, k) != b {
      assert OwnsAt(own, disk, inum, addrs, k);
    }
  }

  method FreeBlocks(bc: Cache, inum: nat, addrs: Addrs, ghost own: Owners) returns (addrs': Addrs, ghost own': Owners)
    requires bc.Ready(2) && OwnOk(own, bc.disk) && Owns(own, bc.disk, inum, addrs)
    modifies bc
    ensures bc.Valid() && Kept(old(bc.slots), bc.slots)
    ensures Freed(old(bc.disk), bc.disk, addrs, AllSlots())
    ensures OwnOk(own', bc.disk) && OthersKept(own, old(bc.disk), own', bc.disk, inum)
    ensures forall k :: 0 <= k <= NDIRECT ==> addrs'[k] == 0
    ensures Owns(own', bc.disk, inum, addrs')
  {
    hide Marked, SetMark, OwnOk, Freed, OthersKept, Unique, Coherent;
    addrs' := FreeDirect(bc, addrs, own, inum);
    if addrs'[NDIRECT] != 0 {
      FreeIndirect(bc, addrs, own, inum, old(bc.disk));
      addrs' := addrs'[NDIRECT := 0];
    } else {
      FreedRest(old(bc.disk), bc.disk, addrs);
    }
    FreedAll(own, old(bc.disk), bc.disk, inum, addrs);
    own' := Released(own, bc.disk);
  }

  lemma FreedRest(disk: Disk, disk': Disk, addrs: Addrs)
    requires Freed(disk, disk', addrs, Slots(0, NDIRECT)) && addrs[NDIRECT] == 0
    ensures Freed(disk, disk', addrs, AllSlots())
  {
    hide Marked, PointsTo;
    forall c | DATASTART <= c < FSSIZE
      ensures PointsTo(disk, addrs, AllSlots(), c) <==> PointsTo(disk, addrs, Slots(0, NDIRECT), c)
    {
      PointsDirect(disk, addrs, c);
    }
  }

  /** Without an indirect block only direct slots hold anything. */
  lemma PointsDirect(disk: Disk, addrs: Addrs, c: nat)
    requires addrs[NDIRECT] == 0 && c != 0
    ensures PointsTo(disk, addrs, AllSlots(), c) <==> PointsTo(disk, addrs, Slots(0, NDIRECT), c)
  {
    hide PtrAt;
    if PointsTo(disk, addrs, AllSlots(), c) {
      var j :| j in AllSlots() && j < NPTR && PtrAt(disk, addrs, j) == c;
      NoIndirect(disk, addrs, j);
      assert j in Slots(0, NDIRECT);
    }
    if PointsTo(disk, addrs, Slots(0, NDIRECT), c) {
      var j :| j in Slots(0, NDIRECT) && j < NPTR && PtrAt(disk, addrs, j) == c;
      assert j in AllSlots();
    }
  }

  lemma NoIndirect(disk: Disk, addrs: Addrs, j: nat)
    requires addrs[NDIRECT] == 0 && j < NPTR
    ensures j >= NDIRECT ==> PtrAt(disk, addrs, j) == 0
  {
  }
}
