/** Directories: files of 16-byte entries that behave as maps from names to inodes. */
module Directory {
  import opened Prelude
  import opened FsLayout
  import opened BufferCache
  import opened BlockAlloc
  import opened BlockMap
  import opened InodeStore
  import opened FileIo

  const ENTSIZE := 16
  const DIRSIZ := 14

  datatype Dirent = Dirent(inum: nat, name: seq<Byte>)

  /** A name as stored: cut to 14 bytes, padded with zeros. */
  function Stored(name: seq<Byte>): (s: seq<Byte>)
    ensures |s| == DIRSIZ
  {
    if |name| >= DIRSIZ then name[..DIRSIZ] else name + Zeros(DIRSIZ - |name|)
  }

  /** Two names are the same to a directory exactly when they agree on their first 14 bytes,
      a missing byte counting as NUL. */
  lemma StoredSame(a: seq<Byte>, b: seq<Byte>)
    ensures Stored(a) == Stored(b) <==> forall i :: 0 <= i < DIRSIZ ==> ByteOr0(a, i) == ByteOr0(b, i)
  {
    StoredBytes(a);
    StoredBytes(b);
  }

  function ByteOr0(name: seq<Byte>, i: nat): Byte { if i < |name| then name[i] else 0 }

  lemma StoredBytes(name: seq<Byte>)
    ensures forall i :: 0 <= i < DIRSIZ ==> Stored(name)[i] == ByteOr0(name, i)
  {
  }

  function Encode(de: Dirent): (b: seq<Byte>)
    requires de.inum < 65536 && |de.name| == DIRSIZ
    ensures |b| == ENTSIZE
  {
    [LeByte(de.inum, 0), LeByte(de.inum, 1)] + de.name
  }

  function Decode(b: seq<Byte>): Dirent
    requires |b| == ENTSIZE
  {
    var b0: int, b1: int := b[0], b[1];
    Dirent(b0 + 256 * b1, b[2..])
  }

  lemma EntryRoundTrip(de: Dirent)
    requires de.inum < 65536 && |de.name| == DIRSIZ
    ensures Decode(Encode(de)) == de
  {
    assert LeByte(de.inum, 1) == de.inum / 256 % 256;
  }

  function Count(c: seq<Byte>): nat { |c| / ENTSIZE }

  function Entry(c: seq<Byte>, i: nat): Dirent
    requires i < Count(c)
  {
    Decode(c[i * ENTSIZE..i * ENTSIZE + ENTSIZE])
  }

  predicate Names(c: seq<Byte>, i: nat, name: seq<Byte>)
    requires i < Count(c)
  {
    Entry(c, i).inum != 0 && Entry(c, i).name == Stored(name)
  }

  /** Whole entries, and no name twice among the live ones. */
  ghost predicate DirOk(c: seq<Byte>) {
    && |c| % ENTSIZE == 0
    && forall i, j :: 0 <= i < j < Count(c) && Entry(c, i).inum != 0 && Entry(c, j).inum != 0 ==>
         Entry(c, i).name != Entry(c, j).name
  }

  /** First entry from i on that carries the name; the number of entries if none does. */
  function Find(c: seq<Byte>, name: seq<Byte>, i: nat): (k: nat)
    requires i <= Count(c)
    ensures i <= k <= Count(c) && (k < Count(c) ==> Names(c, k, name))
    ensures forall j :: i <= j < k ==> !Names(c, j, name)
    decreases Count(c) - i
  {
    if i == Count(c) || Names(c, i, name) then i else Find(c, name, i + 1)
  }

  function Lookup(c: seq<Byte>, name: seq<Byte>): Option<nat> {
    var k := Find(c, name, 0);
    if k < Count(c) then Some(Entry(c, k).inum) else None
  }

  /** First unused entry from i on; the number of entries if all are live. */
  function FirstUnused(c: seq<Byte>, i: nat): (k: nat)
    requires i <= Count(c)
    ensures i <= k <= Count(c) && (k < Count(c) ==> Entry(c, k).inum == 0)
    ensures forall j :: i <= j < k ==> Entry(c, j).inum != 0
    decreases Count(c) - i
  {
    if i == Count(c) || Entry(c, i).inum == 0 then i else FirstUnused(c, i + 1)
  }

  /** The directory with entry `de` written at position k. */
  function WithEntry(c: seq<Byte>, k: nat, de: Dirent): seq<Byte>
    requires de.inum < 65536 && |de.name| == DIRSIZ
  {
    Written(c, k * ENTSIZE, Encode(de))
  }

  // ---- Directories are maps ---------------------------------------------------------

  /** In a well-formed directory a name is looked up to an inode exactly when some
      live entry says so. */
  lemma LookupIsMap(c: seq<Byte>, name: seq<Byte>, inum: nat)
    requires DirOk(c)
    ensures Lookup(c, name) == Some(inum) <==>
            exists i :: 0 <= i < Count(c) && Names(c, i, name) && Entry(c, i).inum == inum
  {
    hide Entry, Stored;
    var k := Find(c, name, 0);
    if i :| 0 <= i < Count(c) && Names(c, i, name) && Entry(c, i).inum == inum {
      assert k <= i;
    }
  }

  lemma EntryAfter(c: seq<Byte>, k: nat, de: Dirent, i: nat)
    requires |c| % ENTSIZE == 0 && k <= Count(c) && de.inum < 65536 && |de.name| == DIRSIZ
    requires i <= Count(c) && (i < Count(c) || i == k)
    ensures var c' := WithEntry(c, k, de);
            && |c'| % ENTSIZE == 0 && Count(c') == (if k == Count(c) then k + 1 else Count(c))
            && Entry(c', i) == if i == k then de else Entry(c, i)
  {
    var c', e := WithEntry(c, k, de), Encode(de);
    EntryRoundTrip(de);
    assert |c| == Count(c) * ENTSIZE;
    assert c' == c[..k * ENTSIZE] + e + if k < Count(c) then c[k * ENTSIZE + ENTSIZE..] else [];
    if i == k {
      assert c'[i * ENTSIZE..i * ENTSIZE + ENTSIZE] == e;
    } else {
      assert c'[i * ENTSIZE..i * ENTSIZE + ENTSIZE] == c[i * ENTSIZE..i * ENTSIZE + ENTSIZE];
    }
  }

  /** Linking a new name keeps the directory well formed, makes that name resolve to
      the new inode and changes no other name. */
  lemma LinkIsInsert(c: seq<Byte>, name: seq<Byte>, inum: nat, other: seq<Byte>)
    requires DirOk(c) && Lookup(c, name) == None && 0 < inum < 65536
    ensures var c' := WithEntry(c, FirstUnused(c, 0), Dirent(inum, Stored(name)));
            && DirOk(c')
            && Lookup(c', other) == if Stored(other) == Stored(name) then Some(inum) else Lookup(c, other)
  {
    hide WithEntry, Entry, Stored;
    var k, de := FirstUnused(c, 0), Dirent(inum, Stored(name));
    var c' := WithEntry(c, k, de);
    StoredLen(name);
    EntryAfter(c, k, de, k);
    forall i | 0 <= i < Count(c)
      ensures Entry(c', i) == if i == k then de else Entry(c, i)
    {
      EntryAfter(c, k, de, i);
    }
    forall i | 0 <= i < Count(c) && Entry(c, i).inum != 0 ensures Entry(c, i).name != de.name {
      assert !Names(c, i, name);
    }
    forall target: nat
      ensures Lookup(c', other) == Some(target) <==>
        (if Stored(other) == de.name then target == inum else Lookup(c, other) == Some(target))
    {
      LinkedNames(c, c', k, de, other, target);
    }
  }

  lemma StoredLen(name: seq<Byte>)
    ensures |Stored(name)| == DIRSIZ
  {
  }

  lemma LinkedNames(c: seq<Byte>, c': seq<Byte>, k: nat, de: Dirent, other: seq<Byte>, target: nat)
    requires DirOk(c) && DirOk(c') && k <= Count(c) && de.inum != 0
    requires Count(c') == if k == Count(c) then k + 1 else Count(c)
    requires k < Count(c) ==> Entry(c, k).inum == 0
    requires Entry(c', k) == de && forall i :: 0 <= i < Count(c) && i != k ==> Entry(c', i) == Entry(c, i)
    requires forall i :: 0 <= i < Count(c) && Entry(c, i).inum != 0 ==> Entry(c, i).name != de.name
    ensures Lookup(c', other) == Some(target) <==>
            (if Stored(other) == de.name then target == de.inum else Lookup(c, other) == Some(target))
  {
    hide Entry, Stored, Lookup, DirOk;
    LookupIsMap(c, other, target);
    LookupIsMap(c', other, target);
    if i :| 0 <= i < Count(c) && Names(c, i, other) && Entry(c, i).inum == target {
      assert Names(c', i, other);
    }
    if i :| 0 <= i < Count(c') && Names(c', i, other) && Entry(c', i).inum == target {
      assert i != k ==> Names(c, i, other);
    }
    assert Stored(other) == de.name ==> Names(c', k, other);
  }

  // ---- Operations -------------------------------------------------------------------

  function Bytes(disk: Disk, ip: Inode): seq<Byte>
    requires ip.size <= MAXBYTES
  {
    Content(disk, ip.addrs, ip.size)
  }

  /** Entry i of a directory, or None past its last whole entry. */
  method ReadDirent(bc: Cache, dp: Inode, i: nat, ghost own: Owners) returns (r: Option<Dirent>)
    requires bc.Ready(1) && FileOk(own, bc.disk, dp)
    modifies bc`slots
    ensures bc.Valid() && Kept(old(bc.slots), bc.slots)
    ensures r == if i < Count(Bytes(bc.disk, dp)) then Some(Entry(Bytes(bc.disk, dp), i)) else None
  {
    hide FileOk, Kept;
    assert dp.size <= MAXBYTES by { FileSize(own, bc.disk, dp); }
    var buf := Readi(bc, dp, i * ENTSIZE, ENTSIZE, own);
    if |buf| != ENTSIZE {
      return None;
    }
    return Some(Decode(buf));
  }

  lemma FileSize(own: Owners, disk: Disk, ip: Inode)
    requires FileOk(own, disk, ip)
    ensures ip.size <= MAXBYTES
  {
  }

  method DirLookup(bc: Cache, dp: Inode, name: seq<Byte>, ghost own: Owners) returns (r: Option<nat>)
    requires bc.Ready(1) && FileOk(own, bc.disk, dp)
    modifies bc`slots
    ensures bc.Valid() && Kept(old(bc.slots), bc.slots)
    ensures r == if dp.typ == T_DIR then Lookup(Bytes(bc.disk, dp), name) else None
  {
    hide FileOk, Kept, Entry, Stored, Content;
    KeptSelf(bc.slots);
    FileSize(own, bc.disk, dp);
    if dp.typ != T_DIR {
      return None;
    }
    ghost var c := Bytes(bc.disk, dp);
    assert |c| == dp.size by { ContentLen(bc.disk, dp); }
    var i := 0;
    while i * ENTSIZE < dp.size
      invariant bc.Ready(1) && Kept(old(bc.slots), bc.slots)
      invariant i <= Count(c) && Find(c, name, 0) == Find(c, name, i)
    {
      ghost var s1 := bc.slots;
      var de := ReadDirent(bc, dp, i, own);
      KeptTrans(old(bc.slots), s1, bc.slots);
      KeptSpare(old(bc.slots), bc.slots);
      if de.None? {
        return None;
      }
      if de.value.inum != 0 && de.value.name == Stored(name) {
        return Some(de.value.inum);
      }
      i := i + 1;
    }
    return None;
  }

  lemma ContentLen(disk: Disk, ip: Inode)
    requires ip.size <= MAXBYTES
    ensures |Bytes(disk, ip)| == ip.size
  {
  }

  /** The position dirlink writes to. */
  method FindUnused(bc: Cache, dp: Inode, ghost own: Owners) returns (k: nat)
    requires bc.Ready(1) && FileOk(own, bc.disk, dp) && dp.size % ENTSIZE == 0
    modifies bc`slots
    ensures bc.Valid() && Kept(old(bc.slots), bc.slots)
    ensures k == FirstUnused(Bytes(bc.disk, dp), 0)
  {
    hide FileOk, Kept, Entry, Content;
    KeptSelf(bc.slots);
    FileSize(own, bc.disk, dp);
    ghost var c := Bytes(bc.disk, dp);
    assert |c| == dp.size by { ContentLen(bc.disk, dp); }
    k := 0;
    while k * ENTSIZE < dp.size
      invariant bc.Ready(1) && Kept(old(bc.slots), bc.slots)
      invariant k <= Count(c) && FirstUnused(c, 0) == FirstUnused(c, k)
    {
      ghost var s1 := bc.slots;
      var de := ReadDirent(bc, dp, k, own);
      KeptTrans(old(bc.slots), s1, bc.slots);
      KeptSpare(old(bc.slots), bc.slots);
      if de.value.inum == 0 {
        return;
      }
      k := k + 1;
    }
  }

  /** There is a place for one more entry below the largest size of a file. */
  ghost predicate EntryFits(c: seq<Byte>) { FirstUnused(c, 0) * ENTSIZE + ENTSIZE <= MAXBYTES }

  /** Blocks to allocate for one more entry, and the pointers then. */
  ghost function EntryCost(c: seq<Byte>, ptrs: set<nat>): nat { Missing(ptrs, FirstUnused(c, 0) * ENTSIZE / BSIZE) }

  ghost function EntryWay(c: seq<Byte>, ptrs: set<nat>): set<nat> {
    WithBlock(ptrs, FirstUnused(c, 0) * ENTSIZE / BSIZE)
  }

  lemma OneBlock(ptrs: set<nat>, size: nat, k: nat)
    requires k * ENTSIZE <= size
    ensures WriteCost(ptrs, size, k * ENTSIZE, ENTSIZE) == Missing(ptrs, k * ENTSIZE / BSIZE)
    ensures WriteWay(ptrs, size, k * ENTSIZE, ENTSIZE) == WithBlock(ptrs, k * ENTSIZE / BSIZE)
    ensures FillCost(ptrs, size, k * ENTSIZE) == 0
  {
    hide Missing, WithBlock;
    InOneBlock(k);
    var bn, ps := k * ENTSIZE / BSIZE, WithBlock(ptrs, k * ENTSIZE / BSIZE);
    assert Cost(ps, bn + 1, 0) == 0 && Way(ps, bn + 1, 0) == ps;
  }

  lemma InOneBlock(k: nat)
    ensures Blocks(k * ENTSIZE, ENTSIZE) == 1
  {
  }

  /** Adds a name, or leaves the directory as it was: the entry never straddles a
      block, so it is written whole or not at all. */
  method DirLink(bc: Cache, dp: Inode, name: seq<Byte>, inum: nat, ghost own: Owners)
    returns (dp': Inode, ok: bool, ghost own': Owners)
    requires bc.Ready(2) && FileOk(own, bc.disk, dp) && Savable(dp) && 0 < inum < 65536
    requires dp.typ == T_DIR ==> DirOk(Bytes(bc.disk, dp))
    modifies bc
    ensures bc.Valid() && Kept(old(bc.slots), bc.slots)
    ensures dp' == dp.(size := dp'.size, addrs := dp'.addrs) && FileOk(own', bc.disk, dp') && Grows(dp.addrs, dp'.addrs)
    ensures OthersSafe(own, old(bc.disk), own', bc.disk, dp.inum)
    ensures ok ==> dp.typ == T_DIR && Lookup(Bytes(old(bc.disk), dp), name) == None
    ensures var c, ptrs := Bytes(old(bc.disk), dp), Ptrs(old(bc.disk), dp.addrs);
            && (ok <==>
                  && dp.typ == T_DIR && Lookup(c, name) == None && EntryFits(c)
                  && EntryCost(c, ptrs) <= Room(old(bc.disk)))
            && (ok ==>
                  && Room(bc.disk) + EntryCost(c, ptrs) == Room(old(bc.disk))
                  && Ptrs(bc.disk, dp'.addrs) == EntryWay(c, ptrs))
    ensures !ok ==> (
      || dp.typ != T_DIR || Lookup(Bytes(old(bc.disk), dp), name).Some? || Full(bc.disk)
      || FirstUnused(Bytes(old(bc.disk), dp), 0) * ENTSIZE + ENTSIZE > MAXBYTES)
    ensures var c, c' := Bytes(old(bc.disk), dp), Bytes(bc.disk, dp');
            c' == if ok then WithEntry(c, FirstUnused(c, 0), Dirent(inum, Stored(name))) else c
    ensures DinodeOf(bc.disk, dp.inum) == if ok then ToDinode(dp') else DinodeOf(old(bc.disk), dp.inum)
  {
    hide FileOk, Kept, Entry, Content, Written, OthersSafe, DinodeOf, BlockAlloc.Full, DirOk, FirstUnused, Find, Room,
      Ptrs, WriteCost,
      WriteWay, Missing, WithBlock, Strands, FillCost;
    KeptSelf(bc.slots);
    FileSize(own, bc.disk, dp);
    ghost var c := Bytes(bc.disk, dp);
    assert |c| == dp.size by { ContentLen(bc.disk, dp); }
    SafeFile(own, bc.disk, dp);
    dp', ok, own' := dp, false, own;
    if dp.typ != T_DIR {
      return;
    }
    var existing := DirLookup(bc, dp, name, own);
    KeptSpare(old(bc.slots), bc.slots);
    if existing.Some? {
      return;
    }
    assert dp.size % ENTSIZE == 0 by { DirSize(c); }
    ghost var s1 := bc.slots;
    var k := FindUnused(bc, dp, own);
    KeptTrans(old(bc.slots), s1, bc.slots);
    KeptSpare(old(bc.slots), bc.slots);
    UnusedBound(c);
    StoredLen(name);
    OneBlock(Ptrs(bc.disk, dp.addrs), dp.size, k);
    ghost var s2 := bc.slots;
    var n;
    var de := Dirent(inum, Stored(name));
    dp', n, own' := Writei(bc, dp, k * ENTSIZE, Encode(de), own);
    KeptTrans(old(bc.slots), s2, bc.slots);
    ok := n == ENTSIZE;
    FileSize(own', bc.disk, dp');
    WholeEntry(c, Bytes(bc.disk, dp'), k, Encode(de), n);
    ContentLen(bc.disk, dp');
  }

  lemma SafeFile(own: Owners, disk: Disk, ip: Inode)
    requires FileOk(own, disk, ip)
    ensures OthersSafe(own, disk, own, disk, ip.inum)
  {
    SafeSelf(own, disk, ip.inum);
  }

  lemma DirSize(c: seq<Byte>)
    requires DirOk(c)
    ensures |c| % ENTSIZE == 0
  {
  }

  lemma UnusedBound(c: seq<Byte>)
    ensures FirstUnused(c, 0) <= Count(c)
  {
  }

  /** A 16-byte write at a multiple of 16 cannot stop in the middle. */
  lemma WholeEntry(c: seq<Byte>, c': seq<Byte>, k: nat, e: seq<Byte>, n: nat)
    requires |c| % ENTSIZE == 0 && k <= Count(c) && |e| == ENTSIZE && n <= ENTSIZE
    requires 0 < n < ENTSIZE ==> (k * ENTSIZE + n) % BSIZE == 0
    requires k * ENTSIZE + ENTSIZE > MAXBYTES ==> n == 0 && c' == c
    requires k * ENTSIZE + ENTSIZE <= MAXBYTES ==> WroteOrNot(c, c', k * ENTSIZE, e, n, true)
    ensures n == 0 || n == ENTSIZE
    ensures c' == if n == ENTSIZE then Written(c, k * ENTSIZE, e) else c
  {
    NoStraddle(k, n);
    WriteNothing(c, k * ENTSIZE);
    assert e[..0] == [] && e[..ENTSIZE] == e;
  }

  lemma NoStraddle(k: nat, n: nat)
    requires n <= ENTSIZE && (0 < n < ENTSIZE ==> (k * ENTSIZE + n) % BSIZE == 0)
    ensures n == 0 || n == ENTSIZE
  {
  }
}
