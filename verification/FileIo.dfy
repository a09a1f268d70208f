/** Files as byte sequences: reading and writing through the block map. */
module FileIo {
  import opened Prelude
  import opened FsLayout
  import opened BufferCache
  import opened BlockAlloc
  import opened BlockMap
  import opened InodeStore

  const MAXBYTES := MAXFILE * BSIZE

  function Min(a: nat, b: nat): nat { if a <= b then a else b }

  function BlockAt(disk: Disk, addrs: Addrs, bn: nat): nat
    requires bn < MAXFILE
  {
    PtrAt(disk, addrs, Slot(bn))
  }

  /** Byte i of the file. */
  function ByteAt(disk: Disk, addrs: Addrs, i: nat): Byte
    requires i < MAXBYTES
  {
    var b := BlockAt(disk, addrs, i / BSIZE);
    if b < FSSIZE then disk[b][i % BSIZE] else 0
  }

  /** No holes: every byte below `size` has a block. */
  ghost predicate Dense(disk: Disk, addrs: Addrs, size: nat) {
    size <= MAXBYTES && forall bn :: 0 <= bn < MAXFILE && bn * BSIZE < size ==> BlockAt(disk, addrs, bn) != 0
  }

  /** Everything a file promises its users. */
  ghost predicate FileOk(own: Owners, disk: Disk, ip: Inode) {
    OwnOk(own, disk) && Owns(own, disk, ip.inum, ip.addrs) && Dense(disk, ip.addrs, ip.size)
  }

  function Content(disk: Disk, addrs: Addrs, size: nat): (c: seq<Byte>)
    requires size <= MAXBYTES
    ensures |c| == size && forall i :: 0 <= i < size ==> c[i] == ByteAt(disk, addrs, i)
  {
    if size == 0 then [] else Content(disk, addrs, size - 1) + [ByteAt(disk, addrs, size - 1)]
  }

  lemma Split(i: nat)
    ensures i == i / BSIZE * BSIZE + i % BSIZE
    ensures i < MAXBYTES ==> i / BSIZE < MAXFILE
  {
  }

  lemma Join(bn: nat, o: nat)
    requires o < BSIZE
    ensures (bn * BSIZE + o) / BSIZE == bn && (bn * BSIZE + o) % BSIZE == o
    ensures bn < MAXFILE ==> bn * BSIZE + o < MAXBYTES
  {
  }

  /** The bytes of logical block bn are those of the disk block behind it. */
  lemma BlockBytes(disk: Disk, addrs: Addrs, bn: nat, o: nat)
    requires bn < MAXFILE && o < BSIZE
    ensures bn * BSIZE + o < MAXBYTES
    ensures var b := BlockAt(disk, addrs, bn);
            ByteAt(disk, addrs, bn * BSIZE + o) == if b < FSSIZE then disk[b][o] else 0
  {
    Join(bn, o);
  }

  /** A byte inside the file lies in a data block. */
  lemma DenseAt(own: Owners, disk: Disk, ip: Inode, i: nat)
    requires FileOk(own, disk, ip) && i < ip.size
    ensures i < MAXBYTES && i / BSIZE < MAXFILE && ip.addrs[NDIRECT] < FSSIZE
    ensures DATASTART <= BlockAt(disk, ip.addrs, i / BSIZE) < FSSIZE
  {
    Split(i);
    IndirectOnDisk(own, disk, ip.inum, ip.addrs);
    assert PtrAt(disk, ip.addrs, NDIRECT) == ip.addrs[NDIRECT];
  }

  // ---- Reading ----------------------------------------------------------------

  /** Reads at most n bytes at `off`: exactly the bytes of the file, stopping at its
      end, and never meeting a hole. */
  method Readi(bc: Cache, ip: Inode, off: nat, n: nat, ghost own: Owners) returns (dst: seq<Byte>)
    requires bc.Ready(1) && FileOk(own, bc.disk, ip)
    modifies bc`slots
    ensures bc.Valid() && Kept(old(bc.slots), bc.slots)
    ensures dst == if off >= ip.size then [] else Content(bc.disk, ip.addrs, ip.size)[off..off + Min(n, ip.size - off)]
  {
    hide FileOk, PtrAt, Kept;
    KeptSelf(bc.slots);
    if off >= ip.size {
      return [];
    }
    var len := Min(n, ip.size - off);
    dst := [];
    DenseAt(own, bc.disk, ip, ip.size - 1);
    while |dst| < len
      invariant bc.Ready(1) && Kept(old(bc.slots), bc.slots) && |dst| <= len
      invariant forall i :: 0 <= i < |dst| ==> dst[i] == ByteAt(bc.disk, ip.addrs, off + i)
    {
      var cur := off + |dst|;
      var bn, boff := cur / BSIZE, cur % BSIZE;
      var m := Min(len - |dst|, BSIZE - boff);
      DenseAt(own, bc.disk, ip, cur);
      ghost var s1 := bc.slots;
      var b := BmapLookup(bc, ip.addrs, bn);
      ghost var s2 := bc.slots;
      KeptSpare(s1, s2);
      var data := bc.ReadBlock(b.value);
      KeptSpare(s2, bc.slots);
      KeptTrans(s1, s2, bc.slots);
      KeptTrans(old(bc.slots), s1, bc.slots);
      var chunk := data[boff..boff + m];
      ChunkBytes(bc.disk, ip.addrs, cur, m);
      dst := dst + chunk;
    }
  }

  /** Part of one block is part of the file. */
  lemma ChunkBytes(disk: Disk, addrs: Addrs, cur: nat, m: nat)
    requires cur + m <= MAXBYTES && cur % BSIZE + m <= BSIZE && cur / BSIZE < MAXFILE
    requires BlockAt(disk, addrs, cur / BSIZE) < FSSIZE
    ensures var chunk := disk[BlockAt(disk, addrs, cur / BSIZE)][cur % BSIZE..cur % BSIZE + m];
            |chunk| == m && forall i :: 0 <= i < m ==> chunk[i] == ByteAt(disk, addrs, cur + i)
  {
    hide BlockAt, ByteAt;
    var chunk := disk[BlockAt(disk, addrs, cur / BSIZE)][cur % BSIZE..cur % BSIZE + m];
    Split(cur);
    forall i | 0 <= i < m ensures chunk[i] == ByteAt(disk, addrs, cur + i) {
      BlockBytes(disk, addrs, cur / BSIZE, cur % BSIZE + i);
    }
  }

  // ---- Writing ----------------------------------------------------------------

  ghost predicate RewrittenAt(disk: Disk, addrs: Addrs, disk': Disk, addrs': Addrs, lo: nat, data: seq<Byte>, i: nat)
    requires i < MAXBYTES
  {
    var bn := i / BSIZE;
    if lo <= i < lo + |data| then
      BlockAt(disk', addrs', bn) != 0 && ByteAt(disk', addrs', i) == data[i - lo]
    else
      BlockAt(disk, addrs, bn) != 0 ==>
        BlockAt(disk', addrs', bn) == BlockAt(disk, addrs, bn) && ByteAt(disk', addrs', i) == ByteAt(disk, addrs, i)
  }

  /** Bytes lo..lo + |data| are now `data`; every other byte that had a block has the
      block and the value it had. */
  ghost predicate Rewritten(disk: Disk, addrs: Addrs, disk': Disk, addrs': Addrs, lo: nat, data: seq<Byte>) {
    forall i :: 0 <= i < MAXBYTES ==> RewrittenAt(disk, addrs, disk', addrs', lo, data, i)
  }

  lemma RewrittenMore(d1: Disk, a1: Addrs, d2: Disk, a2: Addrs, d3: Disk, a3: Addrs, lo: nat, x: seq<Byte>,
                      y: seq<Byte>)
    requires Rewritten(d1, a1, d2, a2, lo, x) && Rewritten(d2, a2, d3, a3, lo + |x|, y)
    ensures Rewritten(d1, a1, d3, a3, lo, x + y)
  {
    hide BlockAt, ByteAt;
    forall i | 0 <= i < MAXBYTES
      ensures RewrittenAt(d1, a1, d3, a3, lo, x + y, i)
    {
      assert RewrittenAt(d1, a1, d2, a2, lo, x, i) && RewrittenAt(d2, a2, d3, a3, lo + |x|, y, i);
    }
  }

  lemma RewrittenNone(disk: Disk, addrs: Addrs, lo: nat)
    ensures Rewritten(disk, addrs, disk, addrs, lo, [])
  {
  }

  /** Allocating leaves the file's bytes alone. */
  lemma ExtendsRewrites(own: Owners, disk: Disk, inum: nat, addrs: Addrs, disk': Disk, addrs': Addrs, lo: nat)
    requires OwnOk(own, disk) && Owns(own, disk, inum, addrs) && Extends(disk, addrs, disk', addrs')
    ensures Rewritten(disk, addrs, disk', addrs', lo, [])
  {
    hide PtrAt;
    IndirectOnDisk(own, disk, inum, addrs);
    forall i | 0 <= i < MAXBYTES
      ensures RewrittenAt(disk, addrs, disk', addrs', lo, [], i)
    {
      Split(i);
      assert ExtendsAt(disk, addrs, disk', addrs', Slot(i / BSIZE));
    }
  }

  /** `data` laid over block `was` at offset o. */
  function Overlay(was: Block, o: nat, data: seq<Byte>): Block
    requires o + |data| <= BSIZE
  {
    was[..o] + data + was[o + |data|..]
  }

  /** Writing the block behind logical block bn changes those bytes of this file,
      because no other pointer reaches that block. */
  lemma ChunkRewrites(own: Owners, disk: Disk, inum: nat, addrs: Addrs, bn: nat, o: nat, data: seq<Byte>)
    requires OwnOk(own, disk) && Owns(own, disk, inum, addrs)
    requires bn < MAXFILE && BlockAt(disk, addrs, bn) != 0 && o + |data| <= BSIZE
    ensures var b := BlockAt(disk, addrs, bn);
            && DATASTART <= b < FSSIZE
            && var disk' := disk[b := Overlay(disk[b], o, data)];
            && OwnOk(own, disk') && Owns(own, disk', inum, addrs) && OthersKept(own, disk, own, disk', inum)
            && Rewritten(disk, addrs, disk', addrs, bn * BSIZE + o, data)
            && Ptrs(disk', addrs) == Ptrs(disk, addrs) && Room(disk') == Room(disk)
  {
    hide Marked, U32At;
    var b := BlockAt(disk, addrs, bn);
    IndirectOnDisk(own, disk, inum, addrs);
    var disk' := disk[b := Overlay(disk[b], o, data)];
    assert OwnsAt(own, disk, inum, addrs, Slot(bn));
    forall c | c in own ensures Marked(disk', c) {
      DataMark(disk, b, disk'[b], c);
    }
    assert addrs[NDIRECT] != b by {
      assert OwnsAt(own, disk, inum, addrs, NDIRECT);
    }
    forall k | 0 <= k < NPTR
      ensures OwnsAt(own, disk', inum, addrs, k) && PtrAt(disk', addrs, k) == PtrAt(disk, addrs, k)
    {
      assert OwnsAt(own, disk, inum, addrs, k);
    }
    RoomData(disk, disk', b);
    var lo := bn * BSIZE + o;
    forall i | 0 <= i < MAXBYTES
      ensures RewrittenAt(disk, addrs, disk', addrs, lo, data, i)
    {
      Split(i);
      assert OwnsAt(own, disk, inum, addrs, Slot(i / BSIZE));
      if i / BSIZE != bn {
        assert !(lo <= i < lo + |data|);
      }
    }
  }

  /** The file after part of a write: its pointers are its own, nobody else's changed. */
  ghost predicate Touched(own: Owners, disk: Disk, own': Owners, disk': Disk, inum: nat, addrs': Addrs) {
    OwnOk(own', disk') && Owns(own', disk', inum, addrs') && OthersKept(own, disk, own', disk', inum)
  }

  lemma TouchedTrans(o1: Owners, d1: Disk, o2: Owners, d2: Disk, o3: Owners, d3: Disk, inum: nat, a2: Addrs, a3: Addrs)
    requires Touched(o1, d1, o2, d2, inum, a2) && Touched(o2, d2, o3, d3, inum, a3)
    ensures Touched(o1, d1, o3, d3, inum, a3)
  {
  }

  // ---- What a write costs -----------------------------------------------------------------

  /** Blocks that n bytes at `off` touch. */
  function Blocks(off: nat, n: nat): nat { if n == 0 then 0 else (off + n - 1) / BSIZE - off / BSIZE + 1 }

  lemma NextBlock(cur: nat, left: nat, m: nat)
    requires left > 0 && m == Min(left, BSIZE - cur % BSIZE)
    ensures m > 0 && Blocks(cur, left) == 1 + Blocks(cur + m, left - m)
    ensures left > m ==> (cur + m) / BSIZE == cur / BSIZE + 1 && (cur + m) % BSIZE == 0
  {
    Split(cur);
  }

  /** Blocks to allocate for logical blocks bn .. bn + k, one after the other. */
  ghost function Cost(ptrs: set<nat>, bn: nat, k: nat): nat
    decreases k
  {
    if k == 0 then 0 else Missing(ptrs, bn) + Cost(WithBlock(ptrs, bn), bn + 1, k - 1)
  }

  ghost function Way(ptrs: set<nat>, bn: nat, k: nat): set<nat>
    decreases k
  {
    if k == 0 then ptrs else Way(WithBlock(ptrs, bn), bn + 1, k - 1)
  }

  /** Allocating for logical blocks bn .. bn + k sets a pointer of the inode itself: the first
      of them that lacks something lacks such a pointer, and a block is free. */
  ghost predicate Gains(ptrs: set<nat>, bn: nat, k: nat, room: nat)
    decreases k
  {
    if k == 0 then false
    else if Missing(ptrs, bn) == 0 then Gains(ptrs, bn + 1, k - 1, room)
    else room > 0 && (bn < NDIRECT || NDIRECT !in ptrs)
  }

  /** Once the indirect block is there, only its words are missing. */
  lemma {:induction false} OnlyWords(ptrs: set<nat>, bn: nat, k: nat, room: nat)
    requires bn >= NDIRECT && NDIRECT in ptrs
    ensures !Gains(ptrs, bn, k, room)
    decreases k
  {
    if k > 0 {
      OnlyWords(ptrs, bn + 1, k - 1, room);
    }
  }

  /** One block further. */
  lemma GainsNext(ptrs: set<nat>, bn: nat, k: nat, room: nat, room': nat, changed: bool)
    requires k > 0 && room' + Missing(ptrs, bn) == room
    requires changed <==> Missing(ptrs, bn) > 0 && (bn < NDIRECT || NDIRECT !in ptrs)
    ensures changed ==> Gains(ptrs, bn, k, room)
    ensures !changed ==> (Gains(ptrs, bn, k, room) <==> Gains(WithBlock(ptrs, bn), bn + 1, k - 1, room'))
  {
    if Missing(ptrs, bn) == 0 {
      assert WithBlock(ptrs, bn) == ptrs;
    } else if !changed {
      OnlyWords(WithBlock(ptrs, bn), bn + 1, k - 1, room');
    }
  }

  lemma StaysChanged(a: Addrs, b: Addrs, c: Addrs)
    requires Grows(a, b) && Grows(b, c) && a != b
    ensures a != c
  {
    var k :| 0 <= k < |a| && a[k] != b[k];
  }

  /** One round of the write loops: a block for byte `cur`, then `data` into it. */
  method PutChunk(bc: Cache, inum: nat, addrs: Addrs, cur: nat, data: seq<Byte>, ghost own: Owners)
    returns (addrs': Addrs, ok: bool, ghost own': Owners)
    requires bc.Ready(2) && OwnOk(own, bc.disk) && Owns(own, bc.disk, inum, addrs)
    requires cur % BSIZE + |data| <= BSIZE
    modifies bc
    ensures bc.Valid() && Kept(old(bc.slots), bc.slots)
    ensures Touched(own, old(bc.disk), own', bc.disk, inum, addrs')
    ensures Rewritten(old(bc.disk), addrs, bc.disk, addrs', cur, if ok then data else []) && Grows(addrs, addrs')
    ensures !ok ==> cur >= MAXBYTES || Full(bc.disk)
    ensures cur < MAXBYTES ==>
      var ptrs, room, bn := Ptrs(old(bc.disk), addrs), Room(old(bc.disk)), cur / BSIZE;
      && (ok <==> Missing(ptrs, bn) <= room)
      && (ok ==> Room(bc.disk) + Missing(ptrs, bn) == room && Ptrs(bc.disk, addrs') == WithBlock(ptrs, bn))
      && (ok ==> (addrs' != addrs <==> Missing(ptrs, bn) > 0 && (bn < NDIRECT || NDIRECT !in ptrs)))
      && (!ok ==> (addrs' != addrs <==> room > 0))
  {
    hide Extends, Owns, OwnOk, OthersKept, Unique, Coherent, BlockAlloc.Full, Kept, PtrAt, Rewritten, Room, Ptrs,
      Missing, WithBlock;
    var bn, boff := cur / BSIZE, cur % BSIZE;
    Split(cur);
    var r;
    addrs', r, own' := BmapAlloc(bc, inum, addrs, bn, own);
    ghost var s1, d1 := bc.slots, bc.disk;
    KeptSpare(old(bc.slots), s1);
    ExtendsRewrites(own, old(bc.disk), inum, addrs, d1, addrs', cur);
    ExtendsGrows(old(bc.disk), addrs, d1, addrs');
    if r.None? {
      return addrs', false, own';
    }
    ChunkRewrites(own', d1, inum, addrs', bn, boff, data);
    var i := bc.Pin(r.value);
    ghost var s2 := bc.slots;
    bc.Bwrite(i, Overlay(bc.slots[i].data, boff, data), r.value);
    ghost var s3 := bc.slots;
    bc.Brelse(i);
    KeptAcross(s1, s2, s3, bc.slots, i);
    KeptTrans(old(bc.slots), s1, bc.slots);
    TouchedTrans(own, old(bc.disk), own', d1, own', bc.disk, inum, addrs', addrs');
    RewrittenMore(old(bc.disk), addrs, d1, addrs', bc.disk, addrs', cur, [], data);
    assert [] + data == data;
    ok := true;
  }

  /** Writes data[done..] at off + done until it is all written or a block is missing. */
  method PutAll(bc: Cache, inum: nat, addrs: Addrs, off: nat, data: seq<Byte>, ghost own: Owners)
    returns (addrs': Addrs, done: nat, ghost own': Owners)
    requires bc.Ready(2) && OwnOk(own, bc.disk) && Owns(own, bc.disk, inum, addrs) && off + |data| <= MAXBYTES
    modifies bc
    ensures bc.Valid() && Kept(old(bc.slots), bc.slots)
    ensures Touched(own, old(bc.disk), own', bc.disk, inum, addrs')
    ensures done <= |data| && Rewritten(old(bc.disk), addrs, bc.disk, addrs', off, data[..done]) && Grows(addrs, addrs')
    ensures done < |data| ==> off + done >= MAXBYTES || Full(bc.disk)
    ensures done == |data| || (off + done) % BSIZE == 0 || done == 0
    ensures var ptrs, room, bn, k := Ptrs(old(bc.disk), addrs), Room(old(bc.disk)), off / BSIZE, Blocks(off, |data|);
            && (done == |data| <==> Cost(ptrs, bn, k) <= room)
            && (done == |data| ==>
              Room(bc.disk) + Cost(ptrs, bn, k) == room && Ptrs(bc.disk, addrs') == Way(ptrs, bn, k))
            && (done < |data| ==> (addrs' != addrs <==> Gains(ptrs, bn, k, room)))
            && (data != [] ==> (done == 0 <==> Missing(ptrs, bn) > room))
  {
    hide Owns, OwnOk, OthersKept, Unique, Coherent, BlockAlloc.Full, Kept, Rewritten, Room, Ptrs, Missing, WithBlock,
      Grows, Blocks, Accounted, Cost, Way, Gains;
    addrs', done, own' := addrs, 0, own;
    ghost var ptrs, room, b0 := Ptrs(bc.disk, addrs), Room(bc.disk), off / BSIZE;
    ghost var ps := ptrs;
    GrowsSelf(addrs);
    AccountOpen(ptrs, off, |data|, room);
    KeptSelf(bc.slots);
    OthersSelf(own, bc.disk, inum);
    RewrittenNone(bc.disk, addrs, off);
    while done < |data|
      invariant bc.Valid() && Kept(old(bc.slots), bc.slots) && done <= |data|
      invariant Touched(own, old(bc.disk), own', bc.disk, inum, addrs')
      invariant Rewritten(old(bc.disk), addrs, bc.disk, addrs', off, data[..done]) && Grows(addrs, addrs')
      invariant done == |data| || (off + done) % BSIZE == 0 || done == 0
      invariant ps == Ptrs(bc.disk, addrs')
      invariant Accounted(ptrs, off, |data|, room, ps, off + done, |data| - done, Room(bc.disk), addrs' != addrs)
      invariant done == 0 ==> ps == ptrs && Room(bc.disk) == room && addrs' == addrs
      invariant done > 0 ==> Missing(ptrs, b0) <= room
      decreases |data| - done
    {
      var cur := off + done;
      var m := Min(|data| - done, BSIZE - cur % BSIZE);
      NextBlock(cur, |data| - done, m);
      var chunk := data[done..done + m];
      ghost var s1, d1, a1, o1 := bc.slots, bc.disk, addrs', own';
      KeptSpare(old(bc.slots), s1);
      var ok;
      addrs', ok, own' := PutChunk(bc, inum, addrs', cur, chunk, own');
      KeptTrans(old(bc.slots), s1, bc.slots);
      TouchedTrans(own, old(bc.disk), o1, d1, own', bc.disk, inum, a1, addrs');
      RewrittenMore(old(bc.disk), addrs, d1, a1, bc.disk, addrs', off, data[..done], if ok then chunk else []);
      GrowsTrans(addrs, a1, addrs');
      if a1 != addrs { StaysChanged(addrs, a1, addrs'); }
      if !ok {
        AccountFails(ptrs, off, |data|, room, ps, cur, |data| - done, Room(d1), a1 != addrs);
        assert data[..done] + [] == data[..done];
        return;
      }
      AccountNext(ptrs, off, |data|, room, ps, cur, |data| - done, m, Room(d1), Room(bc.disk), a1 != addrs,
                  addrs' != a1);
      ps := Ptrs(bc.disk, addrs');
      assert data[..done] + chunk == data[..done + m];
      done := done + m;
    }
    AccountClosed(ptrs, off, |data|, room, ps, off + done, Room(bc.disk), addrs' != addrs);
  }

  /** Where a write of n bytes at `off` stands: with pointers ps and `now` free blocks, `left` bytes
      at `cur` remain, and `changed` says whether a pointer of the inode was set. */
  ghost predicate Accounted(ptrs: set<nat>, off: nat, n: nat, room: nat, ps: set<nat>, cur: nat, left: nat, now: nat,
                            changed: bool) {
    var b0, k0, bn, k := off / BSIZE, Blocks(off, n), cur / BSIZE, Blocks(cur, left);
    && now - Cost(ps, bn, k) == room - Cost(ptrs, b0, k0) && Way(ps, bn, k) == Way(ptrs, b0, k0)
    && if changed then Gains(ptrs, b0, k0, room) else Gains(ptrs, b0, k0, room) == Gains(ps, bn, k, now)
  }

  lemma AccountOpen(ptrs: set<nat>, off: nat, n: nat, room: nat)
    ensures Accounted(ptrs, off, n, room, ptrs, off, n, room, false)
  {
  }

  lemma AccountNext(ptrs: set<nat>, off: nat, n: nat, room: nat, ps: set<nat>, cur: nat, left: nat, m: nat,
                    now: nat, now': nat, changed: bool, here: bool)
    requires Accounted(ptrs, off, n, room, ps, cur, left, now, changed)
    requires left > 0 && m == Min(left, BSIZE - cur % BSIZE)
    requires now' + Missing(ps, cur / BSIZE) == now
    requires here <==> Missing(ps, cur / BSIZE) > 0 && (cur / BSIZE < NDIRECT || NDIRECT !in ps)
    ensures m <= left
    ensures Accounted(ptrs, off, n, room, WithBlock(ps, cur / BSIZE), cur + m, left - m, now', changed || here)
  {
    hide Cost, Way, Gains, Missing, WithBlock, Blocks;
    SomeTouched(cur, left);
    GainsNext(ps, cur / BSIZE, Blocks(cur, left), now, now', here);
    PastEnd(ps, cur, left, m, now');
  }

  lemma AccountFails(ptrs: set<nat>, off: nat, n: nat, room: nat, ps: set<nat>, cur: nat, left: nat, now: nat,
                     changed: bool)
    requires Accounted(ptrs, off, n, room, ps, cur, left, now, changed) && left > 0 && Missing(ps, cur / BSIZE) > now
    ensures Cost(ptrs, off / BSIZE, Blocks(off, n)) > room
    ensures Gains(ptrs, off / BSIZE, Blocks(off, n), room) <==> changed || now > 0
  {
    hide Cost, Way, Gains, Missing, Blocks;
    SomeTouched(cur, left);
    GainsFail(ps, cur / BSIZE, Blocks(cur, left), now);
  }

  lemma AccountClosed(ptrs: set<nat>, off: nat, n: nat, room: nat, ps: set<nat>, cur: nat, now: nat, changed: bool)
    requires Accounted(ptrs, off, n, room, ps, cur, 0, now, changed)
    ensures now + Cost(ptrs, off / BSIZE, Blocks(off, n)) == room && ps == Way(ptrs, off / BSIZE, Blocks(off, n))
  {
    hide Missing;
    NoneTouched(cur);
  }

  lemma NoneTouched(off: nat)
    ensures Blocks(off, 0) == 0
  {
  }

  /** What stops the loop. */
  lemma GainsFail(ptrs: set<nat>, bn: nat, k: nat, room: nat)
    requires k > 0 && Missing(ptrs, bn) > room
    ensures Gains(ptrs, bn, k, room) <==> room > 0
    ensures Cost(ptrs, bn, k) > room
  {
  }

  /** When nothing is left it does not matter at which block. */
  lemma PastEnd(ptrs: set<nat>, cur: nat, left: nat, m: nat, room: nat)
    requires left > 0 && m == Min(left, BSIZE - cur % BSIZE)
    ensures var k, ps := Blocks(cur, left), WithBlock(ptrs, cur / BSIZE);
            && Cost(ptrs, cur / BSIZE, k) == Missing(ptrs, cur / BSIZE) + Cost(ps, (cur + m) / BSIZE,
              Blocks(cur + m, left - m))
            && Way(ptrs, cur / BSIZE, k) == Way(ps, (cur + m) / BSIZE, Blocks(cur + m, left - m))
            && (Gains(ps, cur / BSIZE + 1, k - 1, room) <==>
                Gains(ps, (cur + m) / BSIZE, Blocks(cur + m, left - m), room))
  {
    hide Missing, WithBlock, Blocks;
    NextBlock(cur, left, m);
    if left == m {
      NoneTouched(cur + m);
      var ps := WithBlock(ptrs, cur / BSIZE);
      assert Cost(ps, cur / BSIZE + 1, 0) == 0 == Cost(ps, (cur + m) / BSIZE, 0);
      assert Way(ps, cur / BSIZE + 1, 0) == ps == Way(ps, (cur + m) / BSIZE, 0);
    }
  }

  // ---- Content ----------------------------------------------------------------

  function Padded(c: seq<Byte>, off: nat): seq<Byte> {
    if off > |c| then c + Zeros(off - |c|) else c
  }

  /** `c` with bytes off..off + |data| replaced, any gap before `off` zero. */
  function Written(c: seq<Byte>, off: nat, data: seq<Byte>): seq<Byte> {
    var p := Padded(c, off);
    p[..off] + data + if off + |data| < |p| then p[off + |data|..] else []
  }

  /** Byte by byte: what was written where it was written, zero in the gap, and elsewhere what was
      there. */
  lemma WrittenIs(c: seq<Byte>, off: nat, data: seq<Byte>)
    ensures |Written(c, off, data)| == if off + |data| > |c| then off + |data| else |c|
    ensures forall i :: 0 <= i < |Written(c, off, data)| ==>
      Written(c, off, data)[i] ==
        if off <= i < off + |data| then data[i - off] else if i < |c| then c[i] else 0
  {
  }

  function Max(a: nat, b: nat): nat { if a >= b then a else b }

  /** What a write inside or at the end of a file does to its bytes. */
  lemma WriteContent(disk: Disk, addrs: Addrs, size: nat, disk': Disk, addrs': Addrs, off: nat, data: seq<Byte>)
    requires Dense(disk, addrs, size) && Rewritten(disk, addrs, disk', addrs', off, data)
    requires off <= size && off + |data| <= MAXBYTES
    ensures var size' := Max(size, off + |data|);
            && Dense(disk', addrs', size')
            && Content(disk', addrs', size') == Written(Content(disk, addrs, size), off, data)
  {
    hide BlockAt, ByteAt;
    var size' := Max(size, off + |data|);
    forall bn | 0 <= bn < MAXFILE && bn * BSIZE < size'
      ensures BlockAt(disk', addrs', bn) != 0
    {
      Join(bn, 0);
      assert RewrittenAt(disk, addrs, disk', addrs', off, data, bn * BSIZE);
    }
    var c, c' := Content(disk, addrs, size), Content(disk', addrs', size');
    var w := Written(c, off, data);
    assert |w| == size';
    forall i | 0 <= i < size'
      ensures c'[i] == w[i]
    {
      assert RewrittenAt(disk, addrs, disk', addrs', off, data, i);
      Split(i);
    }
  }

  /** Bytes written past the end are not part of the file yet. */
  lemma WriteBeyond(disk: Disk, addrs: Addrs, size: nat, disk': Disk, addrs': Addrs, off: nat, data: seq<Byte>)
    requires Dense(disk, addrs, size) && Rewritten(disk, addrs, disk', addrs', off, data) && size <= off
    ensures Dense(disk', addrs', size) && Content(disk', addrs', size) == Content(disk, addrs, size)
  {
    hide BlockAt, ByteAt;
    forall bn | 0 <= bn < MAXFILE && bn * BSIZE < size
      ensures BlockAt(disk', addrs', bn) != 0
    {
      Join(bn, 0);
      assert RewrittenAt(disk, addrs, disk', addrs', off, data, bn * BSIZE);
    }
    forall i | 0 <= i < size
      ensures Content(disk', addrs', size)[i] == Content(disk, addrs, size)[i]
    {
      assert RewrittenAt(disk, addrs, disk', addrs', off, data, i);
      Split(i);
    }
  }

  /** Saving the inode record changes no byte of the file. */
  lemma SaveContent(own: Owners, disk: Disk, ip: Inode, d: Dinode)
    requires FileOk(own, disk, ip) && ip.inum < NINODES && Storable(d)
    ensures var disk' := PutDinodeOf(disk, ip.inum, d);
            FileOk(own, disk', ip) && Content(disk', ip.addrs, ip.size) == Content(disk, ip.addrs, ip.size)
  {
    hide PutDinodeOf, BlockAt, ByteAt, OwnOk, Owns, Extends, OthersSafe, Rewritten;
    RecordSafe(own, disk, ip.inum, d, ip.addrs);
    ExtendsRewrites(own, disk, ip.inum, ip.addrs, PutDinodeOf(disk, ip.inum, d), ip.addrs, ip.size);
    WriteBeyond(disk, ip.addrs, ip.size, PutDinodeOf(disk, ip.inum, d), ip.addrs, ip.size, []);
  }

  ghost predicate Savable(ip: Inode) {
    0 < ip.inum < NINODES && I16(ip.typ) && I16(ip.major) && I16(ip.minor) && I16(ip.nlink)
  }

  lemma SavableStorable(own: Owners, disk: Disk, ip: Inode)
    requires FileOk(own, disk, ip) && Savable(ip)
    ensures Storable(ToDinode(ip))
  {
    IndirectOnDisk(own, disk, ip.inum, ip.addrs);
    forall k | 0 <= k <= NDIRECT ensures ip.addrs[k] < U32 {
      assert PtrAt(disk, ip.addrs, k) == ip.addrs[k];
    }
  }

  lemma FullKept(disk: Disk, disk': Disk)
    requires Full(disk) && forall b :: BMAPSTART <= b < FSSIZE ==> disk'[b] == disk[b]
    ensures Full(disk')
  {
    hide Bit;
    forall b | DATASTART <= b < FSSIZE ensures Marked(disk', b) {
      assert Marked(disk, b) && BBlock(b) == BMAPSTART;
    }
  }

  /** A change outside bitmap and data blocks. */
  lemma RecordOnly(own: Owners, disk: Disk, disk': Disk, inum: nat, addrs: Addrs)
    requires OwnOk(own, disk) && Owns(own, disk, inum, addrs)
    requires forall b :: BMAPSTART <= b < FSSIZE ==> disk'[b] == disk[b]
    ensures Room(disk') == Room(disk) && Ptrs(disk', addrs) == Ptrs(disk, addrs)
  {
    hide Bit, U32At, Room;
    forall b | DATASTART <= b < FSSIZE ensures Marked(disk', b) == Marked(disk, b) { assert BBlock(b) == BMAPSTART; }
    RoomSame(disk, disk');
    if addrs[NDIRECT] != 0 { IndirectBlock(own, disk, inum, addrs); }
  }

  /** iupdate: the record on disk becomes the inode in memory, nothing else changes. */
  method Iupdate(bc: Cache, ip: Inode, ghost own: Owners)
    requires bc.Ready(1) && FileOk(own, bc.disk, ip) && Savable(ip)
    modifies bc
    ensures bc.Valid() && Kept(old(bc.slots), bc.slots)
    ensures FileOk(own, bc.disk, ip) && DinodeOf(bc.disk, ip.inum) == ToDinode(ip)
    ensures Content(bc.disk, ip.addrs, ip.size) == Content(old(bc.disk), ip.addrs, ip.size)
    ensures OthersSafe(own, old(bc.disk), own, bc.disk, ip.inum)
    ensures forall b :: BMAPSTART <= b < FSSIZE ==> bc.disk[b] == old(bc.disk)[b]
  {
    hide PutDinodeOf, BlockAt, ByteAt, OwnOk, Owns, Extends, OthersSafe, Dense;
    SavableStorable(own, bc.disk, ip);
    RecordSafe(own, bc.disk, ip.inum, ToDinode(ip), ip.addrs);
    SaveContent(own, bc.disk, ip, ToDinode(ip));
    WriteDinode(bc, ip.inum, ToDinode(ip));
  }

  /** Zero-fills from the end of the file up to `off`. */
  method ZeroFill(bc: Cache, ip: Inode, off: nat, ghost own: Owners) returns (ip': Inode, ok: bool, ghost own': Owners)
    requires bc.Ready(2) && FileOk(own, bc.disk, ip) && ip.size <= off <= MAXBYTES
    modifies bc
    ensures bc.Valid() && Kept(old(bc.slots), bc.slots)
    ensures ip' == ip.(size := if ok then off else ip.size, addrs := ip'.addrs) && Grows(ip.addrs, ip'.addrs)
    ensures FileOk(own', bc.disk, ip') && OthersKept(own, old(bc.disk), own', bc.disk, ip.inum)
    ensures Content(bc.disk, ip'.addrs, ip'.size) ==
      Content(old(bc.disk), ip.addrs, ip.size) + if ok then Zeros(off - ip.size) else []
    ensures !ok ==> Full(bc.disk)
    ensures var ptrs, room, k := Ptrs(old(bc.disk), ip.addrs), Room(old(bc.disk)), Blocks(ip.size, off - ip.size);
            && (ok <==> Cost(ptrs, ip.size / BSIZE, k) <= room)
            && (ok ==>
                  && Room(bc.disk) + Cost(ptrs, ip.size / BSIZE, k) == room
                  && Ptrs(bc.disk, ip'.addrs) == Way(ptrs, ip.size / BSIZE, k))
            && (!ok ==> (ip'.addrs != ip.addrs <==> Gains(ptrs, ip.size / BSIZE, k, room)))
  {
    hide OwnOk, Owns, OthersKept, Rewritten, Dense, BlockAlloc.Full, Kept, Content, Zeros, Grows, Blocks, Room, Ptrs,
      Cost, Way, Gains,
      Missing;
    var addrs', done;
    ZerosLength(off - ip.size);
    var zeros := Zeros(off - ip.size);
    addrs', done, own' := PutAll(bc, ip.inum, ip.addrs, ip.size, zeros, own);
    DenseSize(old(bc.disk), ip.addrs, ip.size);
    if done < |zeros| {
      WriteBeyond(old(bc.disk), ip.addrs, ip.size, bc.disk, addrs', ip.size, zeros[..done]);
      return ip.(addrs := addrs'), false, own';
    }
    assert zeros[..done] == zeros;
    WriteContent(old(bc.disk), ip.addrs, ip.size, bc.disk, addrs', ip.size, zeros);
    ok, ip' := true, ip.(size := off, addrs := addrs');
  }

  lemma ZerosLength(n: nat)
    ensures |Zeros(n)| == n
  {
  }

  lemma DenseSize(disk: Disk, addrs: Addrs, size: nat)
    requires Dense(disk, addrs, size)
    ensures size <= MAXBYTES
  {
  }

  /** The write loop, once the file reaches up to `off`. */
  method WriteLoop(bc: Cache, ip: Inode, off: nat, src: seq<Byte>, ghost own: Owners)
    returns (ip': Inode, n: nat, ghost own': Owners)
    requires bc.Ready(2) && FileOk(own, bc.disk, ip) && off <= ip.size && off + |src| <= MAXBYTES
    modifies bc
    ensures bc.Valid() && Kept(old(bc.slots), bc.slots)
    ensures n <= |src| && ip' == ip.(size := Max(ip.size, off + n), addrs := ip'.addrs) && Grows(ip.addrs, ip'.addrs)
    ensures FileOk(own', bc.disk, ip') && OthersKept(own, old(bc.disk), own', bc.disk, ip.inum)
    ensures Content(bc.disk, ip'.addrs, ip'.size) == Written(Content(old(bc.disk), ip.addrs, ip.size), off, src[..n])
    ensures n < |src| ==> Full(bc.disk)
    ensures 0 < n < |src| ==> (off + n) % BSIZE == 0
    ensures var ptrs, room, k := Ptrs(old(bc.disk), ip.addrs), Room(old(bc.disk)), Blocks(off, |src|);
            && (n == |src| <==> Cost(ptrs, off / BSIZE, k) <= room)
            && (n == |src| ==>
                  && Room(bc.disk) + Cost(ptrs, off / BSIZE, k) == room
                  && Ptrs(bc.disk, ip'.addrs) == Way(ptrs, off / BSIZE, k))
            && (src != [] ==> (n == 0 <==> Missing(ptrs, off / BSIZE) > room))
            && (n == 0 && src != [] ==> (ip'.addrs != ip.addrs <==> room > 0))
  {
    hide OwnOk, Owns, OthersKept, Rewritten, Dense, BlockAlloc.Full, Kept, Written, Blocks, Room, Ptrs, Cost, Way,
      Gains, Missing;
    var addrs';
    if src != [] && Missing(Ptrs(bc.disk, ip.addrs), off / BSIZE) > Room(bc.disk) {
      SomeTouched(off, |src|);
      GainsFail(Ptrs(bc.disk, ip.addrs), off / BSIZE, Blocks(off, |src|), Room(bc.disk));
    }
    addrs', n, own' := PutAll(bc, ip.inum, ip.addrs, off, src, own);
    WriteContent(old(bc.disk), ip.addrs, ip.size, bc.disk, addrs', off, src[..n]);
    ip' := ip.(size := Max(ip.size, off + n), addrs := addrs');
  }

  lemma SomeTouched(off: nat, n: nat)
    requires n > 0
    ensures Blocks(off, n) > 0
  {
  }

  /** Blocks to allocate to fill the gap up to `off`, and the pointers then. */
  ghost function FillCost(ptrs: set<nat>, size: nat, off: nat): nat {
    if off > size then Cost(ptrs, size / BSIZE, Blocks(size, off - size)) else 0
  }

  ghost function FillWay(ptrs: set<nat>, size: nat, off: nat): set<nat> {
    if off > size then Way(ptrs, size / BSIZE, Blocks(size, off - size)) else ptrs
  }

  /** Blocks to allocate to write n bytes at `off`, and the pointers then. */
  ghost function WriteCost(ptrs: set<nat>, size: nat, off: nat, n: nat): nat {
    FillCost(ptrs, size, off) + Cost(FillWay(ptrs, size, off), off / BSIZE, Blocks(off, n))
  }

  ghost function WriteWay(ptrs: set<nat>, size: nat, off: nat, n: nat): set<nat> {
    Way(FillWay(ptrs, size, off), off / BSIZE, Blocks(off, n))
  }

  /** The write fails after it took a block for a pointer of the inode, and does not save the
      inode: the gap cannot be filled but begun, or the indirect block can be had but not the
      block behind it. */
  ghost predicate Strands(ptrs: set<nat>, size: nat, off: nat, n: nat, room: nat) {
    && n > 0 && off + n <= MAXBYTES
    && if off > size then FillCost(ptrs, size, off) > room && Gains(ptrs, size / BSIZE, Blocks(size, off - size), room)
       else 0 < room < Missing(ptrs, off / BSIZE)
  }

  /** Padding and then writing at the end is writing past the end. */
  lemma PadThenWrite(c: seq<Byte>, off: nat, data: seq<Byte>)
    requires off > |c|
    ensures Written(c + Zeros(off - |c|), off, data) == Written(c, off, data)
    ensures Written(c, off, []) == c + Zeros(off - |c|)
  {
  }

  lemma WriteNothing(c: seq<Byte>, off: nat)
    requires off <= |c|
    ensures Written(c, off, []) == c
  {
  }

  /** The outcome of a write that wrote n bytes of src at `off`: the file holds what
      `Written` says, or the gap before `off` could not be filled and it is unchanged. */
  ghost predicate WroteOrNot(c: seq<Byte>, c': seq<Byte>, off: nat, src: seq<Byte>, n: nat, filled: bool) {
    n <= |src| && if filled then c' == Written(c, off, src[..n]) else n == 0 && c' == c
  }

  /** writei. Reports how much it wrote: everything exactly when there are blocks for the gap
      and the bytes. It stops short only when the disk is full, and then at a block boundary. */
  method Writei(bc: Cache, ip: Inode, off: nat, src: seq<Byte>, ghost own: Owners)
    returns (ip': Inode, n: nat, ghost own': Owners)
    requires bc.Ready(2) && FileOk(own, bc.disk, ip) && Savable(ip)
    modifies bc
    ensures bc.Valid() && Kept(old(bc.slots), bc.slots)
    ensures ip' == ip.(size := ip'.size, addrs := ip'.addrs) && FileOk(own', bc.disk, ip') && Grows(ip.addrs, ip'.addrs)
    ensures OthersSafe(own, old(bc.disk), own', bc.disk, ip.inum)
    ensures src == [] || off + |src| > MAXBYTES ==> n == 0 && ip' == ip && bc.disk == old(bc.disk)
    ensures src != [] && off + |src| <= MAXBYTES ==>
      var ptrs, room := Ptrs(old(bc.disk), ip.addrs), Room(old(bc.disk));
      && WroteOrNot(Content(old(bc.disk), ip.addrs, ip.size), Content(bc.disk, ip'.addrs, ip'.size), off, src, n,
                    FillCost(ptrs, ip.size, off) <= room)
      && (n == |src| <==> WriteCost(ptrs, ip.size, off, |src|) <= room)
      && (n == |src| ==>
            && Room(bc.disk) + WriteCost(ptrs, ip.size, off, |src|) == room
            && Ptrs(bc.disk, ip'.addrs) == WriteWay(ptrs, ip.size, off, |src|))
    ensures n < |src| ==> off + |src| > MAXBYTES || Full(bc.disk)
    ensures 0 < n < |src| ==> (off + n) % BSIZE == 0
    ensures DinodeOf(bc.disk, ip.inum) ==
      if n > 0 || ip'.size != ip.size then ToDinode(ip') else DinodeOf(old(bc.disk), ip.inum)
    ensures n == 0 && ip'.size == ip.size && ip'.addrs != ip.addrs <==>
      Strands(Ptrs(old(bc.disk), ip.addrs), ip.size, off, |src|, Room(old(bc.disk)))
  {
    hide OwnOk, Owns, OthersKept, Dense, BlockAlloc.Full, Kept, Written, DinodeOf, RecordsKept, OthersSafe, Content,
      Grows, Blocks, Room,
      Ptrs, Cost, Way, Gains, Missing;
    KeptSelf(bc.slots);
    ip', n, own' := ip, 0, own;
    GrowsSelf(ip.addrs);
    SafeSelf(own, bc.disk, ip.inum);
    if src == [] || off + |src| > MAXBYTES {
      return;
    }
    var grown := false;
    DenseSize(bc.disk, ip.addrs, ip.size);
    ghost var c := Content(bc.disk, ip.addrs, ip.size);
    if off > ip.size {
      ip', grown, own' := ZeroFill(bc, ip, off, own);
      BlocksSafe(own, old(bc.disk), own', bc.disk, ip.inum);
      if !grown {
        return;
      }
      PadThenWrite(c, off, []);
    }
    ghost var s1, d1, o1, a1 := bc.slots, bc.disk, own', ip'.addrs;
    KeptSpare(old(bc.slots), s1);
    ip', n, own' := WriteLoop(bc, ip', off, src, own');
    GrowsTrans(ip.addrs, a1, ip'.addrs);
    if off > ip.size { PadThenWrite(c, off, src[..n]); }
    KeptTrans(old(bc.slots), s1, bc.slots);
    BlocksSafe(o1, d1, own', bc.disk, ip.inum);
    SafeTrans(own, old(bc.disk), o1, d1, own', bc.disk, ip.inum);
    if n > 0 || grown {
      ghost var s2, d2 := bc.slots, bc.disk;
      KeptSpare(old(bc.slots), s2);
      Iupdate(bc, ip', own');
      KeptTrans(old(bc.slots), s2, bc.slots);
      SafeTrans(own, old(bc.disk), own', d2, own', bc.disk, ip.inum);
      if BlockAlloc.Full(d2) { FullKept(d2, bc.disk); }
      RecordOnly(own', d2, bc.disk, ip'.inum, ip'.addrs);
    }
  }

  lemma GrowsSelf(addrs: Addrs)
    ensures Grows(addrs, addrs)
  {
  }

  lemma GrowsTrans(a: Addrs, b: Addrs, c: Addrs)
    requires Grows(a, b) && Grows(b, c)
    ensures Grows(a, c)
  {
  }

  lemma SafeSelf(own: Owners, disk: Disk, inum: nat)
    requires OwnOk(own, disk)
    ensures OthersSafe(own, disk, own, disk, inum)
  {
  }

  /** itrunc: the file is empty, its blocks and only its blocks are free again. */
  method Itrunc(bc: Cache, ip: Inode, ghost own: Owners) returns (ip': Inode, ghost own': Owners)
    requires bc.Ready(2) && FileOk(own, bc.disk, ip) && Savable(ip)
    modifies bc
    ensures bc.Valid() && Kept(old(bc.slots), bc.slots)
    ensures ip' == ip.(size := 0, addrs := ip'.addrs) && FileOk(own', bc.disk, ip')
    ensures OthersSafe(own, old(bc.disk), own', bc.disk, ip.inum) && DinodeOf(bc.disk, ip.inum) == ToDinode(ip')
    ensures forall b :: DATASTART <= b < FSSIZE ==>
      (Marked(bc.disk, b) <==> Marked(old(bc.disk), b) && !PointsTo(old(bc.disk), ip.addrs, AllSlots(), b))
    ensures forall k :: 0 <= k <= NDIRECT ==> ip'.addrs[k] == 0
  {
    hide OwnOk, Owns, OthersKept, Kept, PointsTo, Bit, DinodeOf, RecordsKept, OthersSafe;
    var addrs';
    addrs', own' := FreeBlocks(bc, ip.inum, ip.addrs, own);
    ghost var s1, d1 := bc.slots, bc.disk;
    ip' := ip.(size := 0, addrs := addrs');
    KeptSpare(old(bc.slots), s1);
    Iupdate(bc, ip', own');
    KeptTrans(old(bc.slots), s1, bc.slots);
    BlocksSafe(own, old(bc.disk), own', d1, ip.inum);
    SafeTrans(own, old(bc.disk), own', d1, own', bc.disk, ip.inum);
    assert forall b :: DATASTART <= b < FSSIZE ==> Marked(bc.disk, b) == Marked(d1, b);
  }

  /** A file other than the one written or truncated keeps every byte. */
  lemma OtherContent(own: Owners, disk: Disk, own': Owners, disk': Disk, inum: nat, ip: Inode)
    requires OthersSafe(own, disk, own', disk', inum) && FileOk(own, disk, ip) && OwnOk(own', disk') && ip.inum != inum
    ensures FileOk(own', disk', ip) && Content(disk', ip.addrs, ip.size) == Content(disk, ip.addrs, ip.size)
  {
    hide PtrAt, OthersSafe;
    OtherSafe(own, disk, own', disk', inum, ip.inum, ip.addrs);
    forall bn | 0 <= bn < MAXFILE ensures BlockAt(disk', ip.addrs, bn) == BlockAt(disk, ip.addrs, bn) {
      assert 0 <= Slot(bn) < NPTR;
    }
    forall i | 0 <= i < ip.size
      ensures Content(disk', ip.addrs, ip.size)[i] == Content(disk, ip.addrs, ip.size)[i]
    {
      DenseAt(own, disk, ip, i);
    }
  }
}
