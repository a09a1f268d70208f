/** The user-space heap allocator: linked headers in raw memory, first fit with
    splitting, address-ordered insertion with coalescing on both sides. */
module UserAllocator {
  import opened Prelude
  import opened FreeList

  const USIZE := 0x1_0000_0000_0000_0000
  const ISIZE_MAX := 0x7fff_ffff_ffff_ffff
  const PGSIZE := 4096
  const USER_STACK := 0x40_0000_0000 - 3 * PGSIZE

  /** What a block starts with; `next` is 0 for the null pointer. */
  datatype Header = Header(size: nat, next: nat)

  function AlignUp(x: nat, align: nat): (r: Option<nat>)
    requires align == ALIGN || align == PGSIZE
    ensures r.Some? <==> x + align <= USIZE
    ensures r.Some? ==> x <= r.value < x + align && r.value % align == 0
  {
    var v := x + (align - 1);
    if v >= USIZE then None else Some(v - v % align)
  }

  /** Bytes of a block that serves a request of `size` bytes, header included;
      None when the sum does not fit a machine word. */
  function Needed(size: nat): (r: Option<nat>)
    ensures r.Some? ==> r.value >= MIN_BLOCK_SIZE && r.value % ALIGN == 0 && r.value >= HEADER_SIZE + size
    ensures r.Some? ==> r.value < HEADER_SIZE + (if size == 0 then 1 else size) + ALIGN
    ensures r.Some? <==> size + HEADER_SIZE + ALIGN <= USIZE
  {
    match AlignUp(if size == 0 then 1 else size, ALIGN)
    case None => None
    case Some(payload) => if HEADER_SIZE + payload >= USIZE then None else Some(HEADER_SIZE + payload)
  }

  // ---- List shape in raw memory ----------------------------------------------

  function AddrAt(fl: seq<Block>, i: nat): nat {
    if i < |fl| then fl[i].addr else 0
  }

  ghost predicate LinkAt(mem: map<nat, Header>, fl: seq<Block>, i: nat)
    requires i < |fl|
  {
    fl[i].addr in mem && mem[fl[i].addr] == Header(fl[i].size, AddrAt(fl, i + 1))
  }

  ghost predicate Linked(mem: map<nat, Header>, head: nat, fl: seq<Block>) {
    && head == AddrAt(fl, 0)
    && forall i :: 0 <= i < |fl| ==> LinkAt(mem, fl, i)
  }

  ghost predicate LiveHeaders(mem: map<nat, Header>, live: set<Block>) {
    forall b :: b in live ==> b.addr in mem && mem[b.addr].size == b.size
  }

  // ---- Accounting -------------------------------------------------------------

  ghost function LiveTotal(live: set<Block>): nat {
    if live == {} then 0 else
      var b :| b in live;
      b.size + LiveTotal(live - {b})
  }

  lemma {:induction false} LiveTotalRemove(live: set<Block>, b: Block)
    requires b in live
    ensures LiveTotal(live) == b.size + LiveTotal(live - {b})
    decreases live
  {
    var c :| c in live && LiveTotal(live) == c.size + LiveTotal(live - {c});
    if c != b {
      LiveTotalRemove(live - {c}, b);
      LiveTotalRemove(live - {b}, c);
      assert live - {c} - {b} == live - {b} - {c};
    }
  }

  ghost predicate LiveHolds(live: set<Block>, x: int) {
    exists b :: b in live && b.Holds(x)
  }

  /** Free and live blocks tile the region obtained from sbrk: every byte of it
      is in exactly one block, and the sizes add up. */
  ghost predicate Tiled(fl: seq<Block>, live: set<Block>, base: nat, brk: nat) {
    && Coalesced(fl)
    && (forall b :: b in live ==> b.WellFormed() && ApartFrom(fl, b))
    && (forall b, c :: b in live && c in live && b != c ==> b.Apart(c))
    && (forall x: int :: base <= x < brk <==> Covers(fl, x) || LiveHolds(live, x))
    && base <= brk
    && Total(fl) + LiveTotal(live) == brk - base
  }

  /** A new block apart from everything live joins the free list. */
  lemma InsertTiled(fl: seq<Block>, b: Block, live: set<Block>, base: nat, brk: nat)
    requires Coalesced(fl) && b.WellFormed() && ApartFrom(fl, b)
    requires forall c :: c in live ==> c.WellFormed() && ApartFrom(fl, c) && c.Apart(b)
    requires forall c, d :: c in live && d in live && c != d ==> c.Apart(d)
    requires forall x: int :: base <= x < brk <==> Covers(fl, x) || b.Holds(x) || LiveHolds(live, x)
    requires base <= brk && Total(fl) + b.size + LiveTotal(live) == brk - base
    ensures Tiled(Insert(fl, b), live, base, brk)
  {
    InsertCoalesced(fl, b);
    InsertTotal(fl, b);
    forall c | c in live
      ensures ApartFrom(Insert(fl, b), c)
    {
      assert b.Apart(c);
      InsertApart(fl, b, c);
    }
    forall x: int
      ensures base <= x < brk <==> Covers(Insert(fl, b), x) || LiveHolds(live, x)
    {
      InsertCovers(fl, b, x);
    }
  }

  lemma TakeTiled(fl: seq<Block>, i: nat, needed: nat, live: set<Block>, base: nat, brk: nat)
    requires Tiled(fl, live, base, brk) && i < |fl|
    requires MIN_BLOCK_SIZE <= needed <= fl[i].size && needed % ALIGN == 0
    ensures Tiled(Take(fl, i, needed), live + {Granted(fl[i], needed)}, base, brk)
  {
    hide Take, Covers, LiveHolds;
    var t, g := Take(fl, i, needed), Granted(fl[i], needed);
    TakeCoalesced(fl, i, needed);
    forall b | b in live
      ensures ApartFrom(t, b) && b.Apart(g)
    {
      TakeApart(fl, i, needed, b);
    }
    assert Total(t) + LiveTotal(live + {g}) == brk - base by {
      TakeTotal(fl, i, needed);
      assert g !in live;
      LiveTotalRemove(live + {g}, g);
      assert live + {g} - {g} == live;
    }
    forall x: int
      ensures base <= x < brk <==> Covers(t, x) || LiveHolds(live + {g}, x)
    {
      TakeCovers(fl, i, needed, x);
      LiveHoldsAdd(live, g, x);
    }
  }

  lemma LiveHoldsAdd(live: set<Block>, g: Block, x: int)
    ensures LiveHolds(live + {g}, x) <==> LiveHolds(live, x) || g.Holds(x)
  {
    if g.Holds(x) { assert g in live + {g}; }
    if b :| b in live && b.Holds(x) { assert b in live + {g}; }
  }

  lemma TakeApart(fl: seq<Block>, i: nat, needed: nat, b: Block)
    requires i < |fl| && needed <= fl[i].size && ApartFrom(fl, b)
    ensures ApartFrom(Take(fl, i, needed), b) && b.Apart(Granted(fl[i], needed))
  {
    var t := Take(fl, i, needed);
    assert fl[i].Apart(b);
    forall j | 0 <= j < |t| ensures t[j].Apart(b) {
      assert j < |fl| ==> fl[j].Apart(b);
      assert j + 1 < |fl| ==> fl[j + 1].Apart(b);
    }
  }

  /** The chunk [brk, brk + n) obtained from sbrk is apart from every block. */
  lemma GrowApart(fl: seq<Block>, live: set<Block>, base: nat, brk: nat, b: Block)
    requires Tiled(fl, live, base, brk) && b.addr == brk && b.WellFormed()
    ensures ApartFrom(fl, b)
    ensures forall c :: c in live ==> c.Apart(b)
  {
    forall i | 0 <= i < |fl| ensures fl[i].Apart(b) {
      assert fl[i].Holds(fl[i].End() - 1);
      assert Covers(fl, fl[i].End() - 1);
    }
    forall c | c in live ensures c.Apart(b) {
      assert c.Holds(c.End() - 1);
      assert LiveHolds(live, c.End() - 1);
    }
  }

  // ---- Header updates ----------------------------------------------------------

  /** `mem'` is `mem` with headers written only at addresses in `at`. */
  ghost predicate WritesOnly(mem: map<nat, Header>, mem': map<nat, Header>, at: set<nat>) {
    forall a :: a in mem && a !in at ==> a in mem' && mem'[a] == mem[a]
  }

  /** Headers of live blocks survive writes inside free blocks. */
  lemma LiveHeadersKept(mem: map<nat, Header>, mem': map<nat, Header>, at: set<nat>,
                        fl: seq<Block>, live: set<Block>)
    requires LiveHeaders(mem, live) && WritesOnly(mem, mem', at)
    requires forall b :: b in live ==> b.Sized() && ApartFrom(fl, b)
    requires forall a :: a in at ==> Covers(fl, a)
    ensures LiveHeaders(mem', live)
  {
    forall b | b in live
      ensures b.addr in mem' && mem'[b.addr].size == b.size
    {
      assert !Covers(fl, b.addr);
      assert b.addr in mem && b.addr !in at;
    }
  }

  /** Headers of free blocks before `k - 1` and from `l` on are as they were. */
  ghost predicate KeptAround(mem: map<nat, Header>, mem': map<nat, Header>, fl: seq<Block>, k: nat, l: nat)
    requires k <= l <= |fl|
  {
    forall j :: 0 <= j < |fl| && (j < k - 1 || l <= j) && fl[j].addr in mem ==>
      fl[j].addr in mem' && mem'[fl[j].addr] == mem[fl[j].addr]
  }

  lemma WritesBetween(mem: map<nat, Header>, mem': map<nat, Header>, at: set<nat>, fl: seq<Block>, k: nat, l: nat)
    requires Ordered(fl) && k <= l <= |fl| && WritesOnly(mem, mem', at)
    requires forall a :: a in at ==> k > 0 ==> fl[k - 1].addr <= a
    requires forall a :: a in at ==> l < |fl| ==> a < fl[l].addr
    ensures KeptAround(mem, mem', fl, k, l)
  {
    forall j | 0 <= j < |fl| && (j < k - 1 || l <= j) && fl[j].addr in mem
      ensures fl[j].addr !in at
    {
      assert j < k - 1 ==> fl[j].End() < fl[k - 1].addr;
      assert l < j ==> fl[l].End() < fl[j].addr;
    }
  }

  /** Replacing blocks k..l of a linked list by at most one block. */
  lemma LinkedSplice(mem: map<nat, Header>, mem': map<nat, Header>, head: nat, head': nat,
                     fl: seq<Block>, k: nat, mid: seq<Block>, l: nat)
    requires Linked(mem, head, fl) && k <= l <= |fl| && |mid| <= 1
    requires KeptAround(mem, mem', fl, k, l)
    requires |mid| == 1 ==> mid[0].addr in mem' && mem'[mid[0].addr] == Header(mid[0].size, AddrAt(fl, l))
    requires k > 0 ==> (
      && fl[k - 1].addr in mem'
      && mem'[fl[k - 1].addr] == Header(fl[k - 1].size, if |mid| == 1 then mid[0].addr else AddrAt(fl, l)))
    requires head' == if k > 0 then head else if |mid| == 1 then mid[0].addr else AddrAt(fl, l)
    ensures Linked(mem', head', Splice(fl, k, mid, l))
  {
    var r := Splice(fl, k, mid, l);
    forall j | 0 <= j < |r|
      ensures LinkAt(mem', r, j)
    {
      if j < k {
        assert r[j] == fl[j] && LinkAt(mem, fl, j);
      } else if j < k + |mid| {
        assert r[j] == mid[0];
      } else {
        var n := j - k - |mid| + l;
        assert r[j] == fl[n] && LinkAt(mem, fl, n);
      }
    }
  }

  /** Addresses written when block `i` is taken: its own header, the header of
      what remains of it, and the link of its predecessor. */
  ghost function TakeWrites(fl: seq<Block>, i: nat, needed: nat): set<nat>
    requires i < |fl| && needed <= fl[i].size
  {
    {fl[i].addr}
    + (if Splits(fl[i], needed) then {fl[i].addr + needed} else {})
    + (if i > 0 then {fl[i - 1].addr} else {})
  }

  lemma TakeLive(mem: map<nat, Header>, mem': map<nat, Header>, fl: seq<Block>, i: nat, needed: nat, live: set<Block>)
    requires Ordered(fl) && LiveHeaders(mem, live) && i < |fl|
    requires forall b :: b in live ==> b.Sized() && ApartFrom(fl, b)
    requires MIN_BLOCK_SIZE <= needed <= fl[i].size
    requires WritesOnly(mem, mem', TakeWrites(fl, i, needed))
    requires fl[i].addr in mem' && mem'[fl[i].addr].size == Granted(fl[i], needed).size
    ensures LiveHeaders(mem', live + {Granted(fl[i], needed)})
  {
    var at := TakeWrites(fl, i, needed);
    forall a | a in at ensures Covers(fl, a) {
      assert i > 0 && a == fl[i - 1].addr ==> fl[i - 1].Holds(a);
      assert !(i > 0 && a == fl[i - 1].addr) ==> fl[i].Holds(a);
    }
    LiveHeadersKept(mem, mem', at, fl, live);
  }

  lemma TakeLinked(mem: map<nat, Header>, mem': map<nat, Header>, head: nat, head': nat,
                   fl: seq<Block>, i: nat, needed: nat)
    requires Ordered(fl) && Linked(mem, head, fl) && i < |fl|
    requires MIN_BLOCK_SIZE <= needed <= fl[i].size
    requires WritesOnly(mem, mem', TakeWrites(fl, i, needed))
    requires
      var rest := fl[i].addr + needed;
      var next := if Splits(fl[i], needed) then rest else AddrAt(fl, i + 1);
      && (Splits(fl[i], needed) ==> rest in mem' && mem'[rest] == Header(fl[i].size - needed, AddrAt(fl, i + 1)))
      && (i > 0 ==> fl[i - 1].addr in mem' && mem'[fl[i - 1].addr] == Header(fl[i - 1].size, next))
      && head' == if i > 0 then head else next
    ensures Linked(mem', head', Take(fl, i, needed))
  {
    assert KeptAround(mem, mem', fl, i, i + 1) by {
      assert i > 0 ==> fl[i - 1].End() < fl[i].addr;
      assert i + 1 < |fl| ==> fl[i].End() < fl[i + 1].addr;
      WritesBetween(mem, mem', TakeWrites(fl, i, needed), fl, i, i + 1);
    }
    LinkedSplice(mem, mem', head, head', fl, i, Remainder(fl[i], needed), i + 1);
  }

  /** The header writes of the search loop once block `i` fits, in their order. */
  lemma TakeHeaders(mem: map<nat, Header>, mem': map<nat, Header>, head: nat, head': nat,
                    fl: seq<Block>, i: nat, needed: nat, live: set<Block>)
    requires Ordered(fl) && Linked(mem, head, fl) && LiveHeaders(mem, live) && i < |fl|
    requires forall b :: b in live ==> b.Sized() && ApartFrom(fl, b)
    requires MIN_BLOCK_SIZE <= needed <= fl[i].size
    requires
      var cur, rest := fl[i].addr, fl[i].addr + needed;
      var next := AddrAt(fl, i + 1);
      var m := if Splits(fl[i], needed)
        then mem[rest := Header(fl[i].size - needed, next)][cur := Header(needed, next)] else mem;
      var target := if Splits(fl[i], needed) then rest else next;
      if i == 0 then
        head' == target && mem' == m[cur := Header(Granted(fl[i], needed).size, 0)]
      else
        head' == head &&
        mem' == m[fl[i - 1].addr := Header(fl[i - 1].size, target)][cur := Header(Granted(fl[i], needed).size, 0)]
    ensures Linked(mem', head', Take(fl, i, needed))
    ensures LiveHeaders(mem', live + {Granted(fl[i], needed)})
  {
    assert i > 0 ==> fl[i - 1].End() < fl[i].addr;
    TakeLinked(mem, mem', head, head', fl, i, needed);
    TakeLive(mem, mem', fl, i, needed, live);
  }

  /** Addresses written when `b` is inserted before free block `i`. */
  ghost function InsertWrites(fl: seq<Block>, i: nat, b: Block): set<nat>
    requires i <= |fl|
  {
    {b.addr} + if i > 0 then {fl[i - 1].addr} else {}
  }

  /** The header writes of insertion, in terms of what they leave behind: `m`
      replaces the blocks k..l around position `i`. */
  lemma InsertLinked(mem: map<nat, Header>, mem': map<nat, Header>, head: nat, head': nat,
                     fl: seq<Block>, b: Block, i: nat, k: nat, m: Block, l: nat)
    requires Ordered(fl) && Linked(mem, head, fl) && b.Sized() && i <= |fl|
    requires i > 0 ==> fl[i - 1].End() <= b.addr
    requires i < |fl| ==> b.End() <= fl[i].addr
    requires i - 1 <= k <= i <= l <= i + 1 && l <= |fl|
    requires m.addr == if k == i then b.addr else fl[i - 1].addr
    requires WritesOnly(mem, mem', InsertWrites(fl, i, b))
    requires m.addr in mem' && mem'[m.addr] == Header(m.size, AddrAt(fl, l))
    requires k == i > 0 ==> fl[i - 1].addr in mem' && mem'[fl[i - 1].addr] == Header(fl[i - 1].size, b.addr)
    requires head' == if i > 0 then head else b.addr
    ensures Linked(mem', head', Splice(fl, k, [m], l))
  {
    assert i > 0 ==> LinkAt(mem, fl, i - 1);
    assert i > 1 ==> LinkAt(mem, fl, i - 2);
    assert KeptAround(mem, mem', fl, k, l) by {
      assert i > 1 ==> fl[i - 2].End() < fl[i - 1].addr;
      assert i + 1 < |fl| ==> fl[i].End() < fl[i + 1].addr;
      WritesBetween(mem, mem', InsertWrites(fl, i, b), fl, k, l);
    }
    assert k < i && k > 0 ==> mem'[fl[k - 1].addr] == Header(fl[k - 1].size, fl[k].addr) by {
      assert i > 1 ==> fl[i - 2].End() < fl[i - 1].addr;
    }
    LinkedSplice(mem, mem', head, head', fl, k, [m], l);
  }

  lemma InsertLive(mem: map<nat, Header>, mem': map<nat, Header>, fl: seq<Block>, b: Block, i: nat, live: set<Block>)
    requires Ordered(fl) && LiveHeaders(mem, live) && b.Sized() && i <= |fl|
    requires forall c :: c in live ==> c.Sized() && ApartFrom(fl, c) && c.Apart(b)
    requires WritesOnly(mem, mem', InsertWrites(fl, i, b))
    ensures LiveHeaders(mem', live)
  {
    forall c | c in live ensures c.addr in mem' && mem'[c.addr].size == c.size {
      assert i > 0 ==> fl[i - 1].Apart(c);
      assert c.addr !in InsertWrites(fl, i, b);
    }
  }

  /** Memory after `block`, linked between `prev` and `cur`, absorbed or was
      absorbed by the neighbours it touches. */
  ghost function Merged(mem: map<nat, Header>, prev: nat, cur: nat, block: nat): map<nat, Header>
    requires block in mem
    requires prev != 0 ==> prev in mem && prev != block && prev != cur
    requires cur != 0 ==> cur in mem && cur != block
  {
    var left := prev != 0 && prev + mem[prev].size == block;
    var at := if left then prev else block;
    var size := mem[block].size + if left then mem[prev].size else 0;
    if cur != 0 && at + size == cur then mem[at := Header(size + mem[cur].size, mem[cur].next)]
    else if left then mem[prev := Header(size, mem[block].next)]
    else mem
  }

  lemma MergeHeaders(mem: map<nat, Header>, linked: map<nat, Header>, mem': map<nat, Header>,
                     fl: seq<Block>, b: Block, i: nat)
    requires Ordered(fl) && b.Sized() && i == Below(fl, b.addr) && b.addr in mem
    requires i > 0 ==> LinkAt(mem, fl, i - 1) && fl[i - 1].End() <= b.addr
    requires i < |fl| ==> LinkAt(mem, fl, i) && b.End() <= fl[i].addr
    requires linked ==
      var m := mem[b.addr := Header(b.size, AddrAt(fl, i))];
      if i == 0 then m else m[fl[i - 1].addr := Header(fl[i - 1].size, b.addr)]
    requires mem' == Merged(linked, if i == 0 then 0 else fl[i - 1].addr, AddrAt(fl, i), b.addr)
    ensures WritesOnly(mem, mem', InsertWrites(fl, i, b))
    ensures var m := Joined(fl, b); m.addr in mem' && mem'[m.addr] == Header(m.size, AddrAt(fl, RightKept(fl, b)))
    ensures LeftKept(fl, b) == i > 0 ==>
              fl[i - 1].addr in mem' && mem'[fl[i - 1].addr] == Header(fl[i - 1].size, b.addr)
  {
    assert 0 < i < |fl| ==> fl[i - 1].End() < fl[i].addr;
  }

  /** `b` has a header in memory and is apart from every block, free or live. */
  ghost predicate Insertable(mem: map<nat, Header>, head: nat, fl: seq<Block>, live: set<Block>, b: Block) {
    && Ordered(fl) && Linked(mem, head, fl) && LiveHeaders(mem, live)
    && b.Sized() && ApartFrom(fl, b)
    && (forall c :: c in live ==> c.Sized() && ApartFrom(fl, c) && c.Apart(b))
  }

  lemma InsertHeaders(mem: map<nat, Header>, linked: map<nat, Header>, mem': map<nat, Header>, head: nat, head': nat,
                      fl: seq<Block>, b: Block, i: nat, live: set<Block>)
    requires Insertable(mem, head, fl, live, b) && i == Below(fl, b.addr) && b.addr in mem
    requires linked ==
      var m := mem[b.addr := Header(b.size, AddrAt(fl, i))];
      if i == 0 then m else m[fl[i - 1].addr := Header(fl[i - 1].size, b.addr)]
    requires i > 0 ==> fl[i - 1].addr in mem && fl[i - 1].addr != b.addr && fl[i - 1].addr != AddrAt(fl, i)
    requires i < |fl| ==> fl[i].addr in mem && fl[i].addr != b.addr
    requires mem' == Merged(linked, if i == 0 then 0 else fl[i - 1].addr, AddrAt(fl, i), b.addr)
    requires head' == if i == 0 then b.addr else head
    ensures Linked(mem', head', Insert(fl, b)) && LiveHeaders(mem', live)
  {
    assert i > 0 ==> LinkAt(mem, fl, i - 1) && fl[i - 1].Apart(b);
    assert i < |fl| ==> LinkAt(mem, fl, i) && fl[i].Apart(b);
    MergeHeaders(mem, linked, mem', fl, b, i);
    InsertLinked(mem, mem', head, head', fl, b, i, LeftKept(fl, b), Joined(fl, b), RightKept(fl, b));
    InsertLive(mem, mem', fl, b, i, live);
  }

  /** The free list and the headers are untouched by a header written elsewhere. */
  lemma HeaderAdded(mem: map<nat, Header>, head: nat, fl: seq<Block>, live: set<Block>, b: Block, h: Header)
    requires Insertable(mem, head, fl, live, b)
    ensures Insertable(mem[b.addr := h], head, fl, live, b)
  {
    var mem' := mem[b.addr := h];
    forall i | 0 <= i < |fl| ensures LinkAt(mem', fl, i) {
      assert LinkAt(mem, fl, i) && fl[i].Apart(b);
    }
  }

  lemma PageAligned(x: nat)
    requires x % PGSIZE == 0
    ensures x % ALIGN == 0
  {
    assert x == 16 * (256 * (x / 4096));
  }

  lemma PageBlock(addr: nat, size: nat)
    requires 0 < addr && addr % PGSIZE == 0 && MIN_BLOCK_SIZE <= size && size % PGSIZE == 0
    ensures Block(addr, size).WellFormed()
  {
    PageAligned(addr);
    PageAligned(size);
  }

  lemma PageSum(addr: nat, size: nat)
    requires addr % PGSIZE == 0 && size % PGSIZE == 0
    ensures (addr + size) % PGSIZE == 0
  {
  }

  /** The retry after growing always finds a block: the new chunk may have merged
      with its neighbours, which only makes it larger. */
  lemma GrownFits(fl: seq<Block>, needed: nat, brk: nat, oom: bool)
    requires GrowsTo(needed, brk, oom).Some?
    ensures var chunk := Block(brk, GrowsTo(needed, brk, oom).value - brk);
            !NoFit(Insert(fl, chunk), needed)
  {
    var chunk := Block(brk, GrowsTo(needed, brk, oom).value - brk);
    var r := Insert(fl, chunk);
    assert r[LeftKept(fl, chunk)] == Joined(fl, chunk);
    assert Joined(fl, chunk).size >= needed;
  }

  /** A live block that is freed joins the free list. */
  lemma FreeTiled(fl: seq<Block>, live: set<Block>, base: nat, brk: nat, b: Block)
    requires Tiled(fl, live, base, brk) && b in live
    ensures Tiled(Insert(fl, b), live - {b}, base, brk)
  {
    LiveTotalRemove(live, b);
    assert live - {b} + {b} == live;
    forall x: int
      ensures base <= x < brk <==> Covers(fl, x) || b.Holds(x) || LiveHolds(live - {b}, x)
    {
      LiveHoldsAdd(live - {b}, b, x);
    }
    InsertTiled(fl, b, live - {b}, base, brk);
  }

  lemma LiveInsertable(mem: map<nat, Header>, head: nat, fl: seq<Block>, live: set<Block>, b: Block)
    requires Linked(mem, head, fl) && LiveHeaders(mem, live) && Coalesced(fl) && b in live
    requires forall c :: c in live ==> c.WellFormed() && ApartFrom(fl, c)
    requires forall c, d :: c in live && d in live && c != d ==> c.Apart(d)
    ensures Insertable(mem, head, fl, live - {b}, b) && b.addr in mem && mem[b.addr].size == b.size
  {
  }

  /** Once everything is freed the heap is one block again, or empty if it never grew,
      however the frees were ordered. */
  lemma AllFreed(fl: seq<Block>, base: nat, brk: nat)
    requires Tiled(fl, {}, base, brk)
    ensures fl == if brk == base then [] else [Block(base, brk - base)]
  {
    assert forall x: int :: !LiveHolds({}, x);
    if fl != [] {
      assert fl[0].Holds(fl[0].addr) && Covers(fl, fl[0].addr);
      assert fl[0].addr == base by {
        var i :| 0 <= i < |fl| && fl[i].Holds(base);
      }
      assert fl[0].Holds(fl[0].End() - 1) && Covers(fl, fl[0].End() - 1);
      assert !Covers(fl, fl[0].End());
      if |fl| > 1 { assert fl[1].Holds(fl[1].addr) && Covers(fl, fl[1].addr); }
    } else {
      assert !Covers(fl, base);
    }
  }

  /** Where brk moves when the heap grows for `needed` bytes; None when rounding
      overflows, the request exceeds isize, or the kernel refuses. */
  function GrowsTo(needed: nat, brk: nat, oom: bool): Option<nat> {
    match AlignUp(needed, PGSIZE)
    case None => None
    case Some(total) =>
      if total > ISIZE_MAX || oom || brk + total > USER_STACK then None else Some(brk + total)
  }

  ghost predicate NoFit(fl: seq<Block>, needed: nat) {
    forall i :: 0 <= i < |fl| ==> fl[i].size < needed
  }

  lemma NothingFits(fl: seq<Block>, needed: nat)
    requires NoFit(fl, needed)
    ensures FirstFit(fl, needed) == |fl|
  {
  }

  /** When alloc returns null. */
  ghost predicate Refused(size: nat, align: nat, fl: seq<Block>, brk: nat, oom: bool) {
    || align > ALIGN
    || Needed(size).None?
    || (NoFit(fl, Needed(size).value) && GrowsTo(Needed(size).value, brk, oom).None?)
  }

  lemma GrowTiled(fl: seq<Block>, live: set<Block>, base: nat, brk: nat, b: Block)
    requires Tiled(fl, live, base, brk) && b.addr == brk && b.WellFormed()
    ensures ApartFrom(fl, b) && (forall c :: c in live ==> c.Apart(b))
    ensures Tiled(Insert(fl, b), live, base, b.End())
  {
    GrowApart(fl, live, base, brk, b);
    forall x: int
      ensures base <= x < b.End() <==> Covers(fl, x) || b.Holds(x) || LiveHolds(live, x)
    {
    }
    InsertTiled(fl, b, live, base, b.End());
  }

  lemma FirstFitIs(fl: seq<Block>, needed: nat, i: nat)
    requires i <= |fl| && (forall j :: 0 <= j < i ==> fl[j].size < needed)
    requires i < |fl| ==> fl[i].size >= needed
    ensures FirstFit(fl, needed) == i
  {
  }

  lemma BelowIs(fl: seq<Block>, a: nat, i: nat)
    requires i <= |fl| && (forall j :: 0 <= j < i ==> fl[j].addr < a)
    requires i < |fl| ==> fl[i].addr >= a
    ensures Below(fl, a) == i
  {
  }

  class UserAllocator {
    var head: nat
    var mem: map<nat, Header>
    var brk: nat
    ghost const base: nat
    ghost var free: seq<Block>
    ghost var live: set<Block>

    ghost predicate Valid()
      reads this
    {
      && Linked(mem, head, free)
      && LiveHeaders(mem, live)
      && Tiled(free, live, base, brk)
      && 0 < brk && brk % PGSIZE == 0
    }

    constructor (sz: nat)
      requires 0 < sz && sz % PGSIZE == 0
      ensures Valid() && free == [] && live == {} && brk == base == sz
    {
      head := 0;
      mem := map[];
      brk := sz;
      base := sz;
      free := [];
      live := {};
    }

    /** First fit. `b` is the block handed out. */
    method AllocFromFreelist(needed: nat) returns (p: nat, ghost b: Block)
      requires Valid() && needed >= MIN_BLOCK_SIZE && needed % ALIGN == 0
      modifies `head, `mem, `free, `live
      ensures Valid()
      ensures p == 0 <==> NoFit(old(free), needed)
      ensures p == 0 ==> free == old(free) && live == old(live)
      ensures p != 0 ==>
        var i := FirstFit(old(free), needed);
        && i < |old(free)| && b == Granted(old(free)[i], needed)
        && b !in old(live) && b.WellFormed() && b.size >= needed
        && p == b.addr + HEADER_SIZE
        && free == Take(old(free), i, needed)
        && live == old(live) + {b}
    {
      hide Covers, LiveHolds, Total, LiveTotal;
      b := Block(0, 0);
      ghost var i := 0;
      var prev, cur := 0, head;
      while cur != 0
        invariant 0 <= i <= |free| && cur == AddrAt(free, i)
        invariant prev == if i == 0 then 0 else free[i - 1].addr
        invariant forall j :: 0 <= j < i ==> free[j].size < needed
        invariant Valid() && free == old(free) && live == old(live)
        decreases |free| - i
      {
        assert LinkAt(mem, free, i);
        if mem[cur].size >= needed {
          FirstFitIs(free, needed, i);
          Unlink(prev, cur, needed, i);
          TakeTiled(free, i, needed, live, base, brk);
          b := Granted(free[i], needed);
          live := live + {b};
          free := Take(free, i, needed);
          p := cur + HEADER_SIZE;
          return;
        }
        prev := cur;
        cur := mem[cur].next;
        i := i + 1;
      }
      p := 0;
    }

    /** The body of the search loop once a block fits: split or unlink it. */
    method Unlink(prev: nat, cur: nat, needed: nat, ghost i: nat)
      requires Ordered(free) && Linked(mem, head, free) && LiveHeaders(mem, live)
      requires forall b :: b in live ==> b.Sized() && ApartFrom(free, b)
      requires i < |free| && cur == free[i].addr
      requires prev == if i == 0 then 0 else free[i - 1].addr
      requires MIN_BLOCK_SIZE <= needed <= free[i].size
      modifies `head, `mem
      ensures Linked(mem, head, Take(free, i, needed))
      ensures LiveHeaders(mem, live + {Granted(free[i], needed)})
    {
      assert LinkAt(mem, free, i) && (i > 0 ==> LinkAt(mem, free, i - 1));
      var remaining := mem[cur].size - needed;
      if remaining >= MIN_BLOCK_SIZE {
        var rest := cur + needed;
        mem := mem[rest := Header(remaining, mem[cur].next)];
        mem := mem[cur := mem[cur].(size := needed)];
        if prev == 0 {
          head := rest;
        } else {
          mem := mem[prev := mem[prev].(next := rest)];
        }
      } else {
        if prev == 0 {
          head := mem[cur].next;
        } else {
          mem := mem[prev := mem[prev].(next := mem[cur].next)];
        }
      }
      mem := mem[cur := mem[cur].(next := 0)];
      TakeHeaders(old(mem), mem, old(head), head, free, i, needed, live);
    }

    /** Links `block` in at its address and merges it with what it touches. */
    method InsertFreeBlock(block: nat)
      requires block in mem && Insertable(mem, head, free, live, Block(block, mem[block].size))
      modifies `head, `mem
      ensures Linked(mem, head, Insert(free, Block(block, old(mem)[block].size)))
      ensures LiveHeaders(mem, live)
    {
      ghost var i := 0;
      var prev, cur := 0, head;
      while cur != 0 && cur < block
        invariant 0 <= i <= |free| && cur == AddrAt(free, i)
        invariant prev == if i == 0 then 0 else free[i - 1].addr
        invariant forall j :: 0 <= j < i ==> free[j].addr < block
        invariant mem == old(mem) && head == old(head)
        decreases |free| - i
      {
        assert LinkAt(mem, free, i);
        prev := cur;
        cur := mem[cur].next;
        i := i + 1;
      }
      BelowIs(free, block, i);
      LinkAndMerge(prev, cur, block, i);
    }

    method LinkAndMerge(prev: nat, cur: nat, block: nat, ghost i: nat)
      requires block in mem && Insertable(mem, head, free, live, Block(block, mem[block].size))
      requires i == Below(free, block) && cur == AddrAt(free, i)
      requires prev == if i == 0 then 0 else free[i - 1].addr
      modifies `head, `mem
      ensures Linked(mem, head, Insert(free, Block(block, old(mem)[block].size)))
      ensures LiveHeaders(mem, live)
    {
      ghost var b := Block(block, mem[block].size);
      assert i > 0 ==> LinkAt(mem, free, i - 1) && free[i - 1].Apart(b);
      assert i < |free| ==> LinkAt(mem, free, i) && free[i].Apart(b);
      mem := mem[block := mem[block].(next := cur)];
      if prev == 0 {
        head := block;
      } else {
        mem := mem[prev := mem[prev].(next := block)];
      }
      ghost var linked := mem;
      Merge(prev, cur, block);
      InsertHeaders(old(mem), linked, mem, old(head), head, free, b, i, live);
    }

    method Merge(prev: nat, cur: nat, block: nat)
      requires block in mem
      requires prev != 0 ==> prev in mem && prev != block && prev != cur
      requires cur != 0 ==> cur in mem && cur != block
      modifies `mem
      ensures mem == Merged(old(mem), prev, cur, block)
    {
      var merged := block;
      if prev != 0 && prev + mem[prev].size == block {
        mem := mem[prev := Header(mem[prev].size + mem[block].size, mem[block].next)];
        merged := prev;
      }
      if cur != 0 && merged + mem[merged].size == cur {
        mem := mem[merged := Header(mem[merged].size + mem[cur].size, mem[cur].next)];
      }
    }

    /** The system call: moves brk up by a page multiple and returns the old
        break, or fails. */
    method Sbrk(n: int, oom: bool) returns (r: Option<nat>)
      modifies `brk
      ensures r.Some? <==> n >= 0 && !oom && old(brk) + n <= USER_STACK
      ensures if r.Some? then r.value == old(brk) && brk == old(brk) + n else brk == old(brk)
    {
      if n < 0 || oom || brk + n > USER_STACK {
        return None;
      }
      r := Some(brk);
      brk := brk + n;
    }

    /** Obtains a page-rounded chunk from sbrk and frees it into the list. */
    method GrowHeap(needed: nat, oom: bool) returns (ok: bool)
      requires Valid() && needed >= MIN_BLOCK_SIZE
      modifies this
      ensures Valid() && live == old(live)
      ensures ok <==> GrowsTo(needed, old(brk), oom).Some?
      ensures ok ==> brk % PGSIZE == 0 && needed <= brk - old(brk) < needed + PGSIZE && brk <= USER_STACK
      ensures !ok ==> oom || old(brk) + needed + PGSIZE > USER_STACK
      ensures if ok then
          && brk == GrowsTo(needed, old(brk), oom).value
          && free == Insert(old(free), Block(old(brk), brk - old(brk)))
        else
          brk == old(brk) && free == old(free)
    {
      hide Tiled, Linked, LiveHeaders, Insert, AlignUp, Block.WellFormed;
      var aligned := AlignUp(needed, PGSIZE);
      if aligned.None? || aligned.value > ISIZE_MAX {
        return false;
      }
      var total := aligned.value;
      var block := Sbrk(total, oom);
      if block.None? {
        return false;
      }
      PageBlock(block.value, total);
      PageSum(block.value, total);
      FreeChunk(block.value, total);
      ok := true;
    }

    method FreeChunk(block: nat, total: nat)
      requires Linked(mem, head, free) && LiveHeaders(mem, live) && Tiled(free, live, base, block)
      requires Block(block, total).WellFormed()
      modifies `head, `mem, `free
      ensures Linked(mem, head, free) && LiveHeaders(mem, live) && Tiled(free, live, base, block + total)
      ensures free == Insert(old(free), Block(block, total))
    {
      ghost var b := Block(block, total);
      GrowTiled(free, live, base, block, b);
      HeaderAdded(mem, head, free, live, b, Header(total, 0));
      mem := mem[block := Header(total, 0)];
      InsertFreeBlock(block);
      free := Insert(free, b);
    }

    /** Returns null exactly when the alignment is unsupported, the size does not
        fit a machine word, or no free block fits and the heap cannot grow. */
    method Alloc(size: nat, align: nat, oom: bool) returns (p: nat, ghost b: Block)
      requires Valid()
      modifies this
      ensures Valid()
      ensures p == 0 <==> Refused(size, align, old(free), old(brk), oom)
      ensures p == 0 ==> free == old(free) && live == old(live) && brk == old(brk)
      ensures p != 0 ==>
        && b !in old(live) && live == old(live) + {b} && b.WellFormed()
        && p == b.addr + HEADER_SIZE && p + size <= b.End()
        && b.size < HEADER_SIZE + (if size == 0 then 1 else size) + ALIGN + MIN_BLOCK_SIZE
      ensures p != 0 ==>
        var i := FirstFit(old(free), Needed(size).value);
        if i < |old(free)| then b.addr == old(free)[i].addr && brk == old(brk) else brk > old(brk)
    {
      hide Tiled, Linked, LiveHeaders, NoFit, FirstFit, Granted, Take, Insert, GrowsTo, Needed;
      b := Block(0, 0);
      if align > ALIGN {
        return 0, b;
      }
      var needed := Needed(size);
      if needed.None? {
        return 0, b;
      }
      p, b := AllocFromFreelist(needed.value);
      if p != 0 {
        GrantedFits(old(free)[FirstFit(old(free), needed.value)], needed.value);
        return;
      }
      NothingFits(free, needed.value);
      var grown := GrowHeap(needed.value, oom);
      if !grown {
        return 0, b;
      }
      GrownFits(old(free), needed.value, old(brk), oom);
      ghost var grownFree := free;
      p, b := AllocFromFreelist(needed.value);
      GrantedFits(grownFree[FirstFit(grownFree, needed.value)], needed.value);
    }

    method Dealloc(p: nat, ghost b: Block)
      requires Valid()
      requires p != 0 ==> b in live && p == b.addr + HEADER_SIZE
      modifies `head, `mem, `free, `live
      ensures Valid()
      ensures if p == 0 then free == old(free) && live == old(live)
              else live == old(live) - {b} && free == Insert(old(free), b)
    {
      if p == 0 {
        return;
      }
      hide Covers, LiveHolds, Total, LiveTotal;
      FreeTiled(free, live, base, brk, b);
      LiveInsertable(mem, head, free, live, b);
      live := live - {b};
      InsertFreeBlock(p - HEADER_SIZE);
      free := Insert(free, b);
    }
  }
}
