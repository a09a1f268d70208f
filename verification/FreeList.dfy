/** The free list of the user-space allocator as a value: what first fit takes
    out of it, what coalescing insertion puts into it, and why a coalesced list
    is determined by the bytes it covers alone. */
module FreeList {

  const ALIGN := 16
  const HEADER_SIZE := 16
  const MIN_BLOCK_SIZE := 32

  datatype Block = Block(addr: nat, size: nat) {
    function End(): nat { addr + size }

    predicate Holds(x: int) { addr <= x < addr + size }

    predicate Sized() { addr > 0 && size >= MIN_BLOCK_SIZE }

    predicate Aligned() { addr % ALIGN == 0 && size % ALIGN == 0 }

    predicate WellFormed() { Sized() && Aligned() }

    predicate Apart(that: Block) { End() <= that.addr || that.End() <= addr }
  }

  /** Address-sorted, disjoint, and no two blocks touch. */
  ghost predicate Ordered(fl: seq<Block>) {
    && (forall i :: 0 <= i < |fl| ==> fl[i].Sized())
    && (forall i, j :: 0 <= i < j < |fl| ==> fl[i].End() < fl[j].addr)
  }

  ghost predicate Coalesced(fl: seq<Block>) {
    Ordered(fl) && forall i :: 0 <= i < |fl| ==> fl[i].Aligned()
  }

  ghost predicate Covers(fl: seq<Block>, x: int) {
    exists i :: 0 <= i < |fl| && fl[i].Holds(x)
  }

  ghost predicate SameBytes(f: seq<Block>, g: seq<Block>) {
    forall x: int :: Covers(f, x) <==> Covers(g, x)
  }

  ghost predicate ApartFrom(fl: seq<Block>, b: Block) {
    forall i :: 0 <= i < |fl| ==> fl[i].Apart(b)
  }

  function Total(fl: seq<Block>): nat {
    if fl == [] then 0 else fl[0].size + Total(fl[1..])
  }

  /** Blocks k..l replaced by `mid`. */
  function Splice(fl: seq<Block>, k: nat, mid: seq<Block>, l: nat): seq<Block>
    requires k <= l <= |fl|
  {
    fl[..k] + mid + fl[l..]
  }

  // ---- First fit -------------------------------------------------------------

  /** Position of the first block of at least `needed` bytes, |fl| if none. */
  function FirstFit(fl: seq<Block>, needed: nat): (i: nat)
    ensures i <= |fl|
    ensures forall j :: 0 <= j < i ==> fl[j].size < needed
    ensures i < |fl| ==> fl[i].size >= needed
  {
    if fl == [] || fl[0].size >= needed then 0 else 1 + FirstFit(fl[1..], needed)
  }

  predicate Splits(b: Block, needed: nat)
    requires needed <= b.size
  {
    b.size - needed >= MIN_BLOCK_SIZE
  }

  /** The block handed out when `b` serves a request of `needed` bytes. */
  function Granted(b: Block, needed: nat): Block
    requires needed <= b.size
  {
    if Splits(b, needed) then Block(b.addr, needed) else b
  }

  /** A block handed out is large enough, and no larger than a split could make it. */
  lemma GrantedFits(b: Block, needed: nat)
    requires needed <= b.size
    ensures Granted(b, needed).addr == b.addr && needed <= Granted(b, needed).size < needed + MIN_BLOCK_SIZE
    ensures Granted(b, needed).size == needed || Granted(b, needed) == b
  {
  }

  /** What stays free of a block that served a request of `needed` bytes. */
  function Remainder(b: Block, needed: nat): (r: seq<Block>)
    requires needed <= b.size
    ensures |r| <= 1
  {
    if Splits(b, needed) then [Block(b.addr + needed, b.size - needed)] else []
  }

  /** The free list after block `i` served a request of `needed` bytes. */
  function Take(fl: seq<Block>, i: nat, needed: nat): seq<Block>
    requires i < |fl| && needed <= fl[i].size
  {
    Splice(fl, i, Remainder(fl[i], needed), i + 1)
  }

  // ---- Coalescing insertion --------------------------------------------------

  /** Number of blocks that start below `a`. */
  function Below(fl: seq<Block>, a: nat): (i: nat)
    ensures i <= |fl|
    ensures forall j :: 0 <= j < i ==> fl[j].addr < a
    ensures i < |fl| ==> fl[i].addr >= a
  {
    if fl == [] || fl[0].addr >= a then 0 else 1 + Below(fl[1..], a)
  }

  /** Blocks before this index are kept on the left of the inserted block. */
  function LeftKept(fl: seq<Block>, b: Block): (k: nat)
    ensures k <= Below(fl, b.addr)
  {
    var i := Below(fl, b.addr);
    if i > 0 && fl[i - 1].End() == b.addr then i - 1 else i
  }

  /** Blocks from this index on are kept on the right of the inserted block. */
  function RightKept(fl: seq<Block>, b: Block): (k: nat)
    ensures Below(fl, b.addr) <= k <= |fl|
  {
    var i := Below(fl, b.addr);
    if i < |fl| && b.End() == fl[i].addr then i + 1 else i
  }

  /** `b` merged with the neighbours it touches. */
  function Joined(fl: seq<Block>, b: Block): Block {
    var i := Below(fl, b.addr);
    var lo := if LeftKept(fl, b) < i then fl[i - 1] else Block(b.addr, 0);
    var hi := if i < RightKept(fl, b) then fl[i] else Block(b.End(), 0);
    Block(lo.addr, lo.size + b.size + hi.size)
  }

  function Insert(fl: seq<Block>, b: Block): seq<Block> {
    Splice(fl, LeftKept(fl, b), [Joined(fl, b)], RightKept(fl, b))
  }

  lemma TotalAppend(f: seq<Block>, g: seq<Block>)
    ensures Total(f + g) == Total(f) + Total(g)
  {
    if f == [] {
      assert f + g == g;
    } else {
      assert (f + g)[1..] == f[1..] + g;
      TotalAppend(f[1..], g);
    }
  }

  /** The joined block sits strictly between the blocks kept on either side and
      holds the bytes of `b` and of the neighbours merged into it. */
  lemma JoinedShape(fl: seq<Block>, b: Block)
    requires Coalesced(fl) && b.WellFormed() && ApartFrom(fl, b)
    ensures Joined(fl, b).WellFormed()
    ensures forall j :: 0 <= j < LeftKept(fl, b) ==> fl[j].End() < Joined(fl, b).addr
    ensures forall j :: RightKept(fl, b) <= j < |fl| ==> Joined(fl, b).End() < fl[j].addr
  {
    var i, m := Below(fl, b.addr), Joined(fl, b);
    var lo := if LeftKept(fl, b) < i then fl[i - 1].size else 0;
    var hi := if i < RightKept(fl, b) then fl[i].size else 0;
    AlignedSum(lo, b.size, hi);
    assert m.size == lo + b.size + hi;
    JoinedBetween(fl, b, i, LeftKept(fl, b), RightKept(fl, b), m);
  }

  lemma AlignedSum(a: nat, b: nat, c: nat)
    requires a % ALIGN == 0 && b % ALIGN == 0 && c % ALIGN == 0
    ensures (a + b + c) % ALIGN == 0
  {
  }

  lemma JoinedBetween(fl: seq<Block>, b: Block, i: nat, k: nat, l: nat, m: Block)
    requires Coalesced(fl) && b.WellFormed() && ApartFrom(fl, b) && i <= |fl|
    requires forall j :: 0 <= j < i ==> fl[j].addr < b.addr
    requires i < |fl| ==> fl[i].addr >= b.addr
    requires if i > 0 && fl[i - 1].End() == b.addr
             then k == i - 1 && m.addr == fl[i - 1].addr else k == i && m.addr == b.addr
    requires if i < |fl| && b.End() == fl[i].addr
             then l == i + 1 && m.End() == fl[i].End() else l == i && m.End() == b.End()
    requires m.size % ALIGN == 0 && m.size >= b.size
    ensures m.WellFormed()
    ensures forall j :: 0 <= j < k ==> fl[j].End() < m.addr
    ensures forall j :: l <= j < |fl| ==> m.End() < fl[j].addr
  {
    assert i > 0 ==> fl[i - 1].Apart(b);
    assert i < |fl| ==> fl[i].Apart(b);
    forall j | 0 <= j < k ensures fl[j].End() < m.addr {
      if j < i - 1 { assert fl[j].End() < fl[i - 1].addr; }
    }
    forall j | l <= j < |fl| ensures m.End() < fl[j].addr {
      if j > i { assert fl[i].End() < fl[j].addr; }
    }
  }

  lemma JoinedHolds(fl: seq<Block>, b: Block, x: int)
    ensures Joined(fl, b).Holds(x) <==>
            b.Holds(x) || (exists j :: LeftKept(fl, b) <= j < RightKept(fl, b) && fl[j].Holds(x))
  {
    var i := Below(fl, b.addr);
    if LeftKept(fl, b) < i && fl[i - 1].Holds(x) {}
    if i < RightKept(fl, b) && fl[i].Holds(x) {}
  }

  /** Insertion keeps the list sorted and coalesced. */
  lemma InsertCoalesced(fl: seq<Block>, b: Block)
    requires Coalesced(fl) && b.WellFormed() && ApartFrom(fl, b)
    ensures Coalesced(Insert(fl, b))
  {
    JoinedShape(fl, b);
    SpliceCoalesced(fl, LeftKept(fl, b), [Joined(fl, b)], RightKept(fl, b));
  }

  lemma SpliceCoalesced(fl: seq<Block>, k: nat, mid: seq<Block>, l: nat)
    requires Coalesced(fl) && k <= l <= |fl| && |mid| <= 1
    requires |mid| == 1 ==> (
      && mid[0].WellFormed()
      && (forall j :: 0 <= j < k ==> fl[j].End() < mid[0].addr)
      && (forall j :: l <= j < |fl| ==> mid[0].End() < fl[j].addr))
    ensures Coalesced(Splice(fl, k, mid, l))
  {
  }

  lemma SpliceCovers(fl: seq<Block>, k: nat, mid: seq<Block>, l: nat, x: int)
    requires k <= l <= |fl|
    ensures Covers(Splice(fl, k, mid, l), x) <==>
            Covers(mid, x) || exists j :: 0 <= j < |fl| && !(k <= j < l) && fl[j].Holds(x)
  {
    var r := Splice(fl, k, mid, l);
    if j :| 0 <= j < |r| && r[j].Holds(x) {
      if j < k {
        assert fl[j].Holds(x);
      } else if j < k + |mid| {
        assert mid[j - k].Holds(x);
      } else {
        assert fl[j - k - |mid| + l].Holds(x);
      }
    }
    if j :| 0 <= j < |mid| && mid[j].Holds(x) {
      assert r[j + k].Holds(x);
    }
    if j :| 0 <= j < |fl| && !(k <= j < l) && fl[j].Holds(x) {
      assert r[if j < k then j else j - l + k + |mid|].Holds(x);
    }
  }

  /** Insertion adds exactly the bytes of the block. */
  lemma InsertCovers(fl: seq<Block>, b: Block, x: int)
    requires Coalesced(fl) && b.WellFormed() && ApartFrom(fl, b)
    ensures Covers(Insert(fl, b), x) <==> Covers(fl, x) || b.Holds(x)
  {
    JoinedHolds(fl, b, x);
    SpliceCovers(fl, LeftKept(fl, b), [Joined(fl, b)], RightKept(fl, b), x);
    assert [Joined(fl, b)][0] == Joined(fl, b);
  }

  /** Insertion adds exactly the size of the block. */
  lemma InsertTotal(fl: seq<Block>, b: Block)
    ensures Total(Insert(fl, b)) == Total(fl) + b.size
  {
    var i, k, l := Below(fl, b.addr), LeftKept(fl, b), RightKept(fl, b);
    SpliceTotal(fl, k, [Joined(fl, b)], l);
    assert k < i ==> fl[k..i] == [fl[i - 1]];
    assert i < l ==> fl[i..l] == [fl[i]];
    assert fl[k..l] == fl[k..i] + fl[i..l];
    TotalAppend(fl[k..i], fl[i..l]);
  }

  lemma SpliceTotal(fl: seq<Block>, k: nat, mid: seq<Block>, l: nat)
    requires k <= l <= |fl|
    ensures Total(Splice(fl, k, mid, l)) + Total(fl[k..l]) == Total(fl) + Total(mid)
  {
    var a, b, c := fl[..k], fl[k..l], fl[l..];
    TotalAppend(a + mid, c);
    TotalAppend(a, mid);
    TotalAppend(a + b, c);
    TotalAppend(a, b);
    assert fl == a + b + c;
  }

  /** Taking a block keeps the list sorted and coalesced, and what is handed out
      is a well-formed block apart from everything still free. */
  lemma TakeCoalesced(fl: seq<Block>, i: nat, needed: nat)
    requires Coalesced(fl) && i < |fl|
    requires MIN_BLOCK_SIZE <= needed <= fl[i].size && needed % ALIGN == 0
    ensures Coalesced(Take(fl, i, needed))
    ensures Granted(fl[i], needed).WellFormed()
    ensures ApartFrom(Take(fl, i, needed), Granted(fl[i], needed))
  {
    var rest := Block(fl[i].addr + needed, fl[i].size - needed);
    assert rest.addr % ALIGN == 0 && rest.size % ALIGN == 0;
    SpliceCoalesced(fl, i, Remainder(fl[i], needed), i + 1);
  }

  /** A coalesced list is canonical: two of them that cover the same bytes are
      the same list. */
  lemma {:induction false} Canonical(f: seq<Block>, g: seq<Block>)
    requires Coalesced(f) && Coalesced(g) && SameBytes(f, g)
    ensures f == g
  {
    if f == [] || g == [] {
      if f != [] {
        assert f[0].Holds(f[0].addr);
        assert Covers(f, f[0].addr);
        assert false;
      }
      if g != [] {
        assert g[0].Holds(g[0].addr);
        assert Covers(g, g[0].addr);
        assert false;
      }
    } else {
      FirstBlock(f, g);
      FirstBlock(g, f);
      assert f[0] == g[0];
      forall x: int
        ensures Covers(f[1..], x) <==> Covers(g[1..], x)
      {
        TailCovers(f, x);
        TailCovers(g, x);
      }
      Canonical(f[1..], g[1..]);
    }
  }

  /** The first block of `g` starts no later and ends no later than that of `f`. */
  lemma FirstBlock(f: seq<Block>, g: seq<Block>)
    requires Coalesced(f) && Coalesced(g) && SameBytes(f, g) && f != [] && g != []
    ensures g[0].addr <= f[0].addr
    ensures f[0].addr == g[0].addr ==> g[0].End() <= f[0].End()
  {
    assert f[0].Holds(f[0].addr);
    assert Covers(f, f[0].addr);
    var j :| 0 <= j < |g| && g[j].Holds(f[0].addr);
    assert g[0].addr <= g[j].addr;
    assert !Covers(f, f[0].End());
    assert !Covers(g, f[0].End());
    assert !g[0].Holds(f[0].End());
  }

  lemma TailCovers(f: seq<Block>, x: int)
    requires Coalesced(f) && f != []
    ensures Covers(f[1..], x) <==> Covers(f, x) && !f[0].Holds(x)
  {
    if Covers(f[1..], x) {
      var i :| 0 <= i < |f| - 1 && f[1..][i].Holds(x);
      assert f[i + 1].Holds(x);
    }
    if Covers(f, x) && !f[0].Holds(x) {
      var i :| 0 <= i < |f| && f[i].Holds(x);
      assert f[1..][i - 1].Holds(x);
    }
  }

  /** alloc followed by dealloc of the same block restores the free list,
      whatever split or coalescing the two steps did. */
  lemma TakeThenInsert(fl: seq<Block>, i: nat, needed: nat)
    requires Coalesced(fl) && i < |fl|
    requires MIN_BLOCK_SIZE <= needed <= fl[i].size && needed % ALIGN == 0
    ensures Insert(Take(fl, i, needed), Granted(fl[i], needed)) == fl
  {
    var t := Take(fl, i, needed);
    var b := Granted(fl[i], needed);
    TakeCoalesced(fl, i, needed);
    InsertCoalesced(t, b);
    forall x: int
      ensures Covers(Insert(t, b), x) <==> Covers(fl, x)
    {
      InsertCovers(t, b, x);
      TakeCovers(fl, i, needed, x);
    }
    Canonical(Insert(t, b), fl);
  }

  /** What is taken and what stays free partition the bytes that were free. */
  lemma TakeCovers(fl: seq<Block>, i: nat, needed: nat, x: int)
    requires Coalesced(fl) && i < |fl|
    requires MIN_BLOCK_SIZE <= needed <= fl[i].size && needed % ALIGN == 0
    ensures Covers(fl, x) <==> Covers(Take(fl, i, needed), x) || Granted(fl[i], needed).Holds(x)
  {
    var mid := Remainder(fl[i], needed);
    SpliceCovers(fl, i, mid, i + 1, x);
    assert Splits(fl[i], needed) ==> (Covers(mid, x) <==> mid[0].Holds(x));
    assert fl[i].Holds(x) <==> Covers(mid, x) || Granted(fl[i], needed).Holds(x);
  }

  lemma TakeTotal(fl: seq<Block>, i: nat, needed: nat)
    requires i < |fl| && needed <= fl[i].size
    ensures Total(Take(fl, i, needed)) + Granted(fl[i], needed).size == Total(fl)
  {
    SpliceTotal(fl, i, Remainder(fl[i], needed), i + 1);
    assert fl[i..i + 1] == [fl[i]];
  }

  /** The order in which blocks are freed does not matter. */
  lemma InsertCommutes(fl: seq<Block>, a: Block, b: Block)
    requires Coalesced(fl) && a.WellFormed() && b.WellFormed() && a.Apart(b)
    requires ApartFrom(fl, a) && ApartFrom(fl, b)
    ensures Insert(Insert(fl, a), b) == Insert(Insert(fl, b), a)
  {
    InsertCoalesced(fl, a);
    InsertCoalesced(fl, b);
    InsertApart(fl, a, b);
    InsertApart(fl, b, a);
    InsertCoalesced(Insert(fl, a), b);
    InsertCoalesced(Insert(fl, b), a);
    forall x: int
      ensures Covers(Insert(Insert(fl, a), b), x) <==> Covers(Insert(Insert(fl, b), a), x)
    {
      InsertCovers(fl, a, x);
      InsertCovers(fl, b, x);
      InsertCovers(Insert(fl, a), b, x);
      InsertCovers(Insert(fl, b), a, x);
    }
    Canonical(Insert(Insert(fl, a), b), Insert(Insert(fl, b), a));
  }

  /** A block apart from the list and from the inserted block stays apart. */
  lemma InsertApart(fl: seq<Block>, a: Block, b: Block)
    requires Coalesced(fl) && a.WellFormed() && b.WellFormed() && a.Apart(b)
    requires ApartFrom(fl, a) && ApartFrom(fl, b)
    ensures ApartFrom(Insert(fl, a), b)
  {
    InsertCoalesced(fl, a);
    InsertCovers(fl, a, b.addr);
    var r := Insert(fl, a);
    forall i | 0 <= i < |r|
      ensures r[i].Apart(b)
    {
      if !r[i].Apart(b) {
        var x := if r[i].addr <= b.addr then b.addr else r[i].addr;
        assert r[i].Holds(x);
        InsertCovers(fl, a, x);
        assert false;
      }
    }
  }
}
