/** Physical pages: the free list threaded through the free pages themselves, and who
    owns every page of managed memory. */
module PhysPages {
  import opened Prelude
  import opened FsLayout
  import opened Sv39

  const PGSIZE := 4096
  const NPTE := 512

  /** First frame past the end of RAM. */
  const TOP := 0x88000

  /** What a frame holds: a link of the free list, a page table, or plain bytes. */
  datatype Page = Run(next: nat) | Table(ptes: seq<Pte>) | Data(bytes: seq<Byte>)

  /** `Loose` pages are held by the kernel itself: trapframes, kernel stacks and pages
      on their way into an address space. Tables and user pages belong to the address
      space with that root, each for one place in its tree. */
  datatype Owner = Free | Loose | Of(root: nat, place: Place)

  /** An address space seen flat: the frame of every table and user page, and every
      valid leaf entry. */
  datatype Space = Space(at: map<Place, nat>, flat: map<Place, Pte>)

  type Memory = map<nat, Page>
  type Owners = map<nat, Owner>

  function ZeroTable(): seq<Pte> { seq(NPTE, _ => NONE) }

  /** The map of all of [lo, hi) to x. */
  function Filled<T>(lo: nat, hi: nat, x: T): (m: map<nat, T>)
    ensures forall f :: f in m <==> lo <= f < hi
    ensures forall f :: f in m ==> m[f] == x
    decreases hi - lo
  {
    if lo >= hi then map[] else Filled(lo + 1, hi, x)[lo := x]
  }

  ghost predicate Linked(mem: Memory, head: nat, free: seq<nat>)
    decreases |free|
  {
    if free == [] then head == 0
    else head == free[0] && head in mem && mem[head].Run? && Linked(mem, mem[head].next, free[1..])
  }

  ghost predicate NoDup(s: seq<nat>) { forall i, j :: 0 <= i < j < |s| ==> s[i] != s[j] }

  /** The list holds every free frame once. */
  ghost predicate FreeOk(mem: Memory, head: nat, free: seq<nat>, own: Owners) {
    && Linked(mem, head, free) && NoDup(free)
    && (forall f :: f in free ==> f in own && own[f] == Free)
    && (forall f :: f in own && own[f] == Free ==> f in free)
  }

  ghost predicate Managed(first: nat, mem: Memory, own: Owners) {
    && 0 < first <= TOP
    && (forall f :: f in mem <==> first <= f < TOP) && (forall f :: f in own <==> first <= f < TOP)
  }

  lemma {:induction false} LinkedKept(mem: Memory, mem': Memory, head: nat, free: seq<nat>)
    requires Linked(mem, head, free) && forall f :: f in free && f in mem ==> f in mem' && mem'[f] == mem[f]
    ensures Linked(mem', head, free)
    decreases |free|
  {
    if free != [] {
      LinkedKept(mem, mem', mem[head].next, free[1..]);
    }
  }

  /** Writing frames that are not free leaves the free list alone. */
  lemma FreeKept(mem: Memory, mem': Memory, head: nat, free: seq<nat>, own: Owners, own': Owners)
    requires FreeOk(mem, head, free, own)
    requires forall f :: f in mem && f in own && own[f] == Free ==> f in mem' && mem'[f] == mem[f]
    requires own'.Keys == own.Keys && forall f :: f in own ==> (own'[f] == Free <==> own[f] == Free)
    ensures FreeOk(mem', head, free, own')
  {
    LinkedKept(mem, mem', head, free);
  }

  lemma PushFree(mem: Memory, head: nat, free: seq<nat>, own: Owners, f: nat)
    requires FreeOk(mem, head, free, own) && f in own && own[f] != Free && f in mem
    ensures FreeOk(mem[f := Run(head)], f, [f] + free, own[f := Free])
  {
    var mem' := mem[f := Run(head)];
    assert f !in free;
    LinkedKept(mem, mem', head, free);
    assert ([f] + free)[1..] == free;
  }

  lemma PopFree(mem: Memory, head: nat, free: seq<nat>, own: Owners, o: Owner)
    requires FreeOk(mem, head, free, own) && free != [] && o != Free
    ensures head == free[0] && head in mem && mem[head].Run?
    ensures FreeOk(mem, mem[head].next, free[1..], own[head := o])
  {
    forall f | f in free[1..] ensures f != head {
      var i :| 0 <= i < |free[1..]| && free[1..][i] == f;
      assert free[1 + i] == f;
    }
    assert free == [head] + free[1..];
  }

  /** The free frames and the owners of all others. */
  class Machine {
    const first: nat
    var mem: Memory
    var head: nat
    ghost var free: seq<nat>
    ghost var own: Owners
    ghost var spaces: map<nat, Space>

    ghost predicate Pool()
      reads this
    {
      Managed(first, mem, own) && FreeOk(mem, head, free, own)
    }

    /** freerange over all managed frames: everything is free. */
    constructor (first: nat)
      requires 0 < first <= TOP
      ensures Pool() && this.first == first && spaces == map[] && |free| == TOP - first
      ensures forall f :: f in own ==> own[f] == Free
    {
      this.first := first;
      mem := Filled(first, TOP, Data(Zeros(PGSIZE)));
      head := 0;
      free := [];
      own := Filled(first, TOP, Loose);
      spaces := map[];
      new;
      var p := first;
      while p < TOP
        invariant first <= p <= TOP && Pool() && spaces == map[] && |free| == p - first
        invariant forall f :: f in own ==> own[f] == if f < p then Free else Loose
      {
        Kfree(p);
        p := p + 1;
      }
    }

    /** The frame goes to the head of the list; nothing else changes. */
    method Kfree(f: nat)
      requires Pool() && f in own && own[f] != Free
      modifies `mem, `head, `free, `own
      ensures Pool() && free == [f] + old(free) && own == old(own)[f := Free] && mem == old(mem)[f := Run(old(head))]
    {
      PushFree(mem, head, free, own, f);
      mem := mem[f := Run(head)];
      head := f;
      free, own := [f] + free, own[f := Free];
    }

    /** A frame that was free and nobody else has; None exactly when no frame is free. */
    method Kalloc() returns (r: Option<nat>)
      requires Pool()
      modifies `mem, `head, `free, `own
      ensures Pool() && mem == old(mem) && (r.None? <==> old(free) == [])
      ensures r.None? ==> free == old(free) && own == old(own)
      ensures r.Some? ==>
        && r.value in old(own) && old(own)[r.value] == Free && r.value != 0
        && own == old(own)[r.value := Loose] && free == old(free)[1..]
    {
      if head == 0 {
        return None;
      }
      PopFree(mem, head, free, own, Loose);
      r := Some(head);
      own, free := own[head := Loose], free[1..];
      head := mem[head].next;
    }

    method KallocZeroed() returns (r: Option<nat>)
      requires Pool()
      modifies `mem, `head, `free, `own
      ensures Pool() && (r.None? <==> old(free) == [])
      ensures r.None? ==> free == old(free) && own == old(own) && mem == old(mem)
      ensures r.Some? ==>
        && r.value in old(own) && old(own)[r.value] == Free && r.value != 0
        && own == old(own)[r.value := Loose] && free == old(free)[1..]
        && mem == old(mem)[r.value := Data(Zeros(PGSIZE))]
    {
      r := Kalloc();
      if r.Some? {
        FreeKept(mem, mem[r.value := Data(Zeros(PGSIZE))], head, free, own, own);
        mem := mem[r.value := Data(Zeros(PGSIZE))];
      }
    }
  }
}
