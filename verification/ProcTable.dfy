/** The pages of all processes together: every frame of managed memory is free, or kept by
    the kernel, or has exactly one use in exactly one process, whatever calls are made; and
    when a process can no longer be reaped. */
module ProcTable {
  import opened Prelude
  import opened FsLayout
  import opened Sv39
  import opened PhysPages
  import opened PageTables
  import opened UserSpace
  import opened Procs

  const NPROC := 16

  /** How many user pages a process really has mapped, and whether it has a stack. */
  datatype Shape = Shape(pages: nat, stack: bool)

  /** The frame is the trapframe or the kernel stack of p. */
  ghost predicate Keeps(p: Proc, f: nat) { f != 0 && (f == p.trapframe || f == p.kstack) }

  ghost predicate KeptBySome(procs: seq<Proc>, f: nat) { exists i :: 0 <= i < |procs| && Keeps(procs[i], f) }

  ghost predicate RootOfSome(procs: seq<Proc>, r: nat) {
    r != 0 && exists i :: 0 <= i < |procs| && procs[i].pagetable == r
  }

  /** A slot is unused or has all it needs. */
  ghost predicate Whole(p: Proc) {
    p == NOPROC || (p.trapframe != 0 && p.pagetable != 0 && p.kstack != 0 && p.trapframe != p.kstack)
  }

  /** Frames in the hands of the kernel: its own, and the trapframe and kernel stack of every
      process, no two of which are the same. */
  ghost predicate LooseOk(own: Owners, procs: seq<Proc>, kernel: set<nat>) {
    && (forall f :: f in kernel ==> f in own && own[f] == Loose)
    && (forall i, f :: 0 <= i < |procs| && Keeps(procs[i], f) ==> f in own && own[f] == Loose && f !in kernel)
    && (forall f :: f in own && own[f] == Loose ==> f in kernel || KeptBySome(procs, f))
    && (forall i, j, f :: 0 <= i < j < |procs| && Keeps(procs[i], f) ==> !Keeps(procs[j], f))
  }

  /** Address spaces: one for every process, and no others. */
  ghost predicate RootsOk(spaces: map<nat, Space>, procs: seq<Proc>) {
    && (forall i :: 0 <= i < |procs| && procs[i].pagetable != 0 ==> procs[i].pagetable in spaces)
    && (forall r :: r in spaces ==> RootOfSome(procs, r))
    && (forall i, j :: 0 <= i < j < |procs| && procs[i].pagetable != 0 ==> procs[i].pagetable != procs[j].pagetable)
  }

  ghost predicate SlotOk(mem: Memory, spaces: map<nat, Space>, p: Proc, shape: Shape) {
    && Whole(p)
    && (p.trapframe != 0 ==> p.trapframe in mem && mem[p.trapframe].Data? && |mem[p.trapframe].bytes| == PGSIZE)
    && (p.pagetable != 0 ==>
          p.pagetable in spaces && Layout(spaces[p.pagetable].flat, shape.pages, shape.stack) &&
            Pages(p.sz) <= shape.pages)
  }

  ghost predicate SlotsOk(mem: Memory, spaces: map<nat, Space>, procs: seq<Proc>, shapes: seq<Shape>) {
    |procs| == |shapes| == NPROC && forall i :: 0 <= i < NPROC ==> SlotOk(mem, spaces, procs[i], shapes[i])
  }

  /** The process has as many pages as its size says. */
  ghost predicate Fits(p: Proc, shape: Shape) { p.pagetable != 0 ==> shape.pages == Pages(p.sz) }

  predicate Unused(procs: seq<Proc>, i: nat) { i < |procs| && procs[i] == NOPROC }

  // ---- One slot changes ---------------------------------------------------------------------

  lemma LooseAdded(own: Owners, own': Owners, procs: seq<Proc>, i: nat, p: Proc, kernel: set<nat>)
    requires LooseOk(own, procs, kernel) && Unused(procs, i) && Returned(own', p) == own && p.trapframe != p.kstack
    requires p.trapframe in own' && own'[p.trapframe] == Loose && p.kstack in own' && own'[p.kstack] == Loose
    requires p.trapframe != 0 && p.kstack != 0
    ensures LooseOk(own', procs[i := p], kernel)
  {
    var procs' := procs[i := p];
    forall f | f in own' && own'[f] == Loose ensures f in kernel || KeptBySome(procs', f) {
      if Keeps(p, f) {
        assert Keeps(procs'[i], f);
      } else if f !in kernel {
        assert KeptBySome(procs, f);
        var j :| 0 <= j < |procs| && Keeps(procs[j], f);
        assert Keeps(procs'[j], f);
      }
    }
  }

  lemma LooseTaken(own: Owners, procs: seq<Proc>, i: nat, kernel: set<nat>)
    requires LooseOk(own, procs, kernel) && i < |procs|
    ensures LooseOk(Returned(own, procs[i]), procs[i := NOPROC], kernel)
  {
    var own', procs' := Returned(own, procs[i]), procs[i := NOPROC];
    forall f | f in own' && own'[f] == Loose ensures f in kernel || KeptBySome(procs', f) {
      assert own[f] == Loose;
      if f !in kernel {
        assert KeptBySome(procs, f);
        var j :| 0 <= j < |procs| && Keeps(procs[j], f);
        assert Keeps(procs'[j], f);
      }
    }
  }

  /** One process changes its size, and its address space its frames. */
  lemma LooseResized(own: Owners, own': Owners, procs: seq<Proc>, i: nat, sz: nat, kernel: set<nat>)
    requires LooseOk(own, procs, kernel) && i < |procs| && own'.Keys == own.Keys
    requires forall f :: f in own ==> (own[f] == Loose <==> own'[f] == Loose)
    ensures LooseOk(own', procs[i := procs[i].(sz := sz)], kernel)
  {
    var procs' := procs[i := procs[i].(sz := sz)];
    forall f | f in own' && own'[f] == Loose ensures f in kernel || KeptBySome(procs', f) {
      if f !in kernel {
        assert KeptBySome(procs, f);
        var j :| 0 <= j < |procs| && Keeps(procs[j], f);
        assert Keeps(procs'[j], f);
      }
    }
  }

  lemma RootAdded(spaces: map<nat, Space>, procs: seq<Proc>, i: nat, p: Proc, sp: Space)
    requires RootsOk(spaces, procs) && Unused(procs, i) && p.pagetable != 0 && p.pagetable !in spaces
    ensures RootsOk(spaces[p.pagetable := sp], procs[i := p])
  {
    var procs' := procs[i := p];
    assert procs'[i].pagetable == p.pagetable;
    forall r | r in spaces ensures RootOfSome(procs', r) {
      assert RootOfSome(procs, r);
      var j :| 0 <= j < |procs| && procs[j].pagetable == r;
      assert procs'[j].pagetable == r;
    }
  }

  lemma RootTaken(spaces: map<nat, Space>, procs: seq<Proc>, i: nat)
    requires RootsOk(spaces, procs) && i < |procs|
    ensures RootsOk(spaces - {procs[i].pagetable}, procs[i := NOPROC])
  {
    var procs' := procs[i := NOPROC];
    forall r | r in spaces - {procs[i].pagetable} ensures RootOfSome(procs', r) {
      assert RootOfSome(procs, r);
      var j :| 0 <= j < |procs| && procs[j].pagetable == r;
      assert procs'[j].pagetable == r;
    }
  }

  lemma RootResized(spaces: map<nat, Space>, procs: seq<Proc>, i: nat, sz: nat, sp: Space)
    requires RootsOk(spaces, procs) && i < |procs| && procs[i].pagetable in spaces
    ensures RootsOk(spaces[procs[i].pagetable := sp], procs[i := procs[i].(sz := sz)])
  {
    var procs' := procs[i := procs[i].(sz := sz)];
    forall r | r in spaces ensures RootOfSome(procs', r) {
      assert RootOfSome(procs, r);
      var j :| 0 <= j < |procs| && procs[j].pagetable == r;
      assert procs'[j].pagetable == r;
    }
  }

  /** Slots whose trapframe and address space are as they were. */
  lemma SlotsKept(mem: Memory, spaces: map<nat, Space>, mem': Memory, spaces': map<nat, Space>,
                  procs: seq<Proc>, shapes: seq<Shape>, i: nat, p: Proc, shape: Shape)
    requires SlotsOk(mem, spaces, procs, shapes) && i < NPROC && SlotOk(mem', spaces', p, shape)
    requires forall j :: 0 <= j < NPROC && j != i ==> SlotSame(mem, spaces, mem', spaces', procs[j])
    ensures SlotsOk(mem', spaces', procs[i := p], shapes[i := shape])
  {
    hide Layout;
    var procs', shapes' := procs[i := p], shapes[i := shape];
    forall j | 0 <= j < NPROC ensures SlotOk(mem', spaces', procs'[j], shapes'[j]) {
      if j != i {
        assert SlotOk(mem, spaces, procs[j], shapes[j]) && SlotSame(mem, spaces, mem', spaces', procs[j]);
      }
    }
  }

  ghost predicate SlotSame(mem: Memory, spaces: map<nat, Space>, mem': Memory, spaces': map<nat, Space>, p: Proc) {
    && (p.trapframe != 0 && p.trapframe in mem ==> p.trapframe in mem' && mem'[p.trapframe] == mem[p.trapframe])
    && (p.pagetable != 0 && p.pagetable in spaces ==>
          p.pagetable in spaces' && spaces'[p.pagetable] == spaces[p.pagetable])
  }

  /** What was in use stays, and so do the address spaces. */
  lemma SlotsSafe(mem: Memory, own: Owners, spaces: map<nat, Space>, mem': Memory, own': Owners,
                  spaces': map<nat, Space>,
                  procs: seq<Proc>, kernel: set<nat>)
    requires Safe(mem, own, mem', own') && LooseOk(own, procs, kernel)
    requires forall r :: r in spaces ==> r in spaces' && spaces'[r] == spaces[r]
    ensures forall j :: 0 <= j < |procs| ==> SlotSame(mem, spaces, mem', spaces', procs[j])
  {
    forall j | 0 <= j < |procs| ensures SlotSame(mem, spaces, mem', spaces', procs[j]) {
      if procs[j].trapframe != 0 { assert Keeps(procs[j], procs[j].trapframe); }
    }
  }

  lemma SlotsStay(mem: Memory, spaces: map<nat, Space>, mem': Memory, spaces': map<nat, Space>, procs: seq<Proc>,
                  shapes: seq<Shape>)
    requires SlotsOk(mem, spaces, procs, shapes)
    requires forall j :: 0 <= j < |procs| ==> SlotSame(mem, spaces, mem', spaces', procs[j])
    ensures SlotsOk(mem', spaces', procs, shapes)
  {
    hide Layout;
    forall j | 0 <= j < NPROC ensures SlotOk(mem', spaces', procs[j], shapes[j]) {
      assert SlotOk(mem, spaces, procs[j], shapes[j]) && SlotSame(mem, spaces, mem', spaces', procs[j]);
    }
  }

  /** Once slot i has gone back, the other slots are as they were. */
  lemma SlotsLeft(mem: Memory, own: Owners, spaces: map<nat, Space>, mem': Memory, own': Owners,
                  spaces': map<nat, Space>,
                  procs: seq<Proc>, i: nat, kernel: set<nat>)
    requires LooseOk(own, procs, kernel) && RootsOk(spaces, procs) && i < |procs| && own' == Returned(own, procs[i])
    requires Leaves(mem, own, mem', own') && spaces' == spaces - {procs[i].pagetable}
    ensures forall j :: 0 <= j < |procs| && j != i ==> SlotSame(mem, spaces, mem', spaces', procs[j])
  {
    forall j | 0 <= j < |procs| && j != i ensures SlotSame(mem, spaces, mem', spaces', procs[j]) {
      var f := procs[j].trapframe;
      if f != 0 {
        assert Keeps(procs[j], f);
        assert !Keeps(procs[i], f);
      }
    }
  }

  /** Work on the address space of slot i leaves the other slots alone. */
  lemma SlotsLocal(mem: Memory, own: Owners, spaces: map<nat, Space>, mem': Memory, own': Owners, sp: Space,
                   procs: seq<Proc>, i: nat, kernel: set<nat>)
    requires LooseOk(own, procs, kernel) && RootsOk(spaces, procs) && i < |procs| && procs[i].pagetable != 0
    requires Local(procs[i].pagetable, mem, own, mem', own')
    ensures forall j :: 0 <= j < |procs| && j != i ==>
      SlotSame(mem, spaces, mem', spaces[procs[i].pagetable := sp], procs[j])
    ensures own'.Keys == own.Keys && forall f :: f in own ==> (own[f] == Loose <==> own'[f] == Loose)
    ensures procs[i].trapframe != 0 ==> var f := procs[i].trapframe; f in mem && f in mem' && mem'[f] == mem[f]
  {
    if procs[i].trapframe != 0 { assert Keeps(procs[i], procs[i].trapframe); }
    forall j | 0 <= j < |procs| && j != i
      ensures SlotSame(mem, spaces, mem', spaces[procs[i].pagetable := sp], procs[j])
    {
      if procs[j].trapframe != 0 { assert Keeps(procs[j], procs[j].trapframe); }
    }
  }

  // ---- The table --------------------------------------------------------------------------

  class Kernel {
    const m: Machine
    var procs: seq<Proc>
    ghost var shapes: seq<Shape>
    ghost const kernel: set<nat>

    ghost predicate TableOk()
      reads this, m
    {
      && Valid(m) && SlotsOk(m.mem, m.spaces, procs, shapes)
      && LooseOk(m.own, procs, kernel) && RootsOk(m.spaces, procs)
    }

    /** After boot no process exists; the frames the kernel took for itself stay its own. */
    constructor (m: Machine)
      requires Valid(m) && m.spaces == map[]
      ensures TableOk() && this.m == m && procs == seq(NPROC, _ => NOPROC)
      ensures kernel == set f | f in m.own && m.own[f] == Loose
    {
      this.m := m;
      procs := seq(NPROC, _ => NOPROC);
      shapes := seq(NPROC, _ => Shape(0, false));
      kernel := set f | f in m.own && m.own[f] == Loose;
    }

    /** The first unused slot. */
    method FindUnused() returns (r: Option<nat>)
      ensures r.None? ==> forall i: nat :: !Unused(procs, i)
      ensures r.Some? ==> Unused(procs, r.value) && forall i: nat :: i < r.value ==> !Unused(procs, i)
    {
      var i: nat := 0;
      while i < |procs|
        invariant i <= |procs| && forall j: nat :: j < i ==> !Unused(procs, j)
      {
        if procs[i] == NOPROC {
          return Some(i);
        }
        i := i + 1;
      }
      return None;
    }

    /** What the table says of slot i. */
    lemma SlotHolds(i: nat)
      requires TableOk() && i < NPROC
      ensures |procs| == |shapes| == NPROC && Holds(m, procs[i], shapes[i].pages, shapes[i].stack)
      ensures SlotOk(m.mem, m.spaces, procs[i], shapes[i])
    {
      hide Layout, Valid;
      assert SlotOk(m.mem, m.spaces, procs[i], shapes[i]);
      var p := procs[i];
      assert p.trapframe != 0 ==> Keeps(p, p.trapframe);
      assert p.kstack != 0 ==> Keeps(p, p.kstack);
    }

    /** allocproc over the table: the first unused slot with five frames that were free; fails
        exactly when there is no such slot or are no such frames. */
    method AllocSlot(trampoline: nat) returns (r: Option<nat>)
      requires TableOk()
      modifies this`procs, this`shapes, m
      ensures TableOk() && |procs| == |shapes| == NPROC == |old(procs)| == |old(shapes)|
      ensures r.Some? <==> (exists i: nat :: Unused(old(procs), i)) && 5 <= |old(m.free)|
      ensures r.None? ==>
        procs == old(procs) && shapes == old(shapes) && m.own == old(m.own) && m.spaces == old(m.spaces)
      ensures r.Some? ==>
        && Unused(old(procs), r.value) && (forall i: nat :: i < r.value ==> !Unused(old(procs), i))
        && procs == old(procs)[r.value := procs[r.value]] && procs[r.value] != NOPROC && procs[r.value].sz == 0
        && shapes == old(shapes)[r.value := Shape(0, false)] && |m.free| + 5 == |old(m.free)|
        && procs[r.value].pagetable in m.spaces && Tables(m.spaces[procs[r.value].pagetable]) == FixedTables()
    {
      hide Layout, Valid, Safe, LooseOk, RootsOk, SlotsOk, Returned, Absent;
      ghost var mem, own, spaces := m.mem, m.own, m.spaces;
      SlotCount(mem, spaces, procs, shapes);
      var slot := FindUnused();
      if slot.None? {
        return None;
      }
      var i := slot.value;
      var p := Allocproc(m, trampoline);
      SlotsSafe(mem, own, spaces, m.mem, m.own, m.spaces, procs, kernel);
      if p.None? {
        SlotsStay(mem, spaces, m.mem, m.spaces, procs, shapes);
        return None;
      }
      NoPages();
      SlotsKept(mem, spaces, m.mem, m.spaces, procs, shapes, i, p.value, Shape(0, false));
      LooseAdded(own, m.own, procs, i, p.value, kernel);
      RootAdded(spaces, procs, i, p.value, m.spaces[p.value.pagetable]);
      procs, shapes := procs[i := p.value], shapes[i := Shape(0, false)];
      return Some(i);
    }

    /** fork of slot i: the first unused slot gets a process that fits and shares no frame with
        any other. It succeeds exactly when there is a slot, the parent has a stack, and the
        frames are there; a parent that has too many pages does not matter. */
    method ForkSlot(trampoline: nat, i: nat) returns (r: Option<nat>)
      requires TableOk() && i < NPROC && procs[i] != NOPROC
      modifies this`procs, this`shapes, m
      ensures TableOk() && |procs| == |shapes| == NPROC == |old(procs)| == |old(shapes)|
      ensures r.Some? <==>
        && (exists j: nat :: Unused(old(procs), j)) && old(shapes[i]).stack
        && 6 + Cost(FixedTables(), 0, Pages(old(procs[i]).sz)) <= |old(m.free)|
      ensures r.None? ==>
        procs == old(procs) && shapes == old(shapes) && m.own == old(m.own) && m.spaces == old(m.spaces)
      ensures r.Some? ==>
        && Unused(old(procs), r.value) && (forall j: nat :: j < r.value ==> !Unused(old(procs), j))
        && procs == old(procs)[r.value := procs[r.value]] && procs[r.value].sz == procs[i].sz
        && procs[r.value] != NOPROC && shapes == old(shapes)[r.value := Shape(Pages(procs[i].sz), true)]
        && |m.free| + 6 + Cost(FixedTables(), 0, Pages(procs[i].sz)) == |old(m.free)|
        && procs[i].pagetable in m.spaces && procs[r.value].pagetable in m.spaces
        && var a, b := m.spaces[procs[i].pagetable].flat, m.spaces[procs[r.value].pagetable].flat;
           CopiedAll(m.mem, a, b, Pages(procs[i].sz)) && CopiedStack(m.mem, a, b)
    {
      hide Layout, Valid, Safe, LooseOk, RootsOk, SlotsOk, Returned, Absent, CopiedAll, CopiedStack, Cost, UserEntry,
        Pages,
        ChildFrame;
      ghost var mem, own, spaces := m.mem, m.own, m.spaces;
      SlotHolds(i);
      StackSeen(m.spaces[procs[i].pagetable], shapes[i].pages, shapes[i].stack);
      var slot := FindUnused();
      if slot.None? {
        return None;
      }
      var j := slot.value;
      var p := Fork(m, trampoline, procs[i], shapes[i].pages, shapes[i].stack);
      SlotsSafe(mem, own, spaces, m.mem, m.own, m.spaces, procs, kernel);
      if p.None? {
        SlotsStay(mem, spaces, m.mem, m.spaces, procs, shapes);
        return None;
      }
      ghost var shape := Shape(Pages(p.value.sz), true);
      SlotsKept(mem, spaces, m.mem, m.spaces, procs, shapes, j, p.value, shape);
      LooseAdded(own, m.own, procs, j, p.value, kernel);
      RootAdded(spaces, procs, j, p.value, m.spaces[p.value.pagetable]);
      procs, shapes := procs[j := p.value], shapes[j := shape];
      return Some(j);
    }

    /** freeproc of slot i, as wait does it: the slot is unused again and exactly its frames are
        free. It panics exactly when the process has more pages than its size says. */
    method ReapSlot(i: nat) returns (ok: bool)
      requires TableOk() && i < NPROC && procs[i] != NOPROC
      modifies this`procs, this`shapes, m
      ensures ok <==> Fits(old(procs[i]), old(shapes[i]))
      ensures ok ==>
        && TableOk() && procs == old(procs)[i := NOPROC] && shapes == old(shapes)[i := Shape(0, false)]
        && m.own == Returned(old(m.own), old(procs[i]))
    {
      hide Layout, Valid, Leaves, LooseOk, RootsOk, SlotsOk, Returned, Pages;
      ghost var mem, own, spaces := m.mem, m.own, m.spaces;
      SlotHolds(i);
      ok := Freeproc(m, procs[i], shapes[i].pages, shapes[i].stack);
      if !ok {
        return;
      }
      SlotsLeft(mem, own, spaces, m.mem, m.own, m.spaces, procs, i, kernel);
      SlotsKept(mem, spaces, m.mem, m.spaces, procs, shapes, i, NOPROC, Shape(0, false));
      LooseTaken(own, procs, i, kernel);
      RootTaken(spaces, procs, i);
      procs, shapes := procs[i := NOPROC], shapes[i := Shape(0, false)];
    }

    /** sys_sbrk for slot i. Afterwards the process fits exactly when it did before and uvmalloc
        did not run dry. */
    method Sbrk(i: nat, n: int) returns (r: Option<nat>)
      requires TableOk() && i < NPROC && procs[i] != NOPROC
      modifies this`procs, this`shapes, m
      ensures TableOk() && |procs| == |shapes| == NPROC == |old(procs)| == |old(shapes)|
      ensures procs == old(procs)[i := old(procs[i]).(sz := procs[i].sz)] && shapes == old(shapes)[i := shapes[i]]
      ensures old(procs[i]).pagetable in old(m.spaces)
      ensures var p, tables := old(procs[i]), Tables(old(m.spaces)[old(procs[i]).pagetable]);
              && (r.Some? <==>
                    && n >= 0 && Pages(p.sz + n) <= STACK_VPN
                    && (Pages(p.sz + n) <= Pages(p.sz)
                        || (Fits(p, old(shapes[i])) && Affordable(tables, p.sz, p.sz + n, |old(m.free)|))))
              && (r.Some? ==> r.value == p.sz && procs[i].sz == p.sz + n)
              && (r.None? ==> procs[i].sz == p.sz)
              && (Fits(procs[i], shapes[i]) <==> Fits(p, old(shapes[i])) && !Dry(tables, p.sz, n, |old(m.free)|))
      ensures r.Some? && Fits(procs[i], shapes[i]) ==>
        var p, tables := old(procs[i]), Tables(old(m.spaces)[old(procs[i]).pagetable]);
        var k := Pages(procs[i].sz) - Pages(p.sz);
        && k >= 0 && |m.free| + Cost(tables, Pages(p.sz), k) == |old(m.free)| && p.pagetable in m.spaces
        && Tables(m.spaces[p.pagetable]) == Way(tables, Pages(p.sz), k)
    {
      hide Layout, Valid, Local, LooseOk, RootsOk, SlotsOk, Pages, Tables, Cost, Way, Affordable, RunsDry, ZeroPage;
      ghost var mem, own, spaces := m.mem, m.own, m.spaces;
      SlotHolds(i);
      var p := procs[i];
      ghost var shape := shapes[i];
      assert procs[i := p] == procs && shapes[i := shape] == shapes;
      if n < 0 {
        return None;
      }
      var newsz := p.sz + n;
      PagesMonotone(p.sz, newsz);
      PagesEnd(newsz);
      if newsz >= WORD || newsz + PGSIZE - 1 >= WORD || Pages(newsz) * PGSIZE > STACK_VPN * PGSIZE {
        return None;
      }
      var ok, k := Uvmalloc(m, p.pagetable, p.sz, newsz, shape.pages, shape.stack);
      SlotsLocal(mem, own, spaces, m.mem, m.own, m.spaces[p.pagetable], procs, i, kernel);
      ghost var sz, grown := if ok then newsz else p.sz, Shape(shape.pages + k, shape.stack);
      SlotsKept(mem, spaces, m.mem, m.spaces, procs, shapes, i, p.(sz := sz), grown);
      LooseResized(own, m.own, procs, i, sz, kernel);
      RootResized(spaces, procs, i, sz, m.spaces[p.pagetable]);
      shapes := shapes[i := grown];
      if !ok {
        assert procs[i := p.(sz := sz)] == procs;
        return None;
      }
      procs := procs[i := p.(sz := newsz)];
      return Some(p.sz);
    }
  }

  lemma SlotCount(mem: Memory, spaces: map<nat, Space>, procs: seq<Proc>, shapes: seq<Shape>)
    requires SlotsOk(mem, spaces, procs, shapes)
    ensures |procs| == |shapes| == NPROC
  {
  }

  const WORD := 0x1_0000_0000_0000_0000

  lemma PagesEnd(sz: nat)
    ensures sz <= Pages(sz) * PGSIZE && sz + PGSIZE - 1 < Pages(sz) * PGSIZE + PGSIZE
  {
  }

  /** The growth is allowed, and uvmalloc runs dry on it. */
  ghost predicate Dry(tables: set<Place>, sz: nat, n: int, free: nat) {
    n >= 0 && Pages(sz + n) <= STACK_VPN && RunsDry(tables, sz, sz + n, free)
  }

  lemma StackSeen(sp: Space, n: nat, stack: bool)
    requires Layout(sp.flat, n, stack)
    ensures UserEntry(sp, STACK_VPN, 0).Some? <==> stack
  {
    hide PlaceOf, UserEntry;
    PlacesDiffer();
    ApartFromUser(n);
    StackEntry(sp, stack);
  }

  // ---- Conservation -----------------------------------------------------------------------

  /** The uses a frame can have. */
  datatype Use = OnFreeList | OfKernel | AsTrapframe(slot: nat) | AsKstack(slot: nat) | InSpace(slot: nat, place: Place)

  /** Frame f has this use, read off the free list, the process table and the page tables. */
  ghost predicate HasUse(k: Kernel, f: nat, use: Use)
    reads k, k.m
  {
    match use
    case OnFreeList => f in k.m.free
    case OfKernel => f in k.kernel
    case AsTrapframe(i) => f != 0 && i < |k.procs| && k.procs[i].trapframe == f
    case AsKstack(i) => f != 0 && i < |k.procs| && k.procs[i].kstack == f
    case InSpace(i, q) =>
      && i < |k.procs| && k.procs[i].pagetable in k.m.spaces
      && q in k.m.spaces[k.procs[i].pagetable].at && k.m.spaces[k.procs[i].pagetable].at[q] == f
  }

  /** Every managed frame has a use, and no frame has two: free frames, frames of the kernel,
      trapframes, kernel stacks and the tables and pages of all address spaces partition
      managed memory. */
  lemma Partition(k: Kernel, f: nat) returns (use: Use)
    requires k.TableOk() && k.m.first <= f < TOP
    ensures HasUse(k, f, use) && forall u :: HasUse(k, f, u) ==> u == use
  {
    hide SlotsOk, SpacesOk;
    use := SomeUse(k, f);
    forall u | HasUse(k, f, u) ensures u == use {
      UseOwner(k, f, u);
      UseOwner(k, f, use);
      OneUse(k, f, u, use);
    }
  }

  lemma SomeUse(k: Kernel, f: nat) returns (use: Use)
    requires k.TableOk() && k.m.first <= f < TOP
    ensures HasUse(k, f, use)
  {
    hide SlotsOk, SpacesOk;
    var o := k.m.own[f];
    if o == Free {
      return OnFreeList;
    } else if o.Of? {
      assert OwnerOk(f, o, k.m.spaces);
      assert RootOfSome(k.procs, o.root);
      var i :| 0 <= i < |k.procs| && k.procs[i].pagetable == o.root;
      return InSpace(i, o.place);
    } else if f in k.kernel {
      return OfKernel;
    } else {
      assert KeptBySome(k.procs, f);
      var i :| 0 <= i < |k.procs| && Keeps(k.procs[i], f);
      return if f == k.procs[i].trapframe then AsTrapframe(i) else AsKstack(i);
    }
  }

  /** The owner that a use of f implies. */
  ghost function OwnerFor(k: Kernel, use: Use): Owner
    reads k
  {
    match use
    case OnFreeList => Free
    case InSpace(i, q) => if i < |k.procs| then Of(k.procs[i].pagetable, q) else Loose
    case _ => Loose
  }

  lemma UseOwner(k: Kernel, f: nat, use: Use)
    requires k.TableOk() && HasUse(k, f, use)
    ensures f in k.m.own && k.m.own[f] == OwnerFor(k, use)
  {
    hide SlotsOk;
    match use
    case InSpace(i, q) =>
      var root := k.procs[i].pagetable;
      assert SpaceOk(k.m.mem, k.m.own, root, k.m.spaces[root]);
      assert NodeOk(k.m.mem, k.m.own, root, k.m.spaces[root], q);
    case AsTrapframe(i) => assert Keeps(k.procs[i], f);
    case AsKstack(i) => assert Keeps(k.procs[i], f);
    case _ =>
  }

  lemma OneUse(k: Kernel, f: nat, u: Use, v: Use)
    requires k.TableOk() && HasUse(k, f, u) && HasUse(k, f, v) && OwnerFor(k, u) == OwnerFor(k, v)
    ensures u == v
  {
    hide Valid, Layout, OwnedOk, SpacesOk;
    if u.AsTrapframe? || u.AsKstack? {
      assert Keeps(k.procs[u.slot], f) && SlotOk(k.m.mem, k.m.spaces, k.procs[u.slot], k.shapes[u.slot]);
    }
    if v.AsTrapframe? || v.AsKstack? {
      assert Keeps(k.procs[v.slot], f) && SlotOk(k.m.mem, k.m.spaces, k.procs[v.slot], k.shapes[v.slot]);
    }
  }

  // ---- A process that cannot be reaped ------------------------------------------------------

  /** A boot with nine frames, a process that grows by one page and then asks for two more: the
      last frame becomes a page of the process, sbrk fails, and reaping the process panics. */
  method LostProcess(trampoline: nat) returns (grown: Option<nat>, failed: Option<nat>, reaped: bool)
    ensures grown == Some(0) && failed == None && !reaped
  {
    hide Layout, Valid, LooseOk, RootsOk, SlotsOk, Returned, Pages, Cost, Way, Tables, FixedTables, Affordable, RunsDry;
    var m := new Machine(TOP - 9);
    NothingYet(m);
    var k := new Kernel(m);
    assert Unused(k.procs, 0);
    var slot := k.AllocSlot(trampoline);
    assert slot == Some(0) && |m.free| == 4 && Fits(k.procs[0], k.shapes[0]) by { NinePages(); }
    NinePages();
    grown := k.Sbrk(0, PGSIZE);
    assert grown == Some(0) && |m.free| == 1 && Fits(k.procs[0], k.shapes[0]);
    failed := k.Sbrk(0, 2 * PGSIZE);
    reaped := k.ReapSlot(0);
  }

  lemma NothingYet(m: Machine)
    requires m.Pool() && m.spaces == map[] && forall f :: f in m.own ==> m.own[f] == Free
    ensures Valid(m)
  {
  }

  lemma NinePages()
    ensures var tables := FixedTables() + {Mid(0), Low(0, 0)};
            && Pages(0) == 0 && Pages(PGSIZE) == 1 && Pages(3 * PGSIZE) == 3 && STACK_VPN >= 3
            && Affordable(FixedTables(), 0, PGSIZE, 4) && Cost(FixedTables(), 0, 1) == 3
            && Way(FixedTables(), 0, 1) == tables && RunsDry(tables, PGSIZE, 3 * PGSIZE, 1)
            && !Affordable(tables, PGSIZE, 3 * PGSIZE, 1) && !RunsDry(FixedTables(), 0, PGSIZE, 4)
  {
    var tables := FixedTables() + {Mid(0), Low(0, 0)};
    assert PlaceOf(0) == At(0, 0, 0);
    assert Way(FixedTables(), 0, 0) == FixedTables();
    assert Cost(FixedTables(), 0, 1) == Cost(FixedTables(), 0, 0) + 1 + Missing(FixedTables(), PlaceOf(0)) == 3;
    CostGrows(tables, 1, 0, 2);
    DryExample();
  }
}
