/** The pages of a process: allocproc, freeproc and fork, and why a fork that fails puts
    every page back. */
module Procs {
  import opened Prelude
  import opened FsLayout
  import opened Sv39
  import opened PhysPages
  import opened PageTables
  import opened UserSpace
  import opened UserCopy

  /** The page resources of a process slot; 0 where it has none. */
  datatype Proc = Proc(trapframe: nat, pagetable: nat, kstack: nat, sz: nat)

  const NOPROC := Proc(0, 0, 0, 0)

  const TF_SIZE := 288
  const TF_A0 := 112

  /** The process holds what it says, and its address space has n pages, at least as many
      as its size says. */
  ghost predicate Holds(m: Machine, p: Proc, n: nat, stack: bool)
    reads m
  {
    && (p.trapframe != 0 ==> p.trapframe in m.own && m.own[p.trapframe] == Loose)
    && (p.kstack != 0 ==> p.kstack in m.own && m.own[p.kstack] == Loose && p.kstack != p.trapframe)
    && (p.pagetable != 0 ==>
      p.pagetable in m.spaces && Layout(m.spaces[p.pagetable].flat, n, stack) && Pages(p.sz) <= n)
  }

  ghost predicate OfProc(f: nat, o: Owner, p: Proc) {
    (f != 0 && (f == p.trapframe || f == p.kstack)) || (p.pagetable != 0 && o.Of? && o.root == p.pagetable)
  }

  /** Owners once all pages of p have gone back. */
  ghost function Returned(own: Owners, p: Proc): (own': Owners)
    ensures own'.Keys == own.Keys
    ensures forall f :: f in own ==> own'[f] == if OfProc(f, own[f], p) then Free else own[f]
  {
    map f | f in own :: if OfProc(f, own[f], p) then Free else own[f]
  }

  /** Pages somebody had at first are theirs still, and unchanged. */
  ghost predicate Safe(mem: Memory, own: Owners, mem': Memory, own': Owners) {
    && mem.Keys == own.Keys == mem'.Keys == own'.Keys
    && forall g :: g in own && own[g] != Free ==> own'[g] == own[g] && mem'[g] == mem[g]
  }

  lemma SafeLocal(root: nat, mem: Memory, own: Owners, mem1: Memory, own1: Owners, mem2: Memory, own2: Owners)
    requires Safe(mem, own, mem1, own1) && Local(root, mem1, own1, mem2, own2) && Absent(own, root)
    ensures Safe(mem, own, mem2, own2)
  {
  }

  lemma SafeOne(mem: Memory, own: Owners, mem1: Memory, own1: Owners, f: nat, page: Page, o: Owner)
    requires Safe(mem, own, mem1, own1) && f in own && own[f] == Free
    ensures Safe(mem, own, mem1[f := page], own1[f := o])
  {
  }

  /** kfree of a page the kernel holds, with all address spaces in sight. */
  method FreeLoose(m: Machine, f: nat)
    requires Valid(m) && f in m.own && m.own[f] == Loose
    modifies m
    ensures Valid(m) && KeysSame(m) && m.own == old(m.own)[f := Free] && m.spaces == old(m.spaces)
    ensures f in m.mem && m.mem == old(m.mem)[f := m.mem[f]]
  {
    hide FreeOk, SpacesOk, OwnedOk, Managed;
    ghost var mem, own := m.mem, m.own;
    SameKeys(m.first, mem, own);
    m.Kfree(f);
    SameKeys(m.first, m.mem, m.own);
    LooseChange(mem, own, m.mem, m.own, m.spaces, f);
  }

  ghost function FreedIf(own: Owners, f: nat): Owners { if f != 0 then own[f := Free] else own }

  /** freeproc gives back exactly the pages of p; it panics if the address space of p has
      more pages than the size of p says. */
  method Freeproc(m: Machine, p: Proc, ghost n: nat, ghost stack: bool) returns (ok: bool)
    requires Valid(m) && Holds(m, p, n, stack)
    modifies m
    ensures ok <==> p.pagetable == 0 || n == Pages(p.sz)
    ensures ok ==>
      && Valid(m) && KeysSame(m) && m.own == Returned(old(m.own), p)
      && m.spaces == (if p.pagetable != 0 then old(m.spaces) - {p.pagetable} else old(m.spaces))
      && Leaves(old(m.mem), old(m.own), m.mem, m.own)
  {
    hide FreeOk, SpacesOk, OwnedOk, Managed, Layout, Local, Absent, Leaves, Returned;
    ghost var mem, own, spaces := m.mem, m.own, m.spaces;
    SameKeys(m.first, mem, own);
    NoFrameZero(m);
    LeavesSelf(mem, own);
    if p.trapframe != 0 {
      FreeLoose(m, p.trapframe);
      LeavesFreed(mem, own, m.mem, m.own, p.trapframe);
    }
    ghost var mem1, own1 := m.mem, m.own;
    SameKeys(m.first, mem1, own1);
    LocalSelf(p.pagetable, mem1, own1);
    if p.pagetable != 0 {
      ok := ProcFreepagetable(m, p.pagetable, p.sz, n, stack);
      if !ok {
        return;
      }
    }
    ok := true;
    ghost var mem2, own2 := m.mem, m.own;
    LocalFacts(p.pagetable, mem1, own1, mem2, own2, p.pagetable != 0);
    LeavesTrans(mem, own, mem1, own1, mem2, own2);
    if p.kstack != 0 {
      KstackLoose(own, own1, own2, p);
      FreeLoose(m, p.kstack);
      LeavesFreed(mem2, own2, m.mem, m.own, p.kstack);
      LeavesTrans(mem, own, mem2, own2, m.mem, m.own);
    }
    AllReturned(own, own1, own2, m.own, p);
  }

  lemma KstackLoose(own: Owners, own1: Owners, own2: Owners, p: Proc)
    requires p.kstack != 0 && p.kstack in own && own[p.kstack] == Loose && p.kstack != p.trapframe
    requires own1 == FreedIf(own, p.trapframe)
    requires own2.Keys == own1.Keys && forall f :: f in own1 ==>
      own2[f] == if p.pagetable != 0 && own1[f].Of? && own1[f].root == p.pagetable then Free else own1[f]
    ensures p.kstack in own2 && own2[p.kstack] == Loose
  {
  }

  lemma AllReturned(own: Owners, own1: Owners, own2: Owners, own3: Owners, p: Proc)
    requires 0 !in own && (p.trapframe != 0 ==> p.trapframe in own) && (p.kstack != 0 ==> p.kstack in own)
    requires own1 == FreedIf(own, p.trapframe) && own3 == FreedIf(own2, p.kstack)
    requires own2.Keys == own1.Keys && forall f :: f in own1 ==>
      own2[f] == if p.pagetable != 0 && own1[f].Of? && own1[f].root == p.pagetable then Free else own1[f]
    ensures own3 == Returned(own, p)
  {
    assert own3.Keys == own.Keys;
    forall f | f in own ensures own3[f] == Returned(own, p)[f] {
    }
  }

  /** Pages that do not become free keep their bytes. */
  ghost predicate Leaves(mem: Memory, own: Owners, mem': Memory, own': Owners) {
    && mem.Keys == own.Keys == mem'.Keys == own'.Keys
    && forall g :: g in own && own'[g] != Free ==> own'[g] == own[g] && mem'[g] == mem[g]
  }

  lemma LeavesSelf(mem: Memory, own: Owners)
    requires mem.Keys == own.Keys
    ensures Leaves(mem, own, mem, own)
  {
  }

  lemma LeavesFreed(mem: Memory, own: Owners, mem': Memory, own': Owners, f: nat)
    requires mem.Keys == own.Keys && f in own && f in mem' && own' == own[f := Free] && mem' == mem[f := mem'[f]]
    ensures Leaves(mem, own, mem', own')
  {
  }

  lemma LeavesTrans(mem: Memory, own: Owners, mem1: Memory, own1: Owners, mem2: Memory, own2: Owners)
    requires Leaves(mem, own, mem1, own1) && Leaves(mem1, own1, mem2, own2)
    ensures Leaves(mem, own, mem2, own2)
  {
  }

  lemma NoFrameZero(m: Machine)
    requires m.Pool()
    ensures 0 !in m.own
  {
  }

  lemma LocalFacts(root: nat, mem: Memory, own: Owners, mem': Memory, own': Owners, gone: bool)
    requires Local(root, mem, own, mem', own') && (gone ==> Absent(own', root))
    requires (!gone ==> own' == own && mem' == mem)
    ensures mem.Keys == own.Keys == mem'.Keys == own'.Keys
    ensures forall f :: f in own ==> own'[f] == if gone && own[f].Of? && own[f].root == root then Free else own[f]
    ensures Leaves(mem, own, mem', own')
  {
  }

  /** kalloc and kalloc_zeroed with all address spaces in sight. */
  method AllocLoose(m: Machine, zero: bool) returns (r: Option<nat>)
    requires Valid(m)
    modifies m
    ensures Valid(m) && KeysSame(m) && m.spaces == old(m.spaces) && (r.None? <==> old(m.free) == [])
    ensures r.None? ==> m.own == old(m.own) && m.mem == old(m.mem)
    ensures r.Some? ==>
      && r.value != 0 && r.value in old(m.own) && old(m.own)[r.value] == Free && m.own == old(m.own)[r.value := Loose]
      && |m.free| + 1 == |old(m.free)| && r.value in m.mem && m.mem == old(m.mem)[r.value := m.mem[r.value]]
      && (zero ==> m.mem[r.value] == Data(Zeros(PGSIZE)))
  {
    hide FreeOk, SpacesOk, OwnedOk, Managed;
    ghost var mem, own := m.mem, m.own;
    SameKeys(m.first, mem, own);
    if zero {
      r := m.KallocZeroed();
    } else {
      r := m.Kalloc();
    }
    SameKeys(m.first, m.mem, m.own);
    if r.Some? {
      assert m.mem == mem[r.value := m.mem[r.value]];
      LooseChange(mem, own, m.mem, m.own, m.spaces, r.value);
    }
  }

  lemma SafeSelf(mem: Memory, own: Owners)
    requires mem.Keys == own.Keys
    ensures Safe(mem, own, mem, own)
  {
  }

  /** After freeproc on a process made of frames that were free. */
  lemma SafeReturned(mem: Memory, own: Owners, mem1: Memory, own1: Owners, mem2: Memory, own2: Owners, p: Proc)
    requires Safe(mem, own, mem1, own1) && Leaves(mem1, own1, mem2, own2) && own2 == Returned(own1, p) && own2 == own
    ensures Safe(mem, own, mem2, own2)
  {
  }

  lemma ReturnedFrame(own: Owners, tf: nat)
    requires tf != 0 && tf in own && own[tf] == Free
    ensures Returned(own[tf := Loose], Proc(tf, 0, 0, 0)) == own
  {
  }

  /** An address space that was not there before goes back entirely. */
  lemma ReturnedSpace(own: Owners, tf: nat, root: nat, mem1: Memory, mem2: Memory, own2: Owners)
    requires tf != 0 && tf in own && own[tf] == Free && root != 0 && Absent(own, root)
    requires Local(root, mem1, own[tf := Loose], mem2, own2)
    ensures Returned(own2, Proc(tf, root, 0, 0)) == own && own2[tf] == Loose && mem2[tf] == mem1[tf]
  {
    forall f | f in own ensures Returned(own2, Proc(tf, root, 0, 0))[f] == own[f] {
    }
  }

  lemma ReturnedStack(own: Owners, own2: Owners, tf: nat, root: nat, ks: nat)
    requires Returned(own2, Proc(tf, root, 0, 0)) == own && ks != 0 && ks in own2 && own2[ks] == Free
    requires tf in own2 && own2[tf] == Loose
    ensures Returned(own2[ks := Loose], Proc(tf, root, ks, 0)) == own && own[ks] == Free && ks != tf
  {
    forall f | f in own ensures Returned(own2[ks := Loose], Proc(tf, root, ks, 0))[f] == own[f] {
    }
  }

  /** A process that just came about: new pages only, an address space with the fixed
      pages, and nothing else touched. */
  ghost predicate NewProc(m: Machine, p: Proc, mem: Memory, own: Owners, spaces: map<nat, Space>)
    reads m
  {
    && p.trapframe != 0 && p.pagetable != 0 && p.kstack != 0 && Holds(m, p, 0, false)
    && Returned(m.own, p) == own && Safe(mem, own, m.mem, m.own)
    && p.pagetable !in spaces && Absent(own, p.pagetable) && m.spaces == spaces[p.pagetable := m.spaces[p.pagetable]]
  }

  /** allocproc: a process on pages that were free, or every page where it was. */
  method Allocproc(m: Machine, trampoline: nat) returns (r: Option<Proc>)
    requires Valid(m)
    modifies m
    ensures Valid(m) && KeysSame(m)
    ensures r.None? ==>
      m.own == old(m.own) && m.spaces == old(m.spaces) && Safe(old(m.mem), old(m.own), m.mem, m.own)
    ensures r.Some? <==> 5 <= |old(m.free)|
    ensures r.Some? ==>
      && NewProc(m, r.value, old(m.mem), old(m.own), old(m.spaces)) && r.value.sz == 0
      && |m.free| + 5 == |old(m.free)| && Tables(m.spaces[r.value.pagetable]) == FixedTables()
      && r.value.trapframe in m.mem && m.mem[r.value.trapframe] == Data(Zeros(PGSIZE))
  {
    hide FreeOk, SpacesOk, OwnedOk, Managed, Layout, Local, Absent, Safe, Leaves, Returned, Zeros, Tables, FixedTables;
    ghost var mem, own, spaces := m.mem, m.own, m.spaces;
    SameKeys(m.first, mem, own);
    SafeSelf(mem, own);
    var p := NOPROC;
    var tf := AllocLoose(m, true);
    if tf.None? {
      return None;
    }
    p := p.(trapframe := tf.value);
    ghost var mem1, own1 := m.mem, m.own;
    SafeOne(mem, own, mem, own, tf.value, mem1[tf.value], Loose);
    ReturnedFrame(own, tf.value);
    var pt := ProcPagetable(m, trampoline, tf.value);
    if pt.None? {
      SafeOthers(mem, own, mem1, own1, m.mem);
      ghost var mem2, own2 := m.mem, m.own;
      var _ := Freeproc(m, p, 0, false);
      SafeReturned(mem, own, mem2, own2, m.mem, m.own, p);
      return None;
    }
    p := p.(pagetable := pt.value);
    ghost var mem2, own2 := m.mem, m.own;
    AbsentBefore(own, tf.value, pt.value);
    SafeLocal(pt.value, mem, own, mem1, own1, mem2, own2);
    ReturnedSpace(own, tf.value, pt.value, mem1, mem2, own2);
    NoPages();
    var ks := AllocLoose(m, false);
    if ks.None? {
      var _ := Freeproc(m, p, 0, false);
      SafeReturned(mem, own, mem2, own2, m.mem, m.own, p);
      return None;
    }
    ReturnedStack(own, own2, tf.value, pt.value, ks.value);
    SafeOne(mem, own, mem2, own2, ks.value, m.mem[ks.value], Loose);
    p := p.(kstack := ks.value);
    return Some(p);
  }

  lemma NoPages()
    ensures Pages(0) == 0
  {
  }

  lemma AbsentBefore(own: Owners, tf: nat, root: nat)
    requires tf in own && own[tf] == Free && Absent(own[tf := Loose], root)
    ensures Absent(own, root)
  {
    forall g | g in own && own[g].Of? ensures own[g].root != root {
      assert own[tf := Loose][g] == own[g];
    }
  }

  lemma SafeOthers(mem: Memory, own: Owners, mem1: Memory, own1: Owners, mem2: Memory)
    requires Safe(mem, own, mem1, own1) && OthersUntouched(mem1, own1, mem2) && mem2.Keys == mem1.Keys
    ensures Safe(mem, own, mem2, own1)
  {
  }

  /** The trapframe of a child: its parent's, with a0 set to 0. */
  function ChildFrame(bytes: seq<Byte>): (r: seq<Byte>)
    requires |bytes| == PGSIZE
    ensures |r| == PGSIZE
  {
    Overwrite(Overwrite(Zeros(PGSIZE), 0, bytes[..TF_SIZE]), TF_A0, Zeros(8))
  }

  /** The child goes on where the parent is, and finds 0 as the result of fork. */
  ghost predicate Forked(parent: seq<Byte>, child: seq<Byte>) {
    && |parent| == |child| == PGSIZE
    && (forall i :: 112 <= i < 120 ==> child[i] == 0)
    && (forall i :: 0 <= i < 288 && !(112 <= i < 120) ==> child[i] == parent[i])
    && (forall i :: 288 <= i < PGSIZE ==> child[i] == 0)
  }

  lemma FrameForked(parent: seq<Byte>)
    requires |parent| == PGSIZE
    ensures Forked(parent, ChildFrame(parent))
  {
  }

  /** All pages of [0, n) are copies. */
  ghost predicate CopiedAll(mem: Memory, a: map<Place, Pte>, b: map<Place, Pte>, n: nat) {
    forall v :: 0 <= v < n ==> CopiedPage(mem, a, b, v)
  }

  /** The stack pages hold the same bytes, the second for the user to read and write. */
  ghost predicate CopiedStack(mem: Memory, a: map<Place, Pte>, b: map<Place, Pte>) {
    var q := PlaceOf(STACK_VPN);
    && q in a && q in b && b[q].flags == 0xD7
    && a[q].ppn in mem && b[q].ppn in mem && mem[b[q].ppn] == mem[a[q].ppn]
  }

  /** Both sides own the pages they map below n. */
  ghost predicate OwnedAll(own: Owners, a: map<Place, Pte>, b: map<Place, Pte>, src: nat, dst: nat, n: nat) {
    forall v :: 0 <= v < n ==> OwnedPage(own, a, src, v) && OwnedPage(own, b, dst, v)
  }

  lemma AllStillCopied(mem: Memory, own: Owners, mem': Memory, src: nat, dst: nat,
                       a: map<Place, Pte>, b: map<Place, Pte>, b': map<Place, Pte>, n: nat)
    requires OwnedAll(own, a, b, src, dst, n) && CopiedAll(mem, a, b, n) && UserPagesKept(mem, own, mem')
    requires forall q :: q in b ==> q in b' && b'[q] == b[q]
    ensures CopiedAll(mem', a, b', n)
  {
    hide CopiedPage, UserPagesKept, PlaceOf;
    forall v | 0 <= v < n ensures CopiedPage(mem', a, b', v) {
      assert OwnedPage(own, a, src, v) && OwnedPage(own, b, dst, v);
      StillCopied(mem, own, mem', src, dst, a, b, b', v);
    }
  }

  /** Writing a page that the kernel holds. */
  method WriteLoose(m: Machine, f: nat, bytes: seq<Byte>)
    requires Valid(m) && f in m.own && m.own[f] == Loose
    modifies m`mem
    ensures Valid(m) && KeysSame(m) && m.mem == old(m.mem)[f := Data(bytes)] && UserPagesKept(old(m.mem), m.own, m.mem)
  {
    hide FreeOk, SpacesOk, OwnedOk, Managed;
    ghost var mem := m.mem;
    SameKeys(m.first, mem, m.own);
    m.mem := m.mem[f := Data(bytes)];
    FreeKept(mem, m.mem, m.head, m.free, m.own, m.own);
    ManagedSame(m.first, mem, m.own, m.mem, m.own);
    LooseChange(mem, m.own, m.mem, m.own, m.spaces, f);
  }

  lemma NewFrame(own: Owners, own1: Owners, p: Proc)
    requires Returned(own1, p) == own && p.trapframe != 0 && p.trapframe in own1
    ensures p.trapframe in own && own[p.trapframe] == Free
  {
  }

  lemma KeptByReturn(mem: Memory, own: Owners, mem': Memory, own': Owners, f: nat)
    requires Safe(mem, own, mem', own') && f in own && own[f] == Loose
    ensures f in own' && f in mem' && f in mem && own'[f] == Loose && mem'[f] == mem[f]
  {
  }

  lemma LooseLocal(root: nat, mem: Memory, own: Owners, mem': Memory, own': Owners, f: nat)
    requires Local(root, mem, own, mem', own') && f in own && own[f] == Loose
    ensures f in own' && f in mem' && f in mem && own'[f] == Loose && mem'[f] == mem[f]
  {
  }

  /** What fork does between allocproc and the file table: pages, trapframe, stack. */
  method CopyInto(m: Machine, parent: Proc, child: Proc, ghost mapped: nat, ghost stack: bool) returns (ok: bool,
                  child': Proc)
    requires Valid(m) && Holds(m, parent, mapped, stack) && Holds(m, child, 0, false) && child.sz == 0
    requires parent.pagetable != 0 && child.pagetable != 0 && parent.pagetable != child.pagetable
    requires Tables(m.spaces[child.pagetable]) == FixedTables()
    requires parent.trapframe != 0 && child.trapframe != 0 && child.kstack != 0 && parent.trapframe != child.trapframe
    requires parent.trapframe in m.mem && m.mem[parent.trapframe].Data? && |m.mem[parent.trapframe].bytes| == PGSIZE
    modifies m
    ensures Valid(m) && KeysSame(m) && child' == child.(sz := child'.sz) && Holds(m, child', Pages(child'.sz), ok)
    ensures LocalBut(child.pagetable, child.trapframe, old(m.mem), old(m.own), m.mem, m.own)
    ensures child.trapframe in m.own && m.own[child.trapframe] == Loose
    ensures m.spaces == old(m.spaces)[child.pagetable := m.spaces[child.pagetable]]
    ensures ok <==>
      && UserEntry(m.spaces[parent.pagetable], STACK_VPN, 0).Some?
      && Cost(FixedTables(), 0, Pages(parent.sz)) + 1 <= |old(m.free)|
    ensures ok ==>
      && child'.sz == parent.sz && |m.free| + Cost(FixedTables(), 0, Pages(parent.sz)) + 1 == |old(m.free)|
      && var a, b := m.spaces[parent.pagetable].flat, m.spaces[child.pagetable].flat;
         && CopiedAll(m.mem, a, b, Pages(parent.sz)) && CopiedStack(m.mem, a, b)
         && child.trapframe in m.mem && m.mem[child.trapframe].Data?
         && Forked(old(m.mem)[parent.trapframe].bytes, m.mem[child.trapframe].bytes)
  {
    hide FreeOk, SpacesOk, OwnedOk, Managed, Local, LocalBut, Zeros, ChildFrame, Forked, Layout, UserPagesKept;
    hide CopiedPage, PlaceOf, UserEntry, MappedAs, OwnedPage, OwnedAll, Tables, FixedTables, Cost, Way, Missing;
    ghost var mem, own, spaces := m.mem, m.own, m.spaces;
    var src, dst := parent.pagetable, child.pagetable;
    LayoutUsers(spaces[src].flat, mapped, stack);
    ghost var n := Pages(parent.sz);
    NoPages();
    StackPaid(n);
    child' := child;
    ok := Uvmcopy(m, src, dst, parent.sz);
    LocalIsBut(dst, child.trapframe, mem, own, m.mem, m.own);
    LooseLocal(dst, mem, own, m.mem, m.own, child.trapframe);
    LooseLocal(dst, mem, own, m.mem, m.own, child.kstack);
    LooseLocal(dst, mem, own, m.mem, m.own, parent.trapframe);
    if !ok {
      return;
    }
    child' := child.(sz := parent.sz);
    ghost var mem1, own1, a, b := m.mem, m.own, m.spaces[src].flat, m.spaces[dst].flat;
    assert OwnedAll(own1, a, b, src, dst, n) by { AllOwned(m, src, dst, n, n); AllOwnedIs(own1, a, b, src, dst, n); }
    var bytes := ChildFrame(m.mem[parent.trapframe].bytes);
    FrameForked(m.mem[parent.trapframe].bytes);
    WriteLoose(m, child.trapframe, bytes);
    AllStillCopied(mem1, own1, m.mem, src, dst, a, b, b, n);
    LocalButWrite(dst, child.trapframe, mem1, own1, Data(bytes), Loose);
    assert own1 == own1[child.trapframe := Loose];
    LocalButTrans(dst, child.trapframe, mem, own, mem1, own1, m.mem, m.own);
    ghost var mem2 := m.mem;
    ok := UvmcopyStack(m, src, dst, n);
    LocalIsBut(dst, child.trapframe, mem2, own1, m.mem, m.own);
    LocalButTrans(dst, child.trapframe, mem, own, mem2, own1, m.mem, m.own);
    LooseLocal(dst, mem2, own1, m.mem, m.own, child.trapframe);
    LooseLocal(dst, mem2, own1, m.mem, m.own, child.kstack);
    if ok {
      StackApart(b, n);
      AllStillCopied(mem2, own1, m.mem, src, dst, a, b, m.spaces[dst].flat, n);
    }
  }

  lemma StackPaid(n: nat)
    ensures Missing(Way(FixedTables(), 0, n), PlaceOf(STACK_VPN)) == 0
  {
    hide Way, PlaceOf;
    WayKeeps(FixedTables(), 0, n);
    FixedCosts(0);
  }

  lemma StackApart(flat: map<Place, Pte>, n: nat)
    requires Layout(flat, n, false)
    ensures PlaceOf(STACK_VPN) !in flat
  {
    hide PlaceOf;
    LayoutStack(flat, n, Pte(0, 0x10));
  }

  lemma AllOwnedIs(own: Owners, a: map<Place, Pte>, b: map<Place, Pte>, src: nat, dst: nat, n: nat)
    requires forall v :: 0 <= v < n ==> OwnedPage(own, a, src, v) && OwnedPage(own, b, dst, v)
    ensures OwnedAll(own, a, b, src, dst, n)
  {
  }

  lemma LocalIsBut(root: nat, f: nat, mem: Memory, own: Owners, mem': Memory, own': Owners)
    requires Local(root, mem, own, mem', own')
    ensures LocalBut(root, f, mem, own, mem', own')
  {
  }

  lemma ReturnedBut(mem: Memory, own: Owners, mem': Memory, own': Owners, p: Proc, sz: nat)
    requires LocalBut(p.pagetable, p.trapframe, mem, own, mem', own') && p.pagetable != 0 && p.trapframe != 0
    ensures Returned(own', p.(sz := sz)) == Returned(own, p)
  {
    forall f | f in own ensures Returned(own', p.(sz := sz))[f] == Returned(own, p)[f] {
    }
  }

  lemma SafeBut(root: nat, f: nat, mem: Memory, own: Owners, mem1: Memory, own1: Owners, mem2: Memory, own2: Owners)
    requires Safe(mem, own, mem1, own1) && LocalBut(root, f, mem1, own1, mem2, own2) && Absent(own, root)
    requires f in own && own[f] == Free
    ensures Safe(mem, own, mem2, own2)
  {
  }

  lemma SafeHolds(m: Machine, p: Proc, n: nat, stack: bool, mem: Memory, own: Owners, spaces: map<nat, Space>)
    requires Safe(mem, own, m.mem, m.own)
    requires p.trapframe != 0 ==> p.trapframe in own && own[p.trapframe] == Loose
    requires p.kstack != 0 ==> p.kstack in own && own[p.kstack] == Loose && p.kstack != p.trapframe
    requires p.pagetable != 0 ==>
      p.pagetable in spaces && p.pagetable in m.spaces && m.spaces[p.pagetable] == spaces[p.pagetable]
      && Layout(spaces[p.pagetable].flat, n, stack) && Pages(p.sz) <= n
    ensures Holds(m, p, n, stack)
  {
    hide Layout;
  }

  /** fork: the child has copies of all pages and of the stack on pages of its own, or no
      page has changed hands and none that was in use has changed. */
  method Fork(m: Machine, trampoline: nat, parent: Proc, ghost n: nat, ghost stack: bool) returns (r: Option<Proc>)
    requires Valid(m) && Holds(m, parent, n, stack) && parent.trapframe != 0 && parent.pagetable != 0
    requires parent.trapframe in m.mem && m.mem[parent.trapframe].Data? && |m.mem[parent.trapframe].bytes| == PGSIZE
    modifies m
    ensures Valid(m) && KeysSame(m) && Safe(old(m.mem), old(m.own), m.mem, m.own)
    ensures r.None? ==>
      m.own == old(m.own) && m.spaces == old(m.spaces)
    ensures r.Some? <==>
      && UserEntry(old(m.spaces)[parent.pagetable], STACK_VPN, 0).Some?
      && 6 + Cost(FixedTables(), 0, Pages(parent.sz)) <= |old(m.free)|
    ensures r.Some? ==>
      var child := r.value;
      && |m.free| + 6 + Cost(FixedTables(), 0, Pages(parent.sz)) == |old(m.free)|
      && child.trapframe != 0 && child.pagetable != 0 && child.kstack != 0
      && child.sz == parent.sz && child.pagetable !in old(m.spaces) && child.pagetable in m.spaces
      && m.spaces == old(m.spaces)[child.pagetable := m.spaces[child.pagetable]]
      && Holds(m, child, Pages(child.sz), true) && Returned(m.own, child) == old(m.own)
      && var a, b := m.spaces[parent.pagetable].flat, m.spaces[child.pagetable].flat;
         && CopiedAll(m.mem, a, b, Pages(parent.sz)) && CopiedStack(m.mem, a, b)
         && child.trapframe in m.mem && m.mem[child.trapframe].Data?
         && Forked(old(m.mem)[parent.trapframe].bytes, m.mem[child.trapframe].bytes)
  {
    hide FreeOk, SpacesOk, OwnedOk, Managed, Local, LocalBut, Absent, Safe, Leaves, Returned, Zeros, Forked;
    hide Layout, CopiedPage, PlaceOf, UserEntry, Pages, Tables, FixedTables, Cost;
    ghost var mem, own, spaces := m.mem, m.own, m.spaces;
    r := Allocproc(m, trampoline);
    if r.None? {
      return;
    }
    ghost var p, mem1, own1 := r.value, m.mem, m.own;
    SafeHolds(m, parent, n, stack, mem, own, spaces);
    KeptByReturn(mem, own, m.mem, m.own, parent.trapframe);
    NewFrame(own, own1, p);
    var ok, child := CopyInto(m, parent, r.value, n, stack);
    ReturnedBut(mem1, own1, m.mem, m.own, p, child.sz);
    SafeBut(p.pagetable, p.trapframe, mem, own, mem1, own1, m.mem, m.own);
    if !ok {
      ghost var mem2, own2 := m.mem, m.own;
      var _ := Freeproc(m, child, Pages(child.sz), false);
      SafeReturned(mem, own, mem2, own2, m.mem, m.own, child);
      return None;
    }
    return Some(child);
  }

  /** Right after a fork, parent and child see the same bytes below sz. */
  lemma ChildSees(m: Machine, src: nat, dst: nat, n: nat, x: nat, perm: bv10)
    requires Valid(m) && src in m.spaces && dst in m.spaces && x < n * PGSIZE && n <= STACK_VPN
    requires CopiedAll(m.mem, m.spaces[src].flat, m.spaces[dst].flat, n)
    ensures Peek(m.mem, m.spaces[dst], x, perm) == Peek(m.mem, m.spaces[src], x, perm)
  {
    hide Valid, PlaceOf, CopiedPage;
    PageBelow(x, n);
    assert CopiedPage(m.mem, m.spaces[src].flat, m.spaces[dst].flat, x / PGSIZE);
    CopySees(m.mem, m.spaces[src], m.spaces[dst], x, perm);
  }

  /** And the same bytes on their stacks, where the child may write. */
  lemma StackSees(mem: Memory, a: Space, b: Space, x: nat)
    requires CopiedStack(mem, a.flat, b.flat) && x / PGSIZE == STACK_VPN
    ensures MayRead(b, x) && MayWrite(b, x) && ByteAt(mem, b, x) == ByteAt(mem, a, x)
  {
    hide PlaceOf, Grants;
    GrantsAll(b.flat, STACK_VPN);
  }

  lemma PageBelow(x: nat, n: nat)
    requires x < n * PGSIZE
    ensures x / PGSIZE < n
  {
  }

  lemma CopySees(mem: Memory, a: Space, b: Space, x: nat, perm: bv10)
    requires CopiedPage(mem, a.flat, b.flat, x / PGSIZE)
    ensures Peek(mem, b, x, perm) == Peek(mem, a, x, perm)
  {
    hide PlaceOf, Permits;
  }
}
