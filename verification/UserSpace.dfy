/** User address spaces: made, copied and given back, with every frame accounted for. */
module UserSpace {
  import opened Prelude
  import opened FsLayout
  import opened Sv39
  import opened PhysPages
  import opened PageTables

  const TRAMPOLINE_VPN := MAXVPN - 1
  const TRAPFRAME_VPN := MAXVPN - 2
  const STACK_VPN := MAXVPN - 3

  const R: bv10 := 0x2
  const W: bv10 := 0x4
  const X: bv10 := 0x8
  const U: bv10 := 0x10

  // ---- Changes that concern one address space only ---------------------------------------

  /** A frame that is free or belongs to root. */
  ghost predicate Mine(o: Owner, root: nat) { o == Free || (o.Of? && o.root == root) }

  /** Frames moved between the free list and root; all others are as they were. */
  ghost predicate Local(root: nat, mem: Memory, own: Owners, mem': Memory, own': Owners) {
    && mem.Keys == own.Keys == mem'.Keys == own'.Keys
    && forall g :: g in own ==>
         if Mine(own[g], root) then Mine(own'[g], root) else own'[g] == own[g] && mem'[g] == mem[g]
  }

  /** No frame belongs to root. */
  ghost predicate Absent(own: Owners, root: nat) { forall g :: g in own && own[g].Of? ==> own[g].root != root }

  lemma LocalTrans(root: nat, mem: Memory, own: Owners, mem1: Memory, own1: Owners, mem2: Memory, own2: Owners)
    requires Local(root, mem, own, mem1, own1) && Local(root, mem1, own1, mem2, own2)
    ensures Local(root, mem, own, mem2, own2)
  {
  }

  /** When root is gone at both ends, every frame has the owner it had. */
  lemma LocalRestores(root: nat, mem: Memory, own: Owners, mem': Memory, own': Owners)
    requires Local(root, mem, own, mem', own') && Absent(own, root) && Absent(own', root)
    ensures own' == own
  {
  }

  /** Mapping pages that are not user pages moves no frame but tables. */
  lemma LocalMapped(m: Machine, root: nat, mem: Memory, own: Owners, spaces: map<nat, Space>, vpn: nat, f: nat,
                    flags: bv10, k: nat)
    requires Valid(m) && mem.Keys == own.Keys
    requires Mapped(root, mem, own, spaces, m.mem, m.own, m.spaces, vpn, f, flags, k)
    requires flags & 0x10 == 0 || k == 0
    ensures Local(root, mem, own, m.mem, m.own)
  {
    hide MapAll;
    SameKeys(m.first, m.mem, m.own);
  }

  lemma LocalUnmapped(m: Machine, root: nat, mem: Memory, own: Owners, spaces: map<nat, Space>, vpn: nat, k: nat)
    requires Valid(m) && mem.Keys == own.Keys && Unmapped(root, mem, own, spaces, m.mem, m.own, m.spaces, vpn, k)
    ensures Local(root, mem, own, m.mem, m.own)
  {
    hide UnmapAll;
    SameKeys(m.first, m.mem, m.own);
    forall g | g in own
      ensures if Mine(own[g], root) then Mine(m.own[g], root) else m.own[g] == own[g] && m.mem[g] == mem[g]
    {
      assert GaveBack(own[g], m.own[g], root);
    }
  }

  // ---- Creating and dropping ----------------------------------------------------------------

  ghost predicate KeysSame(m: Machine)
    reads m
  {
    m.mem.Keys == m.own.Keys
  }

  /** uvmcreate: an address space with one empty table. */
  method Uvmcreate(m: Machine) returns (r: Option<nat>)
    requires Valid(m)
    modifies m
    ensures Valid(m) && KeysSame(m) && (r.None? <==> old(m.free) == [])
    ensures r.None? ==> m.own == old(m.own) && m.spaces == old(m.spaces) && m.mem == old(m.mem)
    ensures r.Some? ==>
      && |m.free| + 1 == |old(m.free)|
      && r.value != 0 && r.value !in old(m.spaces) && Absent(old(m.own), r.value)
      && Local(r.value, old(m.mem), old(m.own), m.mem, m.own)
      && m.spaces == old(m.spaces)[r.value := Space(map[Top := r.value], map[])]
  {
    hide FreeOk, SpacesOk, OwnedOk, Managed, Local, Absent, ZeroTable, Zeros;
    ghost var mem, own, spaces := m.mem, m.own, m.spaces;
    SameKeys(m.first, mem, own);
    r := m.KallocZeroed();
    SameKeys(m.first, m.mem, m.own);
    if r.None? {
      return;
    }
    var root := r.value;
    ghost var mem1, own1 := m.mem, m.own;
    m.mem := m.mem[root := Table(ZeroTable())];
    m.own := m.own[root := Of(root, Top)];
    m.spaces := m.spaces[root := Space(map[Top := root], map[])];
    FreeKept(mem1, m.mem, m.head, m.free, own1, m.own);
    ManagedSame(m.first, mem1, own1, m.mem, m.own);
    NewRoot(mem, own, spaces, root, m.mem, m.own);
    assert m.own == own[root := Of(root, Top)];
    assert m.mem == mem[root := Table(ZeroTable())];
    LocalOne(root, mem, own, Table(ZeroTable()));
  }

  lemma LocalOne(root: nat, mem: Memory, own: Owners, page: Page)
    requires mem.Keys == own.Keys && root in own && own[root] == Free
    ensures Local(root, mem, own, mem[root := page], own[root := Of(root, Top)])
  {
  }

  lemma NewRoot(mem: Memory, own: Owners, spaces: map<nat, Space>, root: nat, mem': Memory, own': Owners)
    requires SpacesOk(mem, own, spaces) && OwnedOk(own, spaces) && root in own && root in mem && own[root] == Free
    requires mem' == mem[root := Table(ZeroTable())] && own' == own[root := Of(root, Top)]
    ensures root !in spaces && Absent(own, root)
    ensures var spaces' := spaces[root := Space(map[Top := root], map[])];
      SpacesOk(mem', own', spaces') && OwnedOk(own', spaces')
  {
    var sp := Space(map[Top := root], map[]);
    if root in spaces { RootOwned(mem, own, spaces, root); }
    forall f | f in own && own[f].Of? ensures own[f].root != root { assert OwnerOk(f, own[f], spaces); }
    assert NodeOk(mem', own', root, sp, Top) by { assert EntriesOk(ZeroTable(), sp, Top); }
    assert SpaceOk(mem', own', root, sp);
    OthersOk(mem, own, mem', own', spaces, root, sp);
    forall f | f in own' && own'[f].Of? ensures OwnerOk(f, own'[f], spaces[root := sp]) {
      if f != root { assert OwnerOk(f, own[f], spaces); }
    }
  }

  lemma RootOwned(mem: Memory, own: Owners, spaces: map<nat, Space>, root: nat)
    requires SpacesOk(mem, own, spaces) && root in spaces
    ensures root in own && own[root] == Of(root, Top)
  {
    assert SpaceOk(mem, own, root, spaces[root]);
    assert NodeOk(mem, own, root, spaces[root], Top);
  }

  /** freewalk from the root of an address space: a panic if the space maps anything,
      otherwise the space is gone and all its frames are free. */
  method FreeTables(m: Machine, root: nat) returns (ok: bool)
    requires Valid(m) && root in m.spaces
    modifies m
    ensures ok <==> old(m.spaces)[root].flat == map[]
    ensures ok ==>
      && Valid(m) && KeysSame(m) && Local(root, old(m.mem), old(m.own), m.mem, m.own)
      && m.spaces == old(m.spaces) - {root} && Absent(m.own, root)
  {
    hide FreeOk, SpacesOk, OwnedOk, Managed, BelowOk, OwnedIn, Freed, Mapping, Hung;
    ghost var mem, own, spaces, sp := m.mem, m.own, m.spaces, m.spaces[root];
    SameKeys(m.first, mem, own);
    TopAt(m, root);
    BelowRoot(mem, own, spaces, root);
    MappingTop(sp);
    ok := Freewalk(m, root, root, sp, Top);
    if !ok {
      return;
    }
    SameKeys(m.first, m.mem, m.own);
    m.spaces := m.spaces - {root};
    RootGone(mem, own, m.mem, m.own, spaces, root);
  }

  lemma BelowRoot(mem: Memory, own: Owners, spaces: map<nat, Space>, root: nat)
    requires SpacesOk(mem, own, spaces) && OwnedOk(own, spaces) && root in spaces
    ensures BelowOk(mem, own, root, spaces[root], Top) && OwnedIn(own, root, spaces[root]) && Hung(spaces[root])
  {
    hide NodeOk;
    assert SpaceOk(mem, own, root, spaces[root]);
    forall g | g in own && own[g].Of? && own[g].root == root
      ensures own[g].place in spaces[root].at && spaces[root].at[own[g].place] == g
    {
      assert OwnerOk(g, own[g], spaces);
    }
  }

  lemma MappingTop(sp: Space)
    ensures Mapping(sp, Top) <==> sp.flat != map[]
  {
    if sp.flat != map[] {
      var q :| q in sp.flat;
      assert Under(Top, q);
    }
  }

  lemma RootGone(mem: Memory, own: Owners, mem': Memory, own': Owners, spaces: map<nat, Space>, root: nat)
    requires SpacesOk(mem, own, spaces) && OwnedOk(own, spaces) && root in spaces
    requires Freed(mem, own, mem', own', root, Top)
    ensures SpacesOk(mem', own', spaces - {root}) && OwnedOk(own', spaces - {root})
    ensures Absent(own', root) && Local(root, mem, own, mem', own')
  {
    hide SpaceOk;
    forall r | r in spaces - {root} ensures SpaceOk(mem', own', r, spaces[r]) {
      SpaceKept(mem, own, mem', own', r, spaces[r]);
    }
    forall f | f in own' && own'[f].Of? ensures OwnerOk(f, own'[f], spaces - {root}) {
      assert OwnerOk(f, own[f], spaces);
    }
  }

  // ---- Which pages are mapped ---------------------------------------------------------------

  /** The places of pages vpn .. vpn + k. */
  ghost function Places(vpn: nat, k: nat): set<Place> {
    if k == 0 then {} else Places(vpn, k - 1) + {PlaceOf(vpn + k - 1)}
  }

  ghost function FixedPlaces(): set<Place> { {PlaceOf(TRAMPOLINE_VPN), PlaceOf(TRAPFRAME_VPN)} }

  ghost function StackPlaces(stack: bool): set<Place> { if stack then {PlaceOf(STACK_VPN)} else {} }

  /** The address space of a process: the two fixed pages, user pages [0, n) and maybe a
      stack, and nothing else. */
  ghost predicate Layout(flat: map<Place, Pte>, n: nat, stack: bool) {
    && n <= STACK_VPN && flat.Keys == Places(0, n) + FixedPlaces() + StackPlaces(stack)
    && (forall v :: 0 <= v < n ==> MappedAs(flat, v, true))
    && MappedAs(flat, TRAMPOLINE_VPN, false) && MappedAs(flat, TRAPFRAME_VPN, false)
    && (stack ==> MappedAs(flat, STACK_VPN, true))
  }

  lemma {:induction false} UnmapKeys(flat: map<Place, Pte>, vpn: nat, k: nat)
    ensures UnmapAll(flat, vpn, k).Keys == flat.Keys - Places(vpn, k)
    ensures forall q :: q in UnmapAll(flat, vpn, k) ==> UnmapAll(flat, vpn, k)[q] == flat[q]
  {
    hide PlaceOf;
    if k > 0 {
      UnmapKeys(flat, vpn, k - 1);
    }
  }

  lemma {:induction false} NotAmong(vpn: nat, k: nat, other: nat)
    requires vpn + k <= 2 * MAXVPN && other < 2 * MAXVPN && (other < vpn || vpn + k <= other)
    ensures PlaceOf(other) !in Places(vpn, k)
  {
    hide PlaceOf;
    if k > 0 {
      NotAmong(vpn, k - 1, other);
      if PlaceOf(vpn + k - 1) == PlaceOf(other) { PlaceInjective(vpn + k - 1, other); }
    }
  }

  /** The fixed places and the stack differ, and lie above all user pages. */
  lemma PlacesDiffer()
    ensures PlaceOf(TRAMPOLINE_VPN) != PlaceOf(TRAPFRAME_VPN) && PlaceOf(TRAMPOLINE_VPN) != PlaceOf(STACK_VPN)
    ensures PlaceOf(TRAPFRAME_VPN) != PlaceOf(STACK_VPN)
  {
  }

  lemma ApartFromUser(n: nat)
    requires n <= STACK_VPN
    ensures PlaceOf(TRAMPOLINE_VPN) !in Places(0, n) && PlaceOf(TRAPFRAME_VPN) !in Places(0, n)
    ensures PlaceOf(STACK_VPN) !in Places(0, n)
  {
    hide PlaceOf;
    NotAmong(0, n, TRAMPOLINE_VPN);
    NotAmong(0, n, TRAPFRAME_VPN);
    NotAmong(0, n, STACK_VPN);
  }

  function Pages(sz: nat): nat { (sz + PGSIZE - 1) / PGSIZE }

  lemma UnmapOne(flat: map<Place, Pte>, vpn: nat)
    ensures UnmapAll(flat, vpn, 1) == flat - {PlaceOf(vpn)}
  {
    hide PlaceOf;
    assert UnmapAll(flat, vpn, 0) == flat;
  }

  lemma LocalSelf(root: nat, mem: Memory, own: Owners)
    requires mem.Keys == own.Keys
    ensures Local(root, mem, own, mem, own)
  {
  }

  /** uvmunmap in terms of one address space. */
  method Unmap(m: Machine, root: nat, vpn: nat, n: nat, doFree: bool)
    requires Valid(m) && root in m.spaces && vpn + n <= MAXVPN
    requires forall v :: vpn <= v < vpn + n ==> MappedAs(m.spaces[root].flat, v, doFree)
    modifies m
    ensures Valid(m) && KeysSame(m) && Local(root, old(m.mem), old(m.own), m.mem, m.own)
    ensures root in m.spaces && root in old(m.spaces) && m.spaces == old(m.spaces)[root := m.spaces[root]]
    ensures m.spaces[root].flat == UnmapAll(old(m.spaces)[root].flat, vpn, n)
  {
    hide FreeOk, SpacesOk, OwnedOk, Managed, UnmapAll, MappedAs, Local;
    ghost var mem, own, spaces := m.mem, m.own, m.spaces;
    SameKeys(m.first, mem, own);
    Uvmunmap(m, root, vpn, n, doFree);
    SameKeys(m.first, m.mem, m.own);
    LocalUnmapped(m, root, mem, own, spaces, vpn, n);
  }

  /** uvmfree: the space is gone, unless it maps more than the user pages [0, sz), which
      is a panic. */
  method Uvmfree(m: Machine, root: nat, sz: nat) returns (ok: bool)
    requires Valid(m) && root in m.spaces && Pages(sz) <= MAXVPN
    requires forall v :: 0 <= v < Pages(sz) ==> MappedAs(m.spaces[root].flat, v, true)
    modifies m
    ensures ok <==> old(m.spaces)[root].flat.Keys <= Places(0, Pages(sz))
    ensures ok ==>
      && Valid(m) && KeysSame(m) && Local(root, old(m.mem), old(m.own), m.mem, m.own)
      && m.spaces == old(m.spaces) - {root} && Absent(m.own, root)
  {
    hide FreeOk, SpacesOk, OwnedOk, Managed, UnmapAll, MappedAs, Local, Absent, Places;
    ghost var mem, own, flat := m.mem, m.own, m.spaces[root].flat;
    SameKeys(m.first, mem, own);
    LocalSelf(root, mem, own);
    if sz > 0 {
      Unmap(m, root, 0, Pages(sz), true);
      UnmapKeys(flat, 0, Pages(sz));
    }
    NoPlaces();
    assert m.spaces[root].flat == map[] <==> flat.Keys <= Places(0, Pages(sz));
    ghost var mem1, own1 := m.mem, m.own;
    ok := FreeTables(m, root);
    if ok {
      LocalTrans(root, mem, own, mem1, own1, m.mem, m.own);
    }
  }

  lemma NoPlaces()
    ensures Places(0, Pages(0)) == {}
  {
  }

  lemma WithoutOne(flat: map<Place, Pte>, vpn: nat, other: nat, user: bool)
    requires PlaceOf(vpn) != PlaceOf(other) && MappedAs(flat, other, user)
    ensures MappedAs(UnmapAll(flat, vpn, 1), other, user)
  {
    hide PlaceOf;
    UnmapOne(flat, vpn);
  }

  lemma UserStays(flat: map<Place, Pte>, vpn: nat, n: nat)
    requires n <= vpn < MAXVPN && forall v :: 0 <= v < n ==> MappedAs(flat, v, true)
    ensures forall v :: 0 <= v < n ==> MappedAs(UnmapAll(flat, vpn, 1), v, true)
  {
    hide PlaceOf, MappedAs;
    forall v | 0 <= v < n ensures MappedAs(UnmapAll(flat, vpn, 1), v, true) {
      if PlaceOf(vpn) == PlaceOf(v) { PlaceInjective(vpn, v); }
      WithoutOne(flat, vpn, v, true);
    }
  }

  /** proc_freepagetable on a process address space of n pages: it unmaps everything, frees
      exactly the frames of that space, and leaves every other frame alone; if the process
      has more pages than its size says it panics. */
  method ProcFreepagetable(m: Machine, root: nat, sz: nat, ghost n: nat, ghost stack: bool) returns (ok: bool)
    requires Valid(m) && root in m.spaces && Layout(m.spaces[root].flat, n, stack) && Pages(sz) <= n
    modifies m
    ensures ok <==> n == Pages(sz)
    ensures ok ==>
      && Valid(m) && KeysSame(m) && Local(root, old(m.mem), old(m.own), m.mem, m.own)
      && m.spaces == old(m.spaces) - {root} && Absent(m.own, root)
  {
    hide FreeOk, SpacesOk, OwnedOk, Managed, PlaceOf, Local, User, Places, UnmapAll, MappedAs, Absent, Pages;
    ghost var mem, own, flat := m.mem, m.own, m.spaces[root].flat;
    PlacesDiffer();
    ApartFromUser(n);
    Unmap(m, root, TRAMPOLINE_VPN, 1, false);
    UnmapOne(flat, TRAMPOLINE_VPN);
    WithoutOne(flat, TRAMPOLINE_VPN, TRAPFRAME_VPN, false);
    UserStays(flat, TRAMPOLINE_VPN, n);
    ghost var mem1, own1, flat1 := m.mem, m.own, m.spaces[root].flat;
    Unmap(m, root, TRAPFRAME_VPN, 1, false);
    UnmapOne(flat1, TRAPFRAME_VPN);
    UserStays(flat1, TRAPFRAME_VPN, n);
    LocalTrans(root, mem, own, mem1, own1, m.mem, m.own);
    ghost var mem2, own2, flat2 := m.mem, m.own, m.spaces[root].flat;
    if stack {
      WithoutOne(flat, TRAMPOLINE_VPN, STACK_VPN, true);
      WithoutOne(flat1, TRAPFRAME_VPN, STACK_VPN, true);
    }
    var st := WalkUserPerm(m, root, STACK_VPN, 0);
    assert st.Some? <==> stack by { StackEntry(m.spaces[root], stack); }
    if st.Some? {
      Unmap(m, root, STACK_VPN, 1, true);
      UnmapOne(flat2, STACK_VPN);
      UserStays(flat2, STACK_VPN, n);
      LocalTrans(root, mem, own, mem2, own2, m.mem, m.own);
    }
    ghost var mem3, own3 := m.mem, m.own;
    FewerPlaces(Pages(sz), n);
    ok := Uvmfree(m, root, sz);
    if ok {
      LocalTrans(root, mem, own, mem3, own3, m.mem, m.own);
    }
  }

  lemma FewerPlaces(k: nat, n: nat)
    requires k <= n <= MAXVPN
    ensures Places(0, n) <= Places(0, k) <==> k == n
  {
    hide PlaceOf;
    if k < n {
      NotAmong(0, k, n - 1);
    }
  }

  lemma StackEntry(sp: Space, stack: bool)
    requires stack ==> MappedAs(sp.flat, STACK_VPN, true)
    requires !stack ==> PlaceOf(STACK_VPN) !in sp.flat
    ensures UserEntry(sp, STACK_VPN, 0).Some? <==> stack
  {
    hide PlaceOf;
  }

  lemma MapNone(flat: map<Place, Pte>, vpn: nat, f: nat, flags: bv10)
    ensures MapAll(flat, vpn, f, flags, 0) == flat
    ensures MapAll(flat, vpn, f, flags, 1) == flat[PlaceOf(vpn) := LeafPte(f, flags)]
  {
    hide PlaceOf;
    assert MapAll(flat, vpn, f, flags, 0) == flat;
  }

  /** mappages of one page the address space does not own. */
  method MapFixed(m: Machine, root: nat, vpn: nat, f: nat, flags: bv10) returns (ok: bool)
    requires Valid(m) && root in m.spaces && flags & 0xE != 0 && flags & U == 0
    modifies m
    ensures Valid(m) && KeysSame(m) && Local(root, old(m.mem), old(m.own), m.mem, m.own)
    ensures root in m.spaces && root in old(m.spaces) && m.spaces == old(m.spaces)[root := m.spaces[root]]
    ensures m.spaces[root].flat ==
            if ok then old(m.spaces)[root].flat[PlaceOf(vpn) := LeafPte(f, flags)] else old(m.spaces)[root].flat
    ensures ok ==> PlaceOf(vpn) !in old(m.spaces)[root].flat
    ensures PlaceOf(vpn) !in old(m.spaces)[root].flat ==>
      var q, tables := PlaceOf(vpn), Tables(old(m.spaces)[root]);
      && (ok <==> Missing(tables, q) <= |old(m.free)|)
      && (ok ==> |m.free| + Missing(tables, q) == |old(m.free)| && Tables(m.spaces[root]) == WithWay(tables, q))
  {
    hide FreeOk, SpacesOk, OwnedOk, Managed, MapAll, Local, PlaceOf, LeafPte, Tables, Missing, WithWay;
    ghost var mem, own, spaces := m.mem, m.own, m.spaces;
    SameKeys(m.first, mem, own);
    MapNone(spaces[root].flat, vpn, f, flags);
    ok := MapPage(m, root, vpn, f, flags);
    SameKeys(m.first, m.mem, m.own);
    LocalMapped(m, root, mem, own, spaces, vpn, f, flags, if ok then 1 else 0);
  }

  lemma MappedHere(flat: map<Place, Pte>, vpn: nat, pte: Pte)
    ensures MappedAs(flat[PlaceOf(vpn) := pte], vpn, User(pte))
  {
  }

  /** proc_pagetable: a new address space with just the two fixed pages, or every frame
      as it was. */
  method ProcPagetable(m: Machine, trampoline: nat, trapframe: nat) returns (r: Option<nat>)
    requires Valid(m)
    modifies m
    ensures Valid(m) && KeysSame(m)
    ensures r.None? ==>
      m.own == old(m.own) && m.spaces == old(m.spaces) && OthersUntouched(old(m.mem), old(m.own), m.mem)
    ensures r.Some? <==> 3 <= |old(m.free)|
    ensures r.Some? ==>
      && |m.free| + 3 == |old(m.free)| && r.value in m.spaces && Tables(m.spaces[r.value]) == FixedTables()
      && r.value != 0 && r.value !in old(m.spaces) && Absent(old(m.own), r.value) && r.value in m.spaces
      && Local(r.value, old(m.mem), old(m.own), m.mem, m.own)
      && m.spaces == old(m.spaces)[r.value := m.spaces[r.value]] && Layout(m.spaces[r.value].flat, 0, false)
      && m.spaces[r.value].flat ==
           map[PlaceOf(TRAMPOLINE_VPN) := LeafPte(trampoline, 0xA),
             PlaceOf(TRAPFRAME_VPN) := LeafPte(trapframe, 0x6)]
  {
    hide FreeOk, SpacesOk, OwnedOk, Managed, Local, PlaceOf, LeafPte, Absent, UnmapAll, MappedAs, Tables, Missing,
      WithWay, FixedTables;
    ghost var mem, own, spaces := m.mem, m.own, m.spaces;
    SameKeys(m.first, mem, own);
    PlacesDiffer();
    r := Uvmcreate(m);
    if r.None? {
      return;
    }
    var root := r.value;
    ghost var mem1, own1, spaces1 := m.mem, m.own, m.spaces;
    var ok := MapFixed(m, root, TRAMPOLINE_VPN, trampoline, R | X);
    LocalTrans(root, mem, own, mem1, own1, m.mem, m.own);
    ghost var mem2, own2, flat2 := m.mem, m.own, m.spaces[root].flat;
    if !ok {
      ok := FreeTables(m, root);
      GoneAgain(m, root, mem, own, mem2, own2);
      FixedCosts(root);
      return None;
    }
    MappedHere(map[], TRAMPOLINE_VPN, LeafPte(trampoline, R | X));
    ok := MapFixed(m, root, TRAPFRAME_VPN, trapframe, R | W);
    LocalTrans(root, mem, own, mem2, own2, m.mem, m.own);
    ghost var mem3, own3 := m.mem, m.own;
    if !ok {
      Unmap(m, root, TRAMPOLINE_VPN, 1, false);
      UnmapOne(flat2, TRAMPOLINE_VPN);
      LocalTrans(root, mem, own, mem3, own3, m.mem, m.own);
      ghost var mem4, own4 := m.mem, m.own;
      ok := FreeTables(m, root);
      r := None;
      // The two fixed pages share their tables, so this branch is never taken.
      FixedCosts(root);
      assert false;
    }
    FixedCosts(root);
    FixedLayout(LeafPte(trampoline, R | X), LeafPte(trapframe, R | W));
  }

  /** The tables of a process that has only the fixed pages. */
  ghost function FixedTables(): set<Place> { {Top, Mid(255), Low(255, 511)} }

  lemma FixedCosts(root: nat)
    ensures var q, none := PlaceOf(TRAMPOLINE_VPN), Tables(Space(map[Top := root], map[]));
            && Missing(none, q) == 2 && WithWay(none, q) == FixedTables()
            && Missing(FixedTables(), PlaceOf(TRAPFRAME_VPN)) == 0
            && WithWay(FixedTables(), PlaceOf(TRAPFRAME_VPN)) == FixedTables()
            && Missing(FixedTables(), PlaceOf(STACK_VPN)) == 0
  {
    assert Tables(Space(map[Top := root], map[])) == {Top};
  }

  lemma FixedLayout(a: Pte, b: Pte)
    requires !User(a) && !User(b)
    ensures var flat := map[PlaceOf(TRAMPOLINE_VPN) := a, PlaceOf(TRAPFRAME_VPN) := b];
            flat == map[PlaceOf(TRAMPOLINE_VPN) := a][PlaceOf(TRAPFRAME_VPN) := b] && Layout(flat, 0, false)
  {
    hide PlaceOf;
    PlacesDiffer();
  }

  /** Frames that somebody holds have the bytes they had. */
  ghost predicate OthersUntouched(mem: Memory, own: Owners, mem': Memory) {
    forall g :: g in mem && g in own && own[g] != Free ==> g in mem' && mem'[g] == mem[g]
  }

  lemma GoneAgain(m: Machine, root: nat, mem: Memory, own: Owners, mem1: Memory, own1: Owners)
    requires Local(root, mem, own, mem1, own1) && Local(root, mem1, own1, m.mem, m.own)
    requires Absent(own, root) && Absent(m.own, root)
    ensures m.own == own && OthersUntouched(mem, own, m.mem)
  {
    hide Local, Absent;
    LocalTrans(root, mem, own, mem1, own1, m.mem, m.own);
    LocalRestores(root, mem, own, m.mem, m.own);
    LocalOthers(root, mem, own, m.mem, m.own);
  }

  lemma LocalOthers(root: nat, mem: Memory, own: Owners, mem': Memory, own': Owners)
    requires Local(root, mem, own, mem', own') && Absent(own, root)
    ensures OthersUntouched(mem, own, mem')
  {
  }

  // ---- Copying an address space ------------------------------------------------------------

  /** As Local, except for frame f. */
  ghost predicate LocalBut(root: nat, f: nat, mem: Memory, own: Owners, mem': Memory, own': Owners) {
    && mem.Keys == own.Keys == mem'.Keys == own'.Keys
    && forall g :: g in own && g != f ==>
         if Mine(own[g], root) then Mine(own'[g], root) else own'[g] == own[g] && mem'[g] == mem[g]
  }

  lemma LocalButTrans(root: nat, f: nat, mem: Memory, own: Owners, mem1: Memory, own1: Owners, mem2: Memory,
                      own2: Owners)
    requires LocalBut(root, f, mem, own, mem1, own1) && LocalBut(root, f, mem1, own1, mem2, own2)
    ensures LocalBut(root, f, mem, own, mem2, own2)
  {
  }

  lemma LocalAfterAll(root: nat, f: nat, mem: Memory, own: Owners, mem': Memory, own': Owners)
    requires LocalBut(root, f, mem, own, mem', own') && f in own && Mine(own[f], root) && Mine(own'[f], root)
    ensures Local(root, mem, own, mem', own')
  {
  }

  lemma LocalButWrite(root: nat, f: nat, mem: Memory, own: Owners, page: Page, o: Owner)
    requires mem.Keys == own.Keys && f in mem
    ensures LocalBut(root, f, mem, own, mem[f := page], own[f := o])
  {
  }

  lemma LocalButMapped(m: Machine, root: nat, mem: Memory, own: Owners, spaces: map<nat, Space>, vpn: nat, f: nat,
                       flags: bv10, ok: bool)
    requires Valid(m) && mem.Keys == own.Keys && f in own && own[f] == Loose
    requires Mapped(root, mem, own, spaces, m.mem, m.own, m.spaces, vpn, f, flags, if ok then 1 else 0)
    ensures LocalBut(root, f, mem, own, m.mem, m.own) && m.mem[f] == mem[f] && (!ok ==> m.own[f] == Loose)
  {
    hide MapAll;
    SameKeys(m.first, m.mem, m.own);
    forall g | g in own && g != f
      ensures if Mine(own[g], root) then Mine(m.own[g], root) else m.own[g] == own[g] && m.mem[g] == mem[g]
    {
      assert !MovedIn(own[g], m.own[g], g, root, vpn, f, flags, 1);
    }
  }

  lemma FlatOwner(m: Machine, root: nat, q: Place)
    requires Valid(m) && root in m.spaces && q in m.spaces[root].flat && q.At? && User(m.spaces[root].flat[q])
    ensures m.spaces[root].flat[q].ppn in m.own && m.own[m.spaces[root].flat[q].ppn] == Of(root, q)
  {
    UserOwned(m, root, q);
  }

  /** Pages that user entries map keep their bytes. */
  ghost predicate UserPagesKept(mem: Memory, own: Owners, mem': Memory) {
    forall g :: g in mem && g in own && own[g].Of? && own[g].place.At? ==> g in mem' && mem'[g] == mem[g]
  }

  lemma MappedPages(root: nat, mem: Memory, own: Owners, spaces: map<nat, Space>, mem': Memory, own': Owners,
                    spaces': map<nat, Space>,
                    vpn: nat, f: nat, flags: bv10, k: nat)
    requires Mapped(root, mem, own, spaces, mem', own', spaces', vpn, f, flags, k)
    ensures UserPagesKept(mem, own, mem')
  {
    hide MapAll;
  }

  /** A page from the free list, filled. */
  method FilledPage(m: Machine, bytes: seq<Byte>) returns (r: Option<nat>)
    requires Valid(m) && |bytes| == PGSIZE
    modifies m
    ensures Valid(m) && KeysSame(m) && m.spaces == old(m.spaces) && (r.None? <==> old(m.free) == [])
    ensures r.None? ==> m.mem == old(m.mem) && m.own == old(m.own) && m.free == []
    ensures r.Some? ==>
      && |m.free| + 1 == |old(m.free)| && r.value != 0 && r.value in old(m.own) && old(m.own)[r.value] == Free
      && m.own == old(m.own)[r.value := Loose] && m.mem == old(m.mem)[r.value := Data(bytes)]
  {
    hide FreeOk, SpacesOk, OwnedOk, Managed, Zeros;
    ghost var mem, own := m.mem, m.own;
    SameKeys(m.first, mem, own);
    r := m.KallocZeroed();
    if r.Some? {
      var f := r.value;
      ghost var mem1 := m.mem;
      m.mem := m.mem[f := Data(bytes)];
      FreeKept(mem1, m.mem, m.head, m.free, m.own, m.own);
      ManagedSame(m.first, mem1, m.own, m.mem, m.own);
      assert m.mem == mem[f := Data(bytes)];
      LooseChange(mem, own, m.mem, m.own, m.spaces, f);
    }
  }

  /** A page filled with given bytes becomes page vpn of an address space, or everything
      is as it was but for tables. */
  method AddPage(m: Machine, root: nat, vpn: nat, flags: bv10, bytes: seq<Byte>) returns (r: Option<nat>, dry: bool)
    requires Valid(m) && root in m.spaces && |bytes| == PGSIZE && flags & 0xE != 0 && flags & U != 0
    modifies m
    ensures Valid(m) && KeysSame(m) && Local(root, old(m.mem), old(m.own), m.mem, m.own)
    ensures root in m.spaces && root in old(m.spaces) && m.spaces == old(m.spaces)[root := m.spaces[root]]
    ensures UserPagesKept(old(m.mem), old(m.own), m.mem)
    ensures (dry <==> old(m.free) == []) && (dry ==> r.None? && m.free == [])
    ensures r.None? ==> m.spaces[root].flat == old(m.spaces)[root].flat
    ensures PlaceOf(vpn) !in old(m.spaces)[root].flat ==>
      var q, tables := PlaceOf(vpn), Tables(old(m.spaces)[root]);
      && (r.Some? <==> 1 + Missing(tables, q) <= |old(m.free)|)
      && (r.Some? ==>
        |m.free| + 1 + Missing(tables, q) == |old(m.free)| && Tables(m.spaces[root]) == WithWay(tables, q))
    ensures r.Some? ==>
      && PlaceOf(vpn) !in old(m.spaces)[root].flat
      && m.spaces[root].flat == old(m.spaces)[root].flat[PlaceOf(vpn) := LeafPte(r.value, flags)]
      && r.value in m.mem && m.mem[r.value] == Data(bytes)
      && r.value in old(m.own) && old(m.own)[r.value] == Free
  {
    hide FreeOk, SpacesOk, OwnedOk, Managed, MapAll, Local, LocalBut, PlaceOf, Mapped, V, Leaf, User, Stamped, Tables,
      Missing, WithWay;
    ghost var mem, own, spaces := m.mem, m.own, m.spaces;
    SameKeys(m.first, mem, own);
    LocalSelf(root, mem, own);
    r := FilledPage(m, bytes);
    dry := r.None?;
    if r.None? {
      return;
    }
    var f := r.value;
    ghost var mem1, own1 := m.mem, m.own;
    LocalButWrite(root, f, mem, own, Data(bytes), Loose);
    MapNone(spaces[root].flat, vpn, f, flags);
    var ok := MapPage(m, root, vpn, f, flags);
    LocalButMapped(m, root, mem1, own1, spaces, vpn, f, flags, ok);
    LocalButTrans(root, f, mem, own, mem1, own1, m.mem, m.own);
    MappedFlat(root, mem1, own1, spaces, m.mem, m.own, m.spaces, vpn, f, flags, if ok then 1 else 0);
    MappedSpaces(root, mem1, own1, spaces, m.mem, m.own, m.spaces, vpn, f, flags, if ok then 1 else 0);
    MappedPages(root, mem1, own1, spaces, m.mem, m.own, m.spaces, vpn, f, flags, if ok then 1 else 0);
    SameKeys(m.first, m.mem, m.own);
    ghost var mem2, own2 := m.mem, m.own;
    if !ok {
      m.Kfree(f);
      SameKeys(m.first, m.mem, m.own);
      LooseChange(mem2, own2, m.mem, m.own, m.spaces, f);
      LocalButWrite(root, f, mem2, own2, m.mem[f], Free);
      LocalButTrans(root, f, mem, own, mem2, own2, m.mem, m.own);
      LocalAfterAll(root, f, mem, own, m.mem, m.own);
      return None, false;
    }
    assert m.spaces[root].flat[PlaceOf(vpn)] == LeafPte(f, flags);
    FlatOwner(m, root, PlaceOf(vpn));
    LocalAfterAll(root, f, mem, own, m.mem, m.own);
  }

  lemma MappedSpaces(root: nat, mem: Memory, own: Owners, spaces: map<nat, Space>, mem': Memory, own': Owners,
                     spaces': map<nat, Space>,
                     vpn: nat, f: nat, flags: bv10, k: nat)
    requires Mapped(root, mem, own, spaces, mem', own', spaces', vpn, f, flags, k)
    ensures root in spaces' && spaces' == spaces[root := spaces'[root]]
  {
  }

  /** A frame that no address space has may change hands between the kernel and the free
      list, and be written. */
  lemma LooseChange(mem: Memory, own: Owners, mem': Memory, own': Owners, spaces: map<nat, Space>, f: nat)
    requires SpacesOk(mem, own, spaces) && OwnedOk(own, spaces) && f in own && f in mem && !own[f].Of?
    requires f in own' && f in mem' && !own'[f].Of? && mem' == mem[f := mem'[f]] && own' == own[f := own'[f]]
    ensures SpacesOk(mem', own', spaces) && OwnedOk(own', spaces)
  {
    hide SpaceOk;
    forall r | r in spaces ensures SpaceOk(mem', own', r, spaces[r]) {
      SpaceKept(mem, own, mem', own', r, spaces[r]);
    }
    forall g | g in own' && own'[g].Of? ensures OwnerOk(g, own'[g], spaces) {
      assert OwnerOk(g, own[g], spaces);
    }
  }

  /** Page v of flat map b is a copy of page v of a: same flags, same bytes. */
  ghost predicate CopiedPage(mem: Memory, a: map<Place, Pte>, b: map<Place, Pte>, v: nat) {
    var q := PlaceOf(v);
    && q in a && q in b && b[q].flags == a[q].flags
    && a[q].ppn in mem && b[q].ppn in mem && mem[b[q].ppn] == mem[a[q].ppn]
  }

  lemma SameFlags(f: nat, pte: Pte)
    requires Stamped(pte)
    ensures LeafPte(f, pte.flags).flags == pte.flags
  {
  }

  lemma LayoutNext(flat: map<Place, Pte>, i: nat, stack: bool, pte: Pte)
    requires Layout(flat, i, stack) && i < STACK_VPN && User(pte)
    ensures PlaceOf(i) !in flat && Layout(flat[PlaceOf(i) := pte], i + 1, stack)
  {
    hide PlaceOf, User;
    if PlaceOf(i) == PlaceOf(STACK_VPN) { PlaceInjective(i, STACK_VPN); }
    NotAmong(0, i, i);
    if PlaceOf(i) == PlaceOf(TRAMPOLINE_VPN) { PlaceInjective(i, TRAMPOLINE_VPN); }
    if PlaceOf(i) == PlaceOf(TRAPFRAME_VPN) { PlaceInjective(i, TRAPFRAME_VPN); }
    var flat' := flat[PlaceOf(i) := pte];
    forall v | 0 <= v < i + 1 ensures MappedAs(flat', v, true) {
      assert v < i ==> MappedAs(flat, v, true);
    }
  }

  /** The entry of a page, found with all that is known about it. */
  lemma UserPage(m: Machine, root: nat, v: nat)
    requires Valid(m) && root in m.spaces && v < MAXVPN && MappedAs(m.spaces[root].flat, v, true)
    ensures UserEntry(m.spaces[root], v, 0) == Some(m.spaces[root].flat[PlaceOf(v)])
    ensures var pte := m.spaces[root].flat[PlaceOf(v)];
            && Leaf(pte) && Stamped(pte) && pte.flags & U != 0 && pte.flags & 0xE != 0
            && pte.ppn in m.mem && pte.ppn in m.own && m.own[pte.ppn] == Of(root, PlaceOf(v))
            && m.mem[pte.ppn].Data? && |m.mem[pte.ppn].bytes| == PGSIZE
  {
    hide PlaceOf;
    UserOwned(m, root, PlaceOf(v));
    assert SpaceOk(m.mem, m.own, root, m.spaces[root]);
    FlatOwns(m.mem, m.own, root, m.spaces[root], PlaceOf(v));
  }

  lemma StillCopied(mem: Memory, own: Owners, mem': Memory, src: nat, dst: nat, a: map<Place, Pte>,
                    b: map<Place, Pte>, b': map<Place, Pte>, v: nat)
    requires CopiedPage(mem, a, b, v) && UserPagesKept(mem, own, mem') && PlaceOf(v) in b'
    requires b'[PlaceOf(v)] == b[PlaceOf(v)]
    requires OwnedPage(own, a, src, v) && OwnedPage(own, b, dst, v)
    ensures CopiedPage(mem', a, b', v)
  {
    hide PlaceOf;
  }

  /** One page of uvmcopy. */
  method CopyPage(m: Machine, src: nat, dst: nat, v: nat) returns (ok: bool)
    requires Valid(m) && src in m.spaces && dst in m.spaces && src != dst && v < MAXVPN
    requires MappedAs(m.spaces[src].flat, v, true) && PlaceOf(v) !in m.spaces[dst].flat
    modifies m
    ensures Valid(m) && KeysSame(m) && Local(dst, old(m.mem), old(m.own), m.mem, m.own)
    ensures dst in m.spaces && m.spaces == old(m.spaces)[dst := m.spaces[dst]]
    ensures UserPagesKept(old(m.mem), old(m.own), m.mem)
    ensures !ok ==> m.spaces[dst].flat == old(m.spaces)[dst].flat
    ensures var q, tables := PlaceOf(v), Tables(old(m.spaces)[dst]);
            && (ok <==> 1 + Missing(tables, q) <= |old(m.free)|)
            && (ok ==>
                  && |m.free| + 1 + Missing(tables, q) == |old(m.free)|
                  && Tables(m.spaces[dst]) == WithWay(tables, q))
    ensures ok ==>
      && PlaceOf(v) in m.spaces[dst].flat && User(m.spaces[dst].flat[PlaceOf(v)])
      && m.spaces[dst].flat == old(m.spaces)[dst].flat[PlaceOf(v) := m.spaces[dst].flat[PlaceOf(v)]]
      && CopiedPage(m.mem, m.spaces[src].flat, m.spaces[dst].flat, v)
  {
    hide FreeOk, SpacesOk, OwnedOk, Managed, Local, PlaceOf, V, Leaf, Stamped, Tables, Missing, WithWay;
    UserPage(m, src, v);
    var entry := WalkUserPerm(m, src, v, 0);
    var pte := entry.value;
    SameFlags(0, pte);
    ghost var mem, own := m.mem, m.own;
    var r, _ := AddPage(m, dst, v, pte.flags, m.mem[pte.ppn].bytes);
    ok := r.Some?;
    if ok {
      SameFlags(r.value, pte);
      assert m.mem[pte.ppn] == mem[pte.ppn];
    }
  }

  /** The tables after pages vpn .. vpn + n have been added. */
  ghost function Way(tables: set<Place>, vpn: nat, n: nat): set<Place> {
    if n == 0 then tables else WithWay(Way(tables, vpn, n - 1), PlaceOf(vpn + n - 1))
  }

  /** Frames that pages vpn .. vpn + n take, tables included. */
  ghost function Cost(tables: set<Place>, vpn: nat, n: nat): nat {
    if n == 0 then 0 else Cost(tables, vpn, n - 1) + 1 + Missing(Way(tables, vpn, n - 1), PlaceOf(vpn + n - 1))
  }

  lemma CostNext(tables: set<Place>, vpn: nat, n: nat)
    ensures Cost(tables, vpn, n + 1) == Cost(tables, vpn, n) + 1 + Missing(Way(tables, vpn, n), PlaceOf(vpn + n))
    ensures Way(tables, vpn, n + 1) == WithWay(Way(tables, vpn, n), PlaceOf(vpn + n))
    ensures Cost(tables, vpn, 0) == 0 && Way(tables, vpn, 0) == tables
  {
  }

  lemma {:induction false} CostGrows(tables: set<Place>, vpn: nat, j: nat, k: nat)
    requires j <= k
    ensures Cost(tables, vpn, j) + (k - j) <= Cost(tables, vpn, k)
    decreases k
  {
    if j < k {
      CostGrows(tables, vpn, j, k - 1);
    }
  }

  lemma {:induction false} WayKeeps(tables: set<Place>, vpn: nat, n: nat)
    ensures tables <= Way(tables, vpn, n)
  {
    hide PlaceOf;
    if n > 0 {
      WayKeeps(tables, vpn, n - 1);
    }
  }

  /** Frames for n pages from 0 on, with a table every 512 pages and one more every 2^18. */
  ghost function Frames(n: nat): nat { n + Ceil(n, 512) + Ceil(n, 0x40000) }

  ghost function Ceil(n: nat, k: nat): nat
    requires k > 0
  {
    (n + k - 1) / k
  }

  /** Tables that page v is the first to need. */
  ghost function NewTables(v: nat): nat {
    (if v / 512 * 512 < v then 0 else 1) + if v / 0x40000 * 0x40000 < v then 0 else 1
  }

  /** Below 255 GiB the tables of the fixed pages are no help. */
  lemma {:induction false} FreshCost(n: nat)
    requires n <= 255 * 0x40000
    ensures Cost(FixedTables(), 0, n) == Frames(n)
  {
    if n > 0 {
      hide Way, PlaceOf, FixedTables, Missing, Frames, NewTables;
      FreshCost(n - 1);
      FreshMissing(n - 1);
      NextTable(n - 1);
    }
  }

  lemma FreshMissing(v: nat)
    requires v < 255 * 0x40000
    ensures Missing(Way(FixedTables(), 0, v), PlaceOf(v)) == NewTables(v)
  {
    hide Way, PlaceOf, FixedTables;
    PlaceParts(v);
    FreshWay(v, PlaceOf(v).a, PlaceOf(v).b);
  }

  lemma PlaceParts(v: nat)
    requires v < 255 * 0x40000
    ensures var q := PlaceOf(v); q.a == v / 0x40000 && q.a < 255 && q.a * 512 + q.b == v / 512
  {
  }

  lemma NextTable(v: nat)
    ensures Frames(v + 1) == Frames(v) + 1 + NewTables(v)
  {
    hide Ceil;
    NextCeil(v);
    NextCeilTop(v);
  }

  lemma NextCeil(v: nat)
    ensures Ceil(v + 1, 512) == Ceil(v, 512) + if v / 512 * 512 < v then 0 else 1
  {
  }

  lemma NextCeilTop(v: nat)
    ensures Ceil(v + 1, 0x40000) == Ceil(v, 0x40000) + if v / 0x40000 * 0x40000 < v then 0 else 1
  {
  }

  lemma {:induction false} FreshWay(n: nat, i: nat, j: nat)
    requires n <= 255 * 0x40000 && j < 512
    ensures Mid(i) in Way(FixedTables(), 0, n) <==> i == 255 || i * 0x40000 < n
    ensures Low(i, j) in Way(FixedTables(), 0, n) <==> (i == 255 && j == 511) || (i * 512 + j) * 512 < n
  {
    if n > 0 {
      FreshWay(n - 1, i, j);
      NewWay(n - 1, i, j);
    }
  }

  lemma NewWay(v: nat, i: nat, j: nat)
    requires v < 255 * 0x40000 && j < 512
    ensures i == PlaceOf(v).a || i * 0x40000 < v <==> i * 0x40000 < v + 1
    ensures (i == PlaceOf(v).a && j == PlaceOf(v).b) || (i * 512 + j) * 512 < v <==> (i * 512 + j) * 512 < v + 1
  {
    hide PlaceOf;
    PlaceParts(v);
  }

  /** uvmcopy: the new space gets a copy of every page of [0, sz), on frames that were
      free, or has exactly the pages it had. */
  method Uvmcopy(m: Machine, src: nat, dst: nat, sz: nat) returns (ok: bool)
    requires Valid(m) && src in m.spaces && dst in m.spaces && src != dst && Pages(sz) <= STACK_VPN
    requires forall v :: 0 <= v < Pages(sz) ==> MappedAs(m.spaces[src].flat, v, true)
    requires Layout(m.spaces[dst].flat, 0, false)
    modifies m
    ensures Valid(m) && KeysSame(m) && Local(dst, old(m.mem), old(m.own), m.mem, m.own)
    ensures dst in m.spaces && m.spaces == old(m.spaces)[dst := m.spaces[dst]]
    ensures !ok ==> m.spaces[dst].flat == old(m.spaces)[dst].flat
    ensures ok <==> Cost(Tables(old(m.spaces)[dst]), 0, Pages(sz)) <= |old(m.free)|
    ensures ok ==>
      && |m.free| + Cost(Tables(old(m.spaces)[dst]), 0, Pages(sz)) == |old(m.free)|
      && Layout(m.spaces[dst].flat, Pages(sz), false)
      && Tables(m.spaces[dst]) == Way(Tables(old(m.spaces)[dst]), 0, Pages(sz))
      && forall v :: 0 <= v < Pages(sz) ==> CopiedPage(m.mem, m.spaces[src].flat, m.spaces[dst].flat, v)
  {
    hide FreeOk, SpacesOk, OwnedOk, Managed, Local, PlaceOf, Layout, MappedAs, CopiedPage, User, UserPagesKept,
      UnmapAll, Tables, Missing,
      WithWay;
    ghost var mem, own, spaces, flat, n := m.mem, m.own, m.spaces, m.spaces[dst].flat, Pages(sz);
    ghost var tables := Tables(spaces[dst]);
    SameKeys(m.first, mem, own);
    LocalSelf(dst, mem, own);
    for i := 0 to Pages(sz)
      invariant Valid(m) && KeysSame(m) && Local(dst, mem, own, m.mem, m.own)
      invariant dst in m.spaces && m.spaces == spaces[dst := m.spaces[dst]]
      invariant Layout(m.spaces[dst].flat, i, false) && Tables(m.spaces[dst]) == Way(tables, 0, i)
      invariant |m.free| + Cost(tables, 0, i) == |old(m.free)|
      invariant forall q :: q in flat ==> q in m.spaces[dst].flat && m.spaces[dst].flat[q] == flat[q]
      invariant forall v :: 0 <= v < i ==> CopiedPage(m.mem, spaces[src].flat, m.spaces[dst].flat, v)
    {
      ghost var mem1, own1, flat1 := m.mem, m.own, m.spaces[dst].flat;
      NextPlace(flat1, i, false);
      AllOwned(m, src, dst, i, n);
      ok := CopyPage(m, src, dst, i);
      CostGrows(tables, 0, i + 1, n);
      LocalTrans(dst, mem, own, mem1, own1, m.mem, m.own);
      ghost var mem2, own2 := m.mem, m.own;
      if !ok {
        BackTo(flat, flat1, 0, i, false);
        if i > 0 {
          LayoutUsers(flat1, i, false);
          Unmap(m, dst, 0, i, true);
          LocalTrans(dst, mem, own, mem2, own2, m.mem, m.own);
        } else {
          UnmapZero(flat1);
        }
        return false;
      }
      LayoutNext(flat1, i, false, m.spaces[dst].flat[PlaceOf(i)]);
      forall v | 0 <= v < i ensures CopiedPage(m.mem, spaces[src].flat, m.spaces[dst].flat, v) {
        assert CopiedPage(mem1, spaces[src].flat, flat1, v);
        SmallerPlace(flat1, i, v, false);
        StillCopied(mem1, own1, m.mem, src, dst, spaces[src].flat, flat1, m.spaces[dst].flat, v);
      }
    }
    ok := true;
  }

  lemma NextPlace(flat: map<Place, Pte>, i: nat, stack: bool)
    requires Layout(flat, i, stack) && i < STACK_VPN
    ensures PlaceOf(i) !in flat
  {
    hide PlaceOf;
    LayoutNext(flat, i, stack, Pte(0, 0x10));
  }

  lemma UnmapZero(flat: map<Place, Pte>)
    ensures UnmapAll(flat, 0, 0) == flat
  {
  }

  /** Frames of the pages copied so far, on both sides. */
  lemma AllOwned(m: Machine, src: nat, dst: nat, i: nat, n: nat)
    requires Valid(m) && src in m.spaces && dst in m.spaces && i <= n <= STACK_VPN
    requires forall v :: 0 <= v < n ==> MappedAs(m.spaces[src].flat, v, true)
    requires Layout(m.spaces[dst].flat, i, false)
    ensures forall v :: 0 <= v < i ==>
      OwnedPage(m.own, m.spaces[src].flat, src, v) && OwnedPage(m.own, m.spaces[dst].flat, dst, v)
  {
    hide PlaceOf, Places;
    forall v | 0 <= v < i
      ensures OwnedPage(m.own, m.spaces[src].flat, src, v) && OwnedPage(m.own, m.spaces[dst].flat, dst, v)
    {
      UserPage(m, src, v);
      UserPage(m, dst, v);
    }
  }

  ghost predicate OwnedPage(own: Owners, flat: map<Place, Pte>, root: nat, v: nat) {
    PlaceOf(v) in flat && flat[PlaceOf(v)].ppn in own && own[flat[PlaceOf(v)].ppn] == Of(root, PlaceOf(v))
  }

  lemma LayoutStack(flat: map<Place, Pte>, n: nat, pte: Pte)
    requires Layout(flat, n, false) && User(pte)
    ensures PlaceOf(STACK_VPN) !in flat && Layout(flat[PlaceOf(STACK_VPN) := pte], n, true)
  {
    hide PlaceOf, User;
    PlacesDiffer();
    ApartFromUser(n);
    var flat' := flat[PlaceOf(STACK_VPN) := pte];
    forall v | 0 <= v < n ensures MappedAs(flat', v, true) {
      assert MappedAs(flat, v, true);
    }
  }

  /** uvmcopy_stack: the stack page with its bytes, mapped for the user to read and
      write, or nothing. */
  method UvmcopyStack(m: Machine, src: nat, dst: nat, ghost n: nat) returns (ok: bool)
    requires Valid(m) && src in m.spaces && dst in m.spaces && src != dst && Layout(m.spaces[dst].flat, n, false)
    modifies m
    ensures Valid(m) && KeysSame(m) && Local(dst, old(m.mem), old(m.own), m.mem, m.own)
    ensures dst in m.spaces && m.spaces == old(m.spaces)[dst := m.spaces[dst]]
    ensures UserPagesKept(old(m.mem), old(m.own), m.mem)
    ensures !ok ==> m.spaces[dst].flat == old(m.spaces)[dst].flat
    ensures ok <==>
      && UserEntry(m.spaces[src], STACK_VPN, 0).Some?
      && 1 + Missing(Tables(old(m.spaces)[dst]), PlaceOf(STACK_VPN)) <= |old(m.free)|
    ensures ok ==>
      var q, a, b := PlaceOf(STACK_VPN), m.spaces[src].flat, m.spaces[dst].flat;
      && |m.free| + 1 + Missing(Tables(old(m.spaces)[dst]), q) == |old(m.free)|
      && Layout(b, n, true) && q in a && q in b && b[q].flags == 0xD7
      && b == old(m.spaces)[dst].flat[q := b[q]]
      && a[q].ppn in m.mem && b[q].ppn in m.mem && m.mem[b[q].ppn] == m.mem[a[q].ppn]
  {
    hide FreeOk, SpacesOk, OwnedOk, Managed, Local, PlaceOf, Layout, V, Leaf, Stamped, Tables, Missing, WithWay;
    var entry := WalkUserPerm(m, src, STACK_VPN, 0);
    if entry.None? {
      SameKeys(m.first, m.mem, m.own);
      LocalSelf(dst, m.mem, m.own);
      return false;
    }
    var pte := entry.value;
    UserPage(m, src, STACK_VPN);
    LayoutStack(m.spaces[dst].flat, n, Pte(0, 0x10));
    ghost var mem, flat := m.mem, m.spaces[dst].flat;
    var r, _ := AddPage(m, dst, STACK_VPN, U | R | W, m.mem[pte.ppn].bytes);
    ok := r.Some?;
    if ok {
      LayoutStack(flat, n, LeafPte(r.value, U | R | W));
      assert m.mem[pte.ppn] == mem[pte.ppn];
    }
  }

  /** Page v is mapped for the user to read and write, and all zero. */
  ghost predicate ZeroPage(mem: Memory, flat: map<Place, Pte>, v: nat) {
    var q := PlaceOf(v);
    q in flat && flat[q].flags == 0xD7 && flat[q].ppn in mem && mem[flat[q].ppn] == Data(Zeros(PGSIZE))
  }

  lemma PagesMonotone(a: nat, b: nat)
    ensures a <= b ==> Pages(a) <= Pages(b)
    ensures b <= a ==> Pages(b) <= Pages(a)
  {
  }

  lemma PagesOwned(m: Machine, root: nat, a: nat, stack: bool)
    requires Valid(m) && root in m.spaces && Layout(m.spaces[root].flat, a, stack)
    ensures forall v :: 0 <= v < a ==> OwnedPage(m.own, m.spaces[root].flat, root, v)
  {
    hide PlaceOf, Places;
    forall v | 0 <= v < a ensures OwnedPage(m.own, m.spaces[root].flat, root, v) {
      UserPage(m, root, v);
    }
  }

  lemma StillZero(mem: Memory, own: Owners, mem': Memory, root: nat, flat: map<Place, Pte>, flat': map<Place, Pte>,
                  v: nat)
    requires ZeroPage(mem, flat, v) && UserPagesKept(mem, own, mem') && OwnedPage(own, flat, root, v)
    requires PlaceOf(v) in flat' && flat'[PlaceOf(v)] == flat[PlaceOf(v)]
    ensures ZeroPage(mem', flat', v)
  {
    hide PlaceOf;
  }

  lemma LayoutUsers(flat: map<Place, Pte>, a: nat, stack: bool)
    requires Layout(flat, a, stack)
    ensures a <= STACK_VPN && forall v :: 0 <= v < a ==> MappedAs(flat, v, true)
  {
  }

  lemma SmallerPlace(flat: map<Place, Pte>, a: nat, v: nat, stack: bool)
    requires Layout(flat, a, stack) && v < a < STACK_VPN
    ensures PlaceOf(v) in flat && PlaceOf(v) != PlaceOf(a)
  {
    hide PlaceOf;
    assert MappedAs(flat, v, true);
    NextPlace(flat, a, stack);
  }

  lemma {:induction false} PlacesSplit(a: nat, k: nat)
    ensures Places(0, a + k) == Places(0, a) + Places(a, k)
  {
    hide PlaceOf;
    if k > 0 {
      PlacesSplit(a, k - 1);
    }
  }

  lemma {:induction false} PlacesDisjoint(a: nat, k: nat)
    requires a + k <= MAXVPN
    ensures Places(0, a) !! Places(a, k)
  {
    hide PlaceOf;
    if k > 0 {
      PlacesDisjoint(a, k - 1);
      NotAmong(0, a, a + k - 1);
    }
  }

  lemma BackTo(flat: map<Place, Pte>, flat': map<Place, Pte>, a0: nat, a: nat, stack: bool)
    requires Layout(flat, a0, stack) && Layout(flat', a, stack) && a0 <= a
    requires forall q :: q in flat ==> q in flat' && flat'[q] == flat[q]
    ensures UnmapAll(flat', a0, a - a0) == flat
  {
    hide PlaceOf, UnmapAll, Places, MappedAs;
    UnmapKeys(flat', a0, a - a0);
    PlacesSplit(a0, a - a0);
    PlacesDisjoint(a0, a - a0);
    NotAmong(a0, a - a0, TRAMPOLINE_VPN);
    NotAmong(a0, a - a0, TRAPFRAME_VPN);
    NotAmong(a0, a - a0, STACK_VPN);
  }

  /** uvmalloc on a space of n pages. On success the space has grown to newsz by zeroed
      pages. When it fails because no page table can be had it takes its pages out again;
      when it fails because no frame is free, the k pages it added stay mapped. A space that
      has more pages than oldsz says cannot grow at all. */
  method Uvmalloc(m: Machine, root: nat, oldsz: nat, newsz: nat, ghost n: nat, ghost stack: bool)
    returns (ok: bool, ghost k: nat)
    requires Valid(m) && root in m.spaces && Layout(m.spaces[root].flat, n, stack)
    requires Pages(oldsz) <= n && Pages(newsz) <= STACK_VPN
    modifies m
    ensures Valid(m) && KeysSame(m) && Local(root, old(m.mem), old(m.own), m.mem, m.own)
    ensures root in m.spaces && m.spaces == old(m.spaces)[root := m.spaces[root]]
    ensures Layout(m.spaces[root].flat, n + k, stack)
    ensures ok ==> Pages(oldsz) + k == if newsz <= oldsz then Pages(oldsz) else Pages(newsz)
    ensures !ok ==> Pages(oldsz) + k < Pages(newsz)
    ensures ok <==>
      || Pages(newsz) <= Pages(oldsz)
      || (n == Pages(oldsz) && Affordable(Tables(old(m.spaces)[root]), oldsz, newsz, |old(m.free)|))
    ensures !ok && k > 0 <==>
      n == Pages(oldsz) && RunsDry(Tables(old(m.spaces)[root]), oldsz, newsz, |old(m.free)|)
    ensures ok && n == Pages(oldsz) && Pages(oldsz) <= Pages(newsz) ==>
      && |m.free| + Cost(Tables(old(m.spaces)[root]), Pages(oldsz), k) == |old(m.free)|
      && Tables(m.spaces[root]) == Way(Tables(old(m.spaces)[root]), Pages(oldsz), k)
    ensures forall q :: q in old(m.spaces)[root].flat ==>
              q in m.spaces[root].flat && m.spaces[root].flat[q] == old(m.spaces)[root].flat[q]
    ensures forall v :: Pages(oldsz) <= v < Pages(oldsz) + k ==> ZeroPage(m.mem, m.spaces[root].flat, v)
    ensures !ok && k == 0 ==> m.spaces[root].flat == old(m.spaces)[root].flat
  {
    hide FreeOk, SpacesOk, OwnedOk, Managed, Local, PlaceOf, Layout, V, Leaf, Stamped, UserPagesKept, UnmapAll, User,
      Tables, Missing, WithWay,
      RunsDry, Affordable, ZeroPage, Cost, Way, Pages;
    ghost var mem, own, spaces, flat := m.mem, m.own, m.spaces, m.spaces[root].flat;
    ghost var tables := Tables(spaces[root]);
    SameKeys(m.first, mem, own);
    LocalSelf(root, mem, own);
    var a0, a1 := Pages(oldsz), Pages(newsz);
    PagesMonotone(oldsz, newsz);
    CostNext(tables, a0, 0);
    var a := a0;
    while a < a1
      invariant a0 <= a && (a <= a1 || a == a0) && Valid(m) && KeysSame(m) && Local(root, mem, own, m.mem, m.own)
      invariant root in m.spaces && m.spaces == spaces[root := m.spaces[root]]
      invariant Layout(m.spaces[root].flat, n + (a - a0), stack) && (n > a0 ==> a == a0)
      invariant forall q :: q in flat ==> q in m.spaces[root].flat && m.spaces[root].flat[q] == flat[q]
      invariant forall v :: a0 <= v < a ==> ZeroPage(m.mem, m.spaces[root].flat, v)
      invariant a == a0 ==> m.spaces[root].flat == flat
      invariant Tables(m.spaces[root]) == Way(tables, a0, a - a0)
      invariant |m.free| + Cost(tables, a0, a - a0) == |old(m.free)|
    {
      ghost var mem1, own1, flat1 := m.mem, m.own, m.spaces[root].flat;
      if n == a0 {
        NextPlace(flat1, a, stack);
      } else {
        LayoutUsers(flat1, n, stack);
        assert MappedAs(flat1, a, true);
      }
      PagesOwned(m, root, n + (a - a0), stack);
      CostNext(tables, a0, a - a0);
      var r, dry := AddPage(m, root, a, U | R | W, Zeros(PGSIZE));
      LocalTrans(root, mem, own, mem1, own1, m.mem, m.own);
      if r.None? {
        if n == a0 {
          DryOrNot(tables, oldsz, newsz, |old(m.free)|, a - a0, dry);
        }
        ghost var mem2, own2, flat2 := m.mem, m.own, m.spaces[root].flat;
        if dry {
          forall v | a0 <= v < a ensures ZeroPage(m.mem, flat2,
            v) { StillZero(mem1, own1, m.mem, root, flat1, flat2, v); }
          return false, a - a0;
        }
        if a > a0 {
          LayoutUsers(flat2, a, stack);
          Unmap(m, root, a0, a - a0, true);
          LocalTrans(root, mem, own, mem2, own2, m.mem, m.own);
          BackTo(flat, flat2, a0, a, stack);
        }
        return false, 0;
      }
      LayoutNext(flat1, a, stack, LeafPte(r.value, U | R | W));
      forall v | a0 <= v < a + 1 ensures ZeroPage(m.mem, m.spaces[root].flat, v) {
        if v < a {
          SmallerPlace(flat1, a, v, stack);
          StillZero(mem1, own1, m.mem, root, flat1, m.spaces[root].flat, v);
        } else {
          ZeroNow(m.mem, m.spaces[root].flat, a, r.value);
        }
      }
      a := a + 1;
    }
    AllPaid(tables, oldsz, newsz, |old(m.free)|, a - a0);
    return true, a - a0;
  }

  lemma ZeroNow(mem: Memory, flat: map<Place, Pte>, v: nat, f: nat)
    requires PlaceOf(v) in flat && flat[PlaceOf(v)] == LeafPte(f, U | R | W) && f in mem
    requires mem[f] == Data(Zeros(PGSIZE))
    ensures ZeroPage(mem, flat, v)
  {
    hide PlaceOf;
  }

  /** There are frames for all the pages and their tables. */
  ghost predicate Affordable(tables: set<Place>, oldsz: nat, newsz: nat, free: nat) {
    Pages(oldsz) < Pages(newsz) && Cost(tables, Pages(oldsz), Pages(newsz) - Pages(oldsz)) <= free
  }

  /** Frames run out exactly after some but not all of the pages: then those stay. */
  ghost predicate RunsDry(tables: set<Place>, oldsz: nat, newsz: nat, free: nat) {
    exists j: nat :: 0 < j < Pages(newsz) - Pages(oldsz) && Cost(tables, Pages(oldsz), j) == free
  }

  lemma DryOrNot(tables: set<Place>, oldsz: nat, newsz: nat, free: nat, j: nat, dry: bool)
    requires j < Pages(newsz) - Pages(oldsz)
    requires if dry then Cost(tables, Pages(oldsz), j) == free
             else Cost(tables, Pages(oldsz), j) < free < Cost(tables, Pages(oldsz), j + 1)
    ensures !Affordable(tables, oldsz, newsz, free) && (RunsDry(tables, oldsz, newsz, free) <==> dry && j > 0)
  {
    hide Pages, Cost;
    var a, n := Pages(oldsz), Pages(newsz) - Pages(oldsz);
    CostGrows(tables, a, j, n);
    CostGrows(tables, a, j + 1, n);
    forall i: nat | 0 < i < n && Cost(tables, a, i) == free ensures dry && i == j {
      NoOther(tables, a, j, i, free, dry);
    }
  }

  lemma NoOther(tables: set<Place>, a: nat, j: nat, i: nat, free: nat, dry: bool)
    requires if dry then Cost(tables, a, j) == free else Cost(tables, a, j) < free < Cost(tables, a, j + 1)
    requires Cost(tables, a, i) == free
    ensures dry && i == j
  {
    hide Cost;
    if i <= j {
      CostGrows(tables, a, i, j);
    } else {
      CostGrows(tables, a, j + 1, i);
      CostGrows(tables, a, j, i);
    }
  }

  lemma AllPaid(tables: set<Place>, oldsz: nat, newsz: nat, free: nat, n: nat)
    requires n == (if Pages(newsz) <= Pages(oldsz) then 0 else Pages(newsz) - Pages(oldsz))
    requires Cost(tables, Pages(oldsz), n) <= free
    ensures Pages(newsz) <= Pages(oldsz) || Affordable(tables, oldsz, newsz, free)
    ensures !RunsDry(tables, oldsz, newsz, free)
  {
    hide Pages;
    forall i: nat | 0 < i < n ensures Cost(tables, Pages(oldsz), i) < free {
      CostGrows(tables, Pages(oldsz), i, n);
    }
  }

  /** A process of one page with one frame left: growing by two pages fails and leaves one
      of them mapped. */
  lemma DryExample()
    ensures RunsDry(FixedTables() + {Mid(0), Low(0, 0)}, PGSIZE, 3 * PGSIZE, 1)
  {
    var tables := FixedTables() + {Mid(0), Low(0, 0)};
    assert PlaceOf(1) == At(0, 0, 1);
    assert Way(tables, 1, 0) == tables;
    assert Cost(tables, 1, 1) == Cost(tables, 1, 0) + 1 + Missing(tables, PlaceOf(1)) == 1;
    assert Pages(PGSIZE) == 1 && Pages(3 * PGSIZE) == 3;
  }
}
