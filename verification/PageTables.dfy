/** Page tables: three levels of tables in memory that stay equal to a flat map from
    pages to entries, with every table and user page owned by one address space. */
module PageTables {
  import opened Prelude
  import opened FsLayout
  import opened Sv39
  import opened PhysPages

  /** The entry that leads to q: a table that exists, or a leaf of the flat map. A user
      page is owned by the address space; other leaves map pages it does not own. */
  ghost predicate EntryOk(pte: Pte, sp: Space, q: Place) {
    if !q.At? then (V(pte) <==> q in sp.at) && (q in sp.at ==> !Leaf(pte) && pte.ppn == sp.at[q])
    else
      && (V(pte) <==> q in sp.flat) && (q in sp.flat ==> Leaf(pte) && Stamped(pte) && sp.flat[q] == pte)
      && (q in sp.at <==> V(pte) && User(pte)) && (q in sp.at ==> pte.ppn == sp.at[q])
  }

  ghost predicate EntriesOk(ptes: seq<Pte>, sp: Space, p: Place)
    requires !p.At?
  {
    |ptes| == NPTE && forall i :: 0 <= i < NPTE ==> EntryOk(ptes[i], sp, Sub(p, i))
  }

  ghost predicate NodeOk(mem: Memory, own: Owners, root: nat, sp: Space, p: Place)
    requires p in sp.at
  {
    var f := sp.at[p];
    && f in mem && f in own && own[f] == Of(root, p)
    && (!p.Top? ==> Super(p) in sp.at && IndexIn(p) < NPTE)
    && if p.At? then mem[f].Data? && |mem[f].bytes| == PGSIZE else mem[f].Table? && EntriesOk(mem[f].ptes, sp, p)
  }

  ghost predicate SpaceOk(mem: Memory, own: Owners, root: nat, sp: Space) {
    && Top in sp.at && sp.at[Top] == root
    && (forall p :: p in sp.at ==> NodeOk(mem, own, root, sp, p))
    && (forall q :: q in sp.flat ==> q.At? && Super(q) in sp.at && IndexIn(q) < NPTE)
  }

  ghost predicate SpacesOk(mem: Memory, own: Owners, spaces: map<nat, Space>) {
    forall r :: r in spaces ==> SpaceOk(mem, own, r, spaces[r])
  }

  /** Whatever a frame is owned for is there. */
  ghost predicate OwnedOk(own: Owners, spaces: map<nat, Space>) {
    forall f :: f in own && own[f].Of? ==> OwnerOk(f, own[f], spaces)
  }

  ghost predicate OwnerOk(f: nat, o: Owner, spaces: map<nat, Space>) {
    o.Of? ==> o.root in spaces && o.place in spaces[o.root].at && spaces[o.root].at[o.place] == f
  }

  ghost predicate Valid(m: Machine)
    reads m
  {
    m.Pool() && SpacesOk(m.mem, m.own, m.spaces) && OwnedOk(m.own, m.spaces)
  }

  // ---- Single changes of one address space --------------------------------------------

  lemma SpaceKept(mem: Memory, own: Owners, mem': Memory, own': Owners, root: nat, sp: Space)
    requires SpaceOk(mem, own, root, sp)
    requires forall f :: f in mem && f in own && own[f].Of? && own[f].root == root ==>
      f in mem' && f in own' && mem'[f] == mem[f] && own'[f] == own[f]
    ensures SpaceOk(mem', own', root, sp)
  {
    hide EntriesOk;
    forall p | p in sp.at ensures NodeOk(mem', own', root, sp, p) {
      assert NodeOk(mem, own, root, sp, p);
    }
  }

  /** Two places of one address space never share a frame. */
  lemma PlacesApart(mem: Memory, own: Owners, root: nat, sp: Space, p: Place, q: Place)
    requires SpaceOk(mem, own, root, sp) && p in sp.at && q in sp.at && sp.at[p] == sp.at[q]
    ensures p == q
  {
    assert NodeOk(mem, own, root, sp, p) && NodeOk(mem, own, root, sp, q);
  }

  /** Nothing hangs below a place that is not there. */
  lemma NothingBelow(mem: Memory, own: Owners, root: nat, sp: Space, q: Place, i: nat)
    requires SpaceOk(mem, own, root, sp) && Depth(q) < 3 && q !in sp.at
    ensures Sub(q, i) !in sp.at && Sub(q, i) !in sp.flat
  {
    assert Sub(q, i) in sp.at ==> NodeOk(mem, own, root, sp, Sub(q, i));
  }

  ghost predicate DiffersAt<T>(a: map<Place, T>, b: map<Place, T>, q: Place) {
    forall p :: p != q ==> (p in b <==> p in a) && (p in a ==> b[p] == a[p])
  }

  /** An entry that does not lead to q stays right when only q changes. */
  lemma EntrySame(pte: Pte, sp: Space, sp': Space, p: Place, q: Place)
    requires EntryOk(pte, sp, p) && p != q && DiffersAt(sp.at, sp'.at, q) && DiffersAt(sp.flat, sp'.flat, q)
    ensures EntryOk(pte, sp', p)
  {
    hide V, Leaf, User, Stamped;
  }

  lemma EntriesSame(ptes: seq<Pte>, sp: Space, sp': Space, p: Place, q: Place)
    requires !p.At? && EntriesOk(ptes, sp, p) && !q.Top? && Super(q) != p
    requires DiffersAt(sp.at, sp'.at, q) && DiffersAt(sp.flat, sp'.flat, q)
    ensures EntriesOk(ptes, sp', p)
  {
    hide EntryOk, DiffersAt;
    forall i | 0 <= i < NPTE ensures EntryOk(ptes[i], sp', Sub(p, i)) {
      EntrySame(ptes[i], sp, sp', Sub(p, i), q);
    }
  }

  lemma EntriesSet(ptes: seq<Pte>, sp: Space, sp': Space, p: Place, i: nat, pte: Pte)
    requires !p.At? && EntriesOk(ptes, sp, p) && i < NPTE && EntryOk(pte, sp', Sub(p, i))
    requires DiffersAt(sp.at, sp'.at, Sub(p, i)) && DiffersAt(sp.flat, sp'.flat, Sub(p, i))
    ensures EntriesOk(ptes[i := pte], sp', p)
  {
    hide EntryOk, DiffersAt;
    forall j | 0 <= j < NPTE ensures EntryOk(ptes[i := pte][j], sp', Sub(p, j)) {
      if j != i {
        EntrySame(ptes[j], sp, sp', Sub(p, j), Sub(p, i));
      }
    }
  }

  function PtesAt(mem: Memory, f: nat): seq<Pte> { if f in mem && mem[f].Table? then mem[f].ptes else [] }

  /** What q may be in the new state: gone, a user page, or a table without entries. */
  ghost predicate Fresh(mem: Memory, own: Owners, root: nat, sp: Space, q: Place) {
    q in sp.at ==>
      var f := sp.at[q];
      && f in mem && f in own && own[f] == Of(root, q)
      && if q.At? then mem[f].Data? && |mem[f].bytes| == PGSIZE else mem[f] == Table(ZeroTable())
  }

  /** Changing one entry, and what it leads to, keeps the tables equal to the flat map. */
  lemma ChangeEntry(mem: Memory, own: Owners, mem': Memory, own': Owners, root: nat, sp: Space, sp': Space, q: Place,
                    pte: Pte)
    requires SpaceOk(mem, own, root, sp) && !q.Top? && Super(q) in sp.at && IndexIn(q) < NPTE && (q.At? || q !in sp.at)
    requires DiffersAt(sp.at, sp'.at, q) && DiffersAt(sp.flat, sp'.flat, q) && (q in sp'.flat ==> q.At?)
    requires EntryOk(pte, sp', q) && Fresh(mem', own', root, sp', q)
    requires var g := sp.at[Super(q)];
             && g in own && g in own' && own'[g] == own[g]
             && g in mem' && IndexIn(q) < |PtesAt(mem, g)| && mem'[g] == Table(PtesAt(mem, g)[IndexIn(q) := pte])
    requires forall f ::
      f in mem && f in own && own[f].Of? && own[f].root == root && own[f].place != q && own[f].place != Super(q) ==>
      f in mem' && f in own' && mem'[f] == mem[f] && own'[f] == own[f]
    ensures SpaceOk(mem', own', root, sp')
  {
    hide EntriesOk, EntryOk;
    SubSuper(q);
    forall p | p in sp'.at ensures NodeOk(mem', own', root, sp', p) {
      if p == q {
        if !q.At? {
          assert EntriesOk(ZeroTable(), sp', q) by { NewTableOk(mem, own, root, sp, sp', q); }
        }
      } else {
        assert NodeOk(mem, own, root, sp, p);
        if p == Super(q) {
          EntriesSet(PtesAt(mem, sp.at[p]), sp, sp', p, IndexIn(q), pte);
        } else if !p.At? {
          EntriesSame(PtesAt(mem, sp.at[p]), sp, sp', p, q);
        }
      }
    }
    assert NodeOk(mem, own, root, sp, Top);
  }

  lemma NewTableOk(mem: Memory, own: Owners, root: nat, sp: Space, sp': Space, q: Place)
    requires SpaceOk(mem, own, root, sp) && Depth(q) < 3 && q !in sp.at
    requires DiffersAt(sp.at, sp'.at, q) && DiffersAt(sp.flat, sp'.flat, q)
    ensures EntriesOk(ZeroTable(), sp', q)
  {
    hide SpaceOk;
    forall i | 0 <= i < NPTE ensures EntryOk(ZeroTable()[i], sp', Sub(q, i)) {
      NothingBelow(mem, own, root, sp, q, i);
      assert Sub(q, i) != q;
    }
  }

  lemma OthersOk(mem: Memory, own: Owners, mem': Memory, own': Owners, spaces: map<nat, Space>, root: nat, sp': Space)
    requires SpacesOk(mem, own, spaces) && SpaceOk(mem', own', root, sp')
    requires forall f :: f in mem && f in own && own[f].Of? && own[f].root != root ==>
      f in mem' && f in own' && mem'[f] == mem[f] && own'[f] == own[f]
    ensures SpacesOk(mem', own', spaces[root := sp'])
  {
    hide SpaceOk;
    forall r | r in spaces && r != root ensures SpaceOk(mem', own', r, spaces[r]) {
      SpaceKept(mem, own, mem', own', r, spaces[r]);
    }
  }

  /** Only frame x changed hands, for or from place q of root. */
  lemma OwnedAfter(own: Owners, own': Owners, spaces: map<nat, Space>, root: nat, sp': Space, q: Place, x: nat)
    requires OwnedOk(own, spaces) && root in spaces && DiffersAt(spaces[root].at, sp'.at, q)
    requires forall f :: f in own' && f != x ==> f in own && own'[f] == own[f] && own[f] != Of(root, q)
    requires x in own' && own'[x].Of? ==> own'[x] == Of(root, q) && q in sp'.at && sp'.at[q] == x
    ensures OwnedOk(own', spaces[root := sp'])
  {
    forall f | f in own' && own'[f].Of? ensures OwnerOk(f, own'[f], spaces[root := sp']) {
      if f != x { assert OwnerOk(f, own[f], spaces); }
    }
  }

  /** The owner of a place is its frame only. */
  lemma OwnedBy(own: Owners, spaces: map<nat, Space>, root: nat, q: Place, f: nat)
    requires OwnedOk(own, spaces) && f in own && own[f] == Of(root, q)
    ensures root in spaces && q in spaces[root].at && spaces[root].at[q] == f
  {
    assert OwnerOk(f, own[f], spaces);
  }

  /** What a table of a sound address space looks like. */
  lemma TableAt(mem: Memory, own: Owners, root: nat, sp: Space, p: Place)
    requires SpaceOk(mem, own, root, sp) && p in sp.at && !p.At?
    ensures sp.at[p] in mem && mem[sp.at[p]].Table? && |mem[sp.at[p]].ptes| == NPTE
    ensures EntriesOk(mem[sp.at[p]].ptes, sp, p)
    ensures sp.at[p] in own && own[sp.at[p]] == Of(root, p)
  {
    hide EntryOk;
    assert NodeOk(mem, own, root, sp, p);
  }

  lemma FlatPages(mem: Memory, own: Owners, root: nat, sp: Space, q: Place)
    requires SpaceOk(mem, own, root, sp) && q in sp.flat
    ensures q.At? && Super(q) in sp.at && IndexIn(q) < NPTE
  {
  }

  // ---- walk -----------------------------------------------------------------------------

  /** Tables were added to one address space and its translations are the same. */
  ghost predicate Grown(root: nat, mem: Memory, own: Owners, spaces: map<nat, Space>,
                        mem': Memory, own': Owners, spaces': map<nat, Space>) {
    && root in spaces && root in spaces' && spaces' == spaces[root := spaces'[root]]
    && spaces'[root].flat == spaces[root].flat && MoreTables(spaces[root].at, spaces'[root].at)
    && own'.Keys == own.Keys
    && (forall f :: f in own ==> own'[f] == own[f] || (own[f] == Free && TableOf(own'[f], root)))
    && (forall f :: f in mem && f in own && own[f] != Free && !TableOf(own[f], root) ==> f in mem' && mem'[f] == mem[f])
  }

  ghost predicate TableOf(o: Owner, root: nat) { o.Of? && o.root == root && !o.place.At? }

  ghost predicate MoreTables(at: map<Place, nat>, at': map<Place, nat>) {
    && (forall p :: p in at ==> p in at' && at'[p] == at[p])
    && (forall p :: p in at' && p !in at ==> !p.At?)
  }

  lemma GrownTrans(root: nat, mem: Memory, own: Owners, spaces: map<nat, Space>, mem1: Memory, own1: Owners,
                   spaces1: map<nat, Space>,
                   mem2: Memory, own2: Owners, spaces2: map<nat, Space>)
    requires Grown(root, mem, own, spaces, mem1, own1, spaces1) && Grown(root, mem1, own1, spaces1, mem2, own2, spaces2)
    ensures Grown(root, mem, own, spaces, mem2, own2, spaces2)
  {
  }

  ghost function WithTable(mem: Memory, pt: nat, idx: nat, f: nat): Memory
    requires idx < |PtesAt(mem, pt)|
  {
    mem[f := Table(ZeroTable())][pt := Table(PtesAt(mem, pt)[idx := TablePte(f)])]
  }

  lemma TableAdded(mem: Memory, own: Owners, spaces: map<nat, Space>, root: nat, p: Place, idx: nat, f: nat)
    requires SpacesOk(mem, own, spaces) && OwnedOk(own, spaces) && root in spaces && Depth(p) < 2
    requires p in spaces[root].at
    requires idx < NPTE && Sub(p, idx) !in spaces[root].at && f in mem && f in own && own[f] == Free
    ensures var sp, q, pt := spaces[root], Sub(p, idx), spaces[root].at[p];
            var sp', own' := Space(sp.at[q := f], sp.flat), own[f := Of(root, q)];
            && pt in own && own[pt] == Of(root, p) && pt in mem && mem[pt].Table? && |mem[pt].ptes| == NPTE
            && var mem' := WithTable(mem, pt, idx, f);
               && SpacesOk(mem', own', spaces[root := sp']) && OwnedOk(own', spaces[root := sp'])
               && Grown(root, mem, own, spaces, mem', own', spaces[root := sp'])
  {
    hide SpaceOk, EntriesOk, ZeroTable;
    var sp, q, pt := spaces[root], Sub(p, idx), spaces[root].at[p];
    assert SpaceOk(mem, own, root, sp);
    TableAt(mem, own, root, sp, p);
    var sp', own', mem' := Space(sp.at[q := f], sp.flat), own[f := Of(root, q)], WithTable(mem, pt, idx, f);
    if q in sp.flat { FlatPages(mem, own, root, sp, q); }
    ChangeEntry(mem, own, mem', own', root, sp, sp', q, TablePte(f));
    OthersOk(mem, own, mem', own', spaces, root, sp');
    OwnedAfterNew(own, own', spaces, root, sp', q, f);
  }

  /** A fresh table below the table pt at p. */
  method NewTableAt(m: Machine, pt: nat, idx: nat, ghost root: nat, ghost p: Place) returns (r: Option<nat>)
    requires Valid(m) && root in m.spaces && Depth(p) < 2 && p in m.spaces[root].at && m.spaces[root].at[p] == pt
    requires idx < NPTE && Sub(p, idx) !in m.spaces[root].at
    modifies m
    ensures Valid(m) && (r.None? <==> old(m.free) == [])
    ensures Grown(root, old(m.mem), old(m.own), old(m.spaces), m.mem, m.own, m.spaces)
    ensures r.None? ==> m.free == [] && m.spaces == old(m.spaces)
    ensures r.Some? ==>
      |m.free| + 1 == |old(m.free)| && m.spaces[root].at == old(m.spaces)[root].at[Sub(p, idx) := r.value]
  {
    hide SpacesOk, OwnedOk, EntriesOk, Zeros, ZeroTable, Grown, FreeOk, Managed, TablePte, WithTable;
    ghost var mem, own, spaces, sp := m.mem, m.own, m.spaces, m.spaces[root];
    GrownSelf(root, mem, own, spaces);
    SameKeys(m.first, mem, own);
    r := m.KallocZeroed();
    if r.None? {
      return;
    }
    var f := r.value;
    TableAdded(mem, own, spaces, root, p, idx, f);
    ghost var mem1, own1 := m.mem, m.own;
    m.mem := m.mem[f := Table(ZeroTable())];
    m.mem := m.mem[pt := Table(m.mem[pt].ptes[idx := TablePte(f)])];
    m.own := m.own[f := Of(root, Sub(p, idx))];
    m.spaces := m.spaces[root := Space(sp.at[Sub(p, idx) := f], sp.flat)];
    assert m.mem == WithTable(mem, pt, idx, f) by { WithTableIs(mem, pt, idx, f); }
    assert m.own == own[f := Of(root, Sub(p, idx))];
    FreeKept(mem1, m.mem, m.head, m.free, own1, m.own);
    ManagedSame(m.first, mem1, own1, m.mem, m.own);
  }

  lemma WithTableIs(mem: Memory, pt: nat, idx: nat, f: nat)
    requires pt in mem && mem[pt].Table? && idx < |mem[pt].ptes| && f != pt
    ensures WithTable(mem, pt, idx, f) == mem[f := Table(ZeroTable())][pt := Table(mem[pt].ptes[idx := TablePte(f)])]
  {
  }

  lemma GrownSelf(root: nat, mem: Memory, own: Owners, spaces: map<nat, Space>)
    requires root in spaces
    ensures Grown(root, mem, own, spaces, mem, own, spaces)
  {
  }

  lemma OwnedAfterNew(own: Owners, own': Owners, spaces: map<nat, Space>, root: nat, sp': Space, q: Place, x: nat)
    requires OwnedOk(own, spaces) && root in spaces && q !in spaces[root].at && sp'.at == spaces[root].at[q := x]
    requires own' == own[x := Of(root, q)]
    ensures OwnedOk(own', spaces[root := sp'])
  {
    forall f | f in own && own[f] == Of(root, q) ensures false {
      OwnedBy(own, spaces, root, q, f);
    }
    OwnedAfter(own, own', spaces, root, sp', q, x);
  }

  /** The table the walk for a page has reached when it stands at a level. */
  function StopAt(q: Place, level: nat): Place
    requires q.At? && level <= 2
  {
    if level == 2 then Top else if level == 1 then Mid(q.a) else Low(q.a, q.b)
  }

  function IndexAt(q: Place, level: nat): nat
    requires q.At? && level <= 2
  {
    if level == 2 then q.a else if level == 1 then q.b else q.c
  }

  lemma EntryAt(m: Machine, root: nat, p: Place, i: nat)
    requires Valid(m) && root in m.spaces && p in m.spaces[root].at && !p.At? && i < NPTE
    ensures var f := m.spaces[root].at[p];
            f in m.mem && m.mem[f].Table? && |m.mem[f].ptes| == NPTE &&
              EntryOk(m.mem[f].ptes[i], m.spaces[root], Sub(p, i))
  {
    assert SpaceOk(m.mem, m.own, root, m.spaces[root]);
    TableAt(m.mem, m.own, root, m.spaces[root], p);
  }

  // ---- How many tables a page needs ------------------------------------------------------

  /** The tables of an address space. */
  ghost function Tables(sp: Space): set<Place> { set p | p in sp.at && !p.At? }

  /** Tables on the way to a page that are not there yet. */
  ghost function Missing(tables: set<Place>, q: Place): nat
    requires q.At?
  {
    (if Mid(q.a) in tables then 0 else 1) + if Low(q.a, q.b) in tables then 0 else 1
  }

  ghost function WithWay(tables: set<Place>, q: Place): set<Place>
    requires q.At?
  {
    tables + {Mid(q.a), Low(q.a, q.b)}
  }

  /** What the walk has to make: the tables now are those there were, plus some on the
      way, and every table made cost one frame. */
  ghost predicate Paid(before: set<Place>, now: set<Place>, q: Place, free: int, free': int)
    requires q.At?
  {
    before <= now <= WithWay(before, q) && free' + Missing(before, q) == free + Missing(now, q)
  }

  lemma PaidMore(before: set<Place>, sp: Space, sp': Space, q: Place, level: nat, f: nat, free: int, free': int)
    requires q.At? && 1 <= level <= 2 && Paid(before, Tables(sp), q, free, free')
    requires StopAt(q, level - 1) !in sp.at && sp'.at == sp.at[StopAt(q, level - 1) := f]
    ensures Paid(before, Tables(sp'), q, free, free' - 1)
  {
    assert Tables(sp') == Tables(sp) + {StopAt(q, level - 1)};
  }

  lemma PaidAll(m: Machine, root: nat, before: set<Place>, q: Place, free: int, free': int)
    requires Valid(m) && root in m.spaces && q.At? && Super(q) in m.spaces[root].at
    requires Paid(before, Tables(m.spaces[root]), q, free, free')
    ensures Tables(m.spaces[root]) == WithWay(before, q) && free' + Missing(before, q) == free
  {
    if Mid(q.a) !in m.spaces[root].at { NoLow(m, root, q); }
    assert Low(q.a, q.b) in Tables(m.spaces[root]) && Mid(q.a) in Tables(m.spaces[root]);
  }

  lemma PaidShort(sp: Space, before: set<Place>, q: Place, level: nat, free: int)
    requires q.At? && 1 <= level <= 2 && StopAt(q, level - 1) !in sp.at && Paid(before, Tables(sp), q, free, 0)
    ensures free < Missing(before, q)
  {
    assert StopAt(q, level - 1) !in Tables(sp);
  }

  /** walk finds the entry of a page: in the low table of its place, if that exists or
      can be made. Tables it makes change no translation. */
  method Walk(m: Machine, root: nat, vpn: nat, alloc: bool) returns (r: Option<(nat, nat)>)
    requires Valid(m) && root in m.spaces
    modifies m
    ensures Valid(m) && Grown(root, old(m.mem), old(m.own), old(m.spaces), m.mem, m.own, m.spaces)
    ensures alloc ==>
      var q, tables := PlaceOf(vpn), Tables(old(m.spaces)[root]);
      if r.None? then m.free == [] && |old(m.free)| < Missing(tables, q)
      else |m.free| + Missing(tables, q) == |old(m.free)| && Tables(m.spaces[root]) == WithWay(tables, q)
    ensures var q := PlaceOf(vpn);
            && (r.Some? ==> Super(q) in m.spaces[root].at && r.value == (m.spaces[root].at[Super(q)], IndexIn(q)))
            && (r.None? ==> if alloc then m.free == [] else Super(q) !in m.spaces[root].at)
            && (!alloc ==>
                  && m.mem == old(m.mem) && m.own == old(m.own) && m.spaces == old(m.spaces)
                  && m.free == old(m.free) && m.head == old(m.head))
  {
    hide SpacesOk, OwnedOk, EntriesOk, Grown, FreeOk, Managed, V, Leaf, User, Tables, Missing, WithWay, Paid;
    var q := PlaceOf(vpn);
    var pt, level := root, 2;
    ghost var mem, own, spaces := m.mem, m.own, m.spaces;
    ghost var tables, count := Tables(spaces[root]), |m.free|;
    PaidNothing(tables, q, count);
    GrownSelf(root, mem, own, spaces);
    TopAt(m, root);
    while level > 0
      invariant 0 <= level <= 2 && Valid(m) && Grown(root, mem, own, spaces, m.mem, m.own, m.spaces)
      invariant root in m.spaces && StopAt(q, level) in m.spaces[root].at && m.spaces[root].at[StopAt(q, level)] == pt
      invariant Paid(tables, Tables(m.spaces[root]), q, count, |m.free|)
      invariant !alloc ==>
        m.mem == mem && m.own == own && m.spaces == spaces && m.free == old(m.free) && m.head == old(m.head)
    {
      var idx := IndexAt(q, level);
      ghost var p, sp := StopAt(q, level), m.spaces[root];
      assert Sub(p, idx) == StopAt(q, level - 1);
      EntryAt(m, root, p, idx);
      var pte := m.mem[pt].ptes[idx];
      if Leaf(pte) || (!V(pte) && !alloc) {
        NoLeafAbove(pte, sp, Sub(p, idx));
        if level == 2 { NoLow(m, root, q); }
        return None;
      }
      if V(pte) {
        pt := pte.ppn;
      } else {
        ghost var mem1, own1, spaces1 := m.mem, m.own, m.spaces;
        ghost var free1 := |m.free|;
        var f := NewTableAt(m, pt, idx, root, p);
        GrownTrans(root, mem, own, spaces, mem1, own1, spaces1, m.mem, m.own, m.spaces);
        if f.None? {
          PaidShort(sp, tables, q, level, count);
          return None;
        }
        PaidMore(tables, sp, m.spaces[root], q, level, f.value, count, free1);
        pt := f.value;
      }
      level := level - 1;
    }
    PaidAll(m, root, tables, q, count, |m.free|);
    return Some((pt, IndexAt(q, 0)));
  }

  lemma PaidNothing(tables: set<Place>, q: Place, free: int)
    requires q.At?
    ensures Paid(tables, tables, q, free, free)
  {
  }

  lemma TopAt(m: Machine, root: nat)
    requires Valid(m) && root in m.spaces
    ensures Top in m.spaces[root].at && m.spaces[root].at[Top] == root
  {
    assert SpaceOk(m.mem, m.own, root, m.spaces[root]);
  }

  /** Above the lowest level no entry is a leaf. */
  lemma NoLeafAbove(pte: Pte, sp: Space, q: Place)
    requires EntryOk(pte, sp, q) && !q.At?
    ensures !Leaf(pte) && (q in sp.at <==> V(pte))
  {
  }

  lemma NoLow(m: Machine, root: nat, q: Place)
    requires Valid(m) && root in m.spaces && q.At? && Mid(q.a) !in m.spaces[root].at
    ensures Low(q.a, q.b) !in m.spaces[root].at
  {
    assert SpaceOk(m.mem, m.own, root, m.spaces[root]);
    NothingBelow(m.mem, m.own, root, m.spaces[root], Mid(q.a), q.b);
  }

  /** In a sound address space the flat map says which user pages it owns. */
  lemma FlatOwns(mem: Memory, own: Owners, root: nat, sp: Space, q: Place)
    requires SpaceOk(mem, own, root, sp) && q.At?
    ensures q in sp.at <==> q in sp.flat && User(sp.flat[q])
    ensures q in sp.flat ==> Leaf(sp.flat[q]) && Stamped(sp.flat[q])
    ensures q in sp.at ==> sp.at[q] == sp.flat[q].ppn && NodeOk(mem, own, root, sp, q)
  {
    if q in sp.at {
      assert NodeOk(mem, own, root, sp, q);
    }
    if q in sp.at || q in sp.flat {
      TableAt(mem, own, root, sp, Super(q));
      SubSuper(q);
      assert EntryOk(mem[sp.at[Super(q)]].ptes[IndexIn(q)], sp, q);
    }
  }

  const MAXVPN := 0x400_0000

  /** The tests walk_user_perm makes on the entry it finds. */
  predicate Passes(pte: Pte, perm: bv10) { V(pte) && User(pte) && pte.flags & perm == perm && Leaf(pte) }

  lemma PassesIs(sp: Space, vpn: nat, pte: Pte, perm: bv10)
    requires vpn < MAXVPN && PlaceOf(vpn).At? && EntryOk(pte, sp, PlaceOf(vpn))
    ensures Passes(pte, perm) <==> UserEntry(sp, vpn, perm).Some?
    ensures Passes(pte, perm) ==> UserEntry(sp, vpn, perm) == Some(pte)
  {
    hide PlaceOf;
  }

  /** walk_user_perm looks the page up in the flat map. */
  method WalkUserPerm(m: Machine, root: nat, vpn: nat, perm: bv10) returns (r: Option<Pte>)
    requires Valid(m) && root in m.spaces
    modifies m
    ensures Valid(m) && m.mem == old(m.mem) && m.own == old(m.own) && m.spaces == old(m.spaces)
    ensures m.free == old(m.free) && m.head == old(m.head)
    ensures r.Some? <==> Grants(m.spaces[root].flat, vpn, perm)
    ensures r.Some? ==> r.value == m.spaces[root].flat[PlaceOf(vpn)]
    ensures r == UserEntry(m.spaces[root], vpn, perm)
  {
    hide SpacesOk, OwnedOk, EntriesOk, EntryOk, Grown, FreeOk, Managed, Grants, Passes, Permits;
    EntryGrants(m.spaces[root], vpn, perm);
    if vpn >= MAXVPN {
      return None;
    }
    ghost var q, sp := PlaceOf(vpn), m.spaces[root];
    if q in sp.flat { FlatAt(m, root, q); }
    var slot := Walk(m, root, vpn, false);
    if slot.None? {
      return None;
    }
    EntryAt(m, root, Super(q), IndexIn(q));
    SubSuper(q);
    var pte := m.mem[slot.value.0].ptes[slot.value.1];
    PassesIs(sp, vpn, pte, perm);
    return if Passes(pte, perm) then Some(pte) else None;
  }

  /** The page is below MAXVA, mapped, for the user (bit 4 of the flags), and its flags have every
      bit of `perm`. */
  ghost predicate Grants(flat: map<Place, Pte>, vpn: nat, perm: bv10) {
    && vpn < 0x400_0000 && PlaceOf(vpn) in flat
    && flat[PlaceOf(vpn)].flags & 0x10 == 0x10 && flat[PlaceOf(vpn)].flags & perm == perm
  }

  lemma EntryGrants(sp: Space, vpn: nat, perm: bv10)
    ensures UserEntry(sp, vpn, perm).Some? <==> Grants(sp.flat, vpn, perm)
    ensures Grants(sp.flat, vpn, perm) ==> UserEntry(sp, vpn, perm).value == sp.flat[PlaceOf(vpn)]
  {
    hide PlaceOf;
  }

  /** The entry of a user page below MAXVA that permits `perm`. */
  ghost function UserEntry(sp: Space, vpn: nat, perm: bv10): Option<Pte> {
    var q := PlaceOf(vpn);
    if vpn < MAXVPN && q in sp.flat && Permits(sp.flat[q].flags, perm) then Some(sp.flat[q]) else None
  }

  /** Flags of a user page that grant all of `perm`. */
  predicate Permits(flags: bv10, perm: bv10) { flags & 0x10 != 0 && flags & perm == perm }

  lemma FlatAt(m: Machine, root: nat, q: Place)
    requires Valid(m) && root in m.spaces && q in m.spaces[root].flat
    ensures q.At? && Super(q) in m.spaces[root].at && IndexIn(q) < NPTE
  {
    assert SpaceOk(m.mem, m.own, root, m.spaces[root]);
  }

  // ---- mappages ---------------------------------------------------------------------------

  /** The flat map with k consecutive pages inserted. */
  ghost function MapAll(flat: map<Place, Pte>, vpn: nat, f: nat, flags: bv10, k: nat): map<Place, Pte> {
    if k == 0 then flat else MapAll(flat, vpn, f, flags, k - 1)[PlaceOf(vpn + k - 1) := LeafPte(f + k - 1, flags)]
  }

  /** Page vpn + i maps frame f + i, and pages outside vpn .. vpn + k are as they were. */
  lemma {:induction false} MapAllAt(flat: map<Place, Pte>, vpn: nat, f: nat, flags: bv10, k: nat, v: nat)
    requires vpn + k <= 0x800_0000 && v < 0x800_0000
    ensures var flat', q := MapAll(flat, vpn, f, flags, k), PlaceOf(v);
            if vpn <= v < vpn + k then q in flat' && flat'[q] == LeafPte(f + (v - vpn), flags)
            else (q in flat' <==> q in flat) && (q in flat ==> flat'[q] == flat[q])
  {
    hide PlaceOf;
    if k > 0 {
      MapAllAt(flat, vpn, f, flags, k - 1, v);
      if PlaceOf(v) == PlaceOf(vpn + k - 1) {
        PlaceInjective(v, vpn + k - 1);
      }
    }
  }

  /** Frames f.. of user pages, k of them, moved into the address space. */
  ghost predicate MovedIn(o: Owner, o': Owner, g: nat, root: nat, vpn: nat, f: nat, flags: bv10, k: nat) {
    flags & 0x10 != 0 && f <= g < f + k && o == Loose && o' == Of(root, PlaceOf(vpn + (g - f)))
  }

  ghost predicate Mapped(root: nat, mem: Memory, own: Owners, spaces: map<nat, Space>,
                         mem': Memory, own': Owners, spaces': map<nat, Space>, vpn: nat, f: nat, flags: bv10, k: nat) {
    && root in spaces && root in spaces' && spaces' == spaces[root := spaces'[root]]
    && spaces'[root].flat == MapAll(spaces[root].flat, vpn, f, flags, k)
    && own'.Keys == own.Keys
    && (forall g :: g in own ==>
          || own'[g] == own[g] || (own[g] == Free && TableOf(own'[g], root))
          || MovedIn(own[g], own'[g], g, root, vpn, f, flags, k))
    && (forall g :: g in mem && g in own && own[g] != Free && !TableOf(own[g], root) ==> g in mem' && mem'[g] == mem[g])
  }

  ghost function WithEntry(mem: Memory, pt: nat, idx: nat, pte: Pte): Memory
    requires idx < |PtesAt(mem, pt)|
  {
    mem[pt := Table(PtesAt(mem, pt)[idx := pte])]
  }

  ghost function LeafSpace(sp: Space, q: Place, pte: Pte): Space {
    Space(if User(pte) then sp.at[q := pte.ppn] else sp.at, sp.flat[q := pte])
  }

  ghost function LeafOwners(own: Owners, root: nat, q: Place, pte: Pte): Owners {
    if User(pte) then own[pte.ppn := Of(root, q)] else own
  }

  lemma LeafAdded(mem: Memory, own: Owners, spaces: map<nat, Space>, root: nat, q: Place, pte: Pte)
    requires SpacesOk(mem, own, spaces) && OwnedOk(own, spaces) && root in spaces
    requires q.At? && Super(q) in spaces[root].at && IndexIn(q) < NPTE && q !in spaces[root].flat && Leaf(pte)
    requires Stamped(pte)
    requires User(pte) ==>
      pte.ppn in mem && pte.ppn in own && own[pte.ppn] == Loose && mem[pte.ppn].Data? && |mem[pte.ppn].bytes| == PGSIZE
    ensures var pt := spaces[root].at[Super(q)];
            && IndexIn(q) < |PtesAt(mem, pt)| && pt in own && TableOf(own[pt], root)
            && var mem', own', spaces' := WithEntry(mem, pt, IndexIn(q), pte), LeafOwners(own, root, q, pte),
              spaces[root := LeafSpace(spaces[root], q, pte)];
               SpacesOk(mem', own', spaces') && OwnedOk(own', spaces')
  {
    hide SpaceOk, EntriesOk;
    var sp, pt := spaces[root], spaces[root].at[Super(q)];
    assert SpaceOk(mem, own, root, sp);
    TableAt(mem, own, root, sp, Super(q));
    FlatOwns(mem, own, root, sp, q);
    var mem', own', sp' := WithEntry(mem, pt, IndexIn(q), pte), LeafOwners(own, root, q, pte), LeafSpace(sp, q, pte);
    ChangeEntry(mem, own, mem', own', root, sp, sp', q, pte);
    OthersOk(mem, own, mem', own', spaces, root, sp');
    if User(pte) {
      OwnedAfterNew(own, own', spaces, root, sp', q, pte.ppn);
    } else {
      OwnedSame(own, spaces, root, sp');
    }
  }

  lemma OwnedSame(own: Owners, spaces: map<nat, Space>, root: nat, sp': Space)
    requires OwnedOk(own, spaces) && root in spaces && sp'.at == spaces[root].at
    ensures OwnedOk(own, spaces[root := sp'])
  {
    forall f | f in own && own[f].Of? ensures OwnerOk(f, own[f], spaces[root := sp']) {
      assert OwnerOk(f, own[f], spaces);
    }
  }

  lemma MappedNone(root: nat, mem: Memory, own: Owners, spaces: map<nat, Space>, mem': Memory, own': Owners,
                   spaces': map<nat, Space>,
                   vpn: nat, f: nat, flags: bv10)
    requires Grown(root, mem, own, spaces, mem', own', spaces')
    ensures Mapped(root, mem, own, spaces, mem', own', spaces', vpn, f, flags, 0)
  {
  }

  lemma MappedOne(root: nat, mem: Memory, own: Owners, spaces: map<nat, Space>, mem1: Memory, own1: Owners,
                  spaces1: map<nat, Space>,
                  vpn: nat, f: nat, flags: bv10)
    requires Grown(root, mem, own, spaces, mem1, own1, spaces1)
    requires Super(PlaceOf(vpn)) in spaces1[root].at && spaces1[root].at[Super(PlaceOf(vpn))] in own1
    requires var pt := spaces1[root].at[Super(PlaceOf(vpn))];
      TableOf(own1[pt], root) && IndexIn(PlaceOf(vpn)) < |PtesAt(mem1, pt)|
    requires flags & 0x10 != 0 ==> f in own && own[f] == Loose
    ensures var q, pte, pt := PlaceOf(vpn), LeafPte(f, flags), spaces1[root].at[Super(PlaceOf(vpn))];
            Mapped(root, mem, own, spaces, WithEntry(mem1, pt, IndexIn(q), pte), LeafOwners(own1, root, q, pte),
                   spaces1[root := LeafSpace(spaces1[root], q, pte)], vpn, f, flags, 1)
  {
    hide V, Leaf;
    var q, pte, pt := PlaceOf(vpn), LeafPte(f, flags), spaces1[root].at[Super(PlaceOf(vpn))];
    var own2 := LeafOwners(own1, root, q, pte);
    assert MapAll(spaces[root].flat, vpn, f, flags, 1) == spaces[root].flat[q := pte];
    forall g | g in own
      ensures own2[g] == own[g] || (own[g] == Free && TableOf(own2[g], root)) ||
        MovedIn(own[g], own2[g], g, root, vpn, f, flags, 1)
    {
      assert own1[g] == own[g] || (own[g] == Free && TableOf(own1[g], root));
    }
  }

  /** One page: inserted into the flat map if it was not there and tables can be had. */
  method MapPage(m: Machine, root: nat, vpn: nat, f: nat, flags: bv10) returns (ok: bool)
    requires Valid(m) && root in m.spaces && flags & 0xE != 0
    requires flags & 0x10 != 0 ==>
      f in m.mem && f in m.own && m.own[f] == Loose && m.mem[f].Data? && |m.mem[f].bytes| == PGSIZE
    modifies m
    ensures Valid(m) && Mapped(root, old(m.mem), old(m.own), old(m.spaces), m.mem, m.own, m.spaces, vpn, f, flags,
      if ok then 1 else 0)
    ensures ok ==> PlaceOf(vpn) !in old(m.spaces)[root].flat
    ensures PlaceOf(vpn) !in old(m.spaces)[root].flat ==>
      var q, tables := PlaceOf(vpn), Tables(old(m.spaces)[root]);
      && (ok <==> Missing(tables, q) <= |old(m.free)|)
      && (ok ==> |m.free| + Missing(tables, q) == |old(m.free)| && Tables(m.spaces[root]) == WithWay(tables, q))
      && (!ok ==> m.free == [])
  {
    hide SpacesOk, OwnedOk, EntriesOk, FreeOk, Mapped, Leaf, WithEntry, LeafOwners, LeafSpace, Grown, Managed, Tables,
      Missing, WithWay;
    ghost var mem, own, spaces, q := m.mem, m.own, m.spaces, PlaceOf(vpn);
    var slot := Walk(m, root, vpn, true);
    ghost var mem1, own1, spaces1 := m.mem, m.own, m.spaces;
    MappedNone(root, mem, own, spaces, mem1, own1, spaces1, vpn, f, flags);
    GrownFacts(root, mem, own, spaces, mem1, own1, spaces1, f);
    if slot.None? {
      return false;
    }
    var (pt, idx) := slot.value;
    EntryAt(m, root, Super(q), IndexIn(q));
    SubSuper(q);
    if V(m.mem[pt].ptes[idx]) {
      return false;
    }
    ghost var pte := LeafPte(f, flags);
    LeafAdded(mem1, own1, spaces1, root, q, pte);
    MappedOne(root, mem, own, spaces, mem1, own1, spaces1, vpn, f, flags);
    m.mem := m.mem[pt := Table(m.mem[pt].ptes[idx := LeafPte(f, flags)])];
    m.own := LeafOwners(own1, root, q, pte);
    m.spaces := m.spaces[root := LeafSpace(spaces1[root], q, pte)];
    assert m.mem == WithEntry(mem1, pt, idx, pte) by { WithEntryIs(mem1, pt, idx, pte); }
    LeafFree(mem1, own1, m.head, m.free, root, pt, idx, q, pte);
    ManagedSame(m.first, mem1, own1, m.mem, m.own);
    LeafTables(spaces1[root], q, pte);
    return true;
  }

  /** A leaf is no table. */
  lemma LeafTables(sp: Space, q: Place, pte: Pte)
    requires q.At?
    ensures Tables(LeafSpace(sp, q, pte)) == Tables(sp)
  {
  }

  lemma ManagedSame(first: nat, mem: Memory, own: Owners, mem': Memory, own': Owners)
    requires Managed(first, mem, own) && mem'.Keys == mem.Keys && own'.Keys == own.Keys
    ensures Managed(first, mem', own')
  {
  }

  lemma GrownFacts(root: nat, mem: Memory, own: Owners, spaces: map<nat, Space>, mem': Memory, own': Owners,
                   spaces': map<nat, Space>, f: nat)
    requires Grown(root, mem, own, spaces, mem', own', spaces')
    ensures root in spaces' && spaces'[root].flat == spaces[root].flat
    ensures f in mem && f in own && own[f] == Loose ==> f in mem' && f in own' && own'[f] == Loose && mem'[f] == mem[f]
  {
  }

  lemma WithEntryIs(mem: Memory, pt: nat, idx: nat, pte: Pte)
    requires pt in mem && mem[pt].Table? && idx < |mem[pt].ptes|
    ensures WithEntry(mem, pt, idx, pte) == mem[pt := Table(mem[pt].ptes[idx := pte])]
  {
  }

  /** Setting an entry touches no free frame. */
  lemma LeafFree(mem: Memory, own: Owners, head: nat, free: seq<nat>, root: nat, pt: nat, idx: nat, q: Place, pte: Pte)
    requires FreeOk(mem, head, free, own) && pt in own && own[pt] != Free && idx < |PtesAt(mem, pt)|
    requires User(pte) ==> pte.ppn in own && own[pte.ppn] == Loose
    ensures FreeOk(WithEntry(mem, pt, idx, pte), head, free, LeafOwners(own, root, q, pte))
    ensures LeafOwners(own, root, q, pte).Keys == own.Keys && WithEntry(mem, pt, idx, pte).Keys == mem.Keys
  {
    hide FreeOk, User;
    FreeKept(mem, WithEntry(mem, pt, idx, pte), head, free, own, LeafOwners(own, root, q, pte));
  }

  lemma MappedNext(root: nat, mem: Memory, own: Owners, spaces: map<nat, Space>, mem1: Memory, own1: Owners,
                   spaces1: map<nat, Space>,
                   mem2: Memory, own2: Owners, spaces2: map<nat, Space>, vpn: nat, f: nat, flags: bv10, k: nat, j: nat)
    requires Mapped(root, mem, own, spaces, mem1, own1, spaces1, vpn, f, flags, k) && j <= 1
    requires Mapped(root, mem1, own1, spaces1, mem2, own2, spaces2, vpn + k, f + k, flags, j)
    ensures Mapped(root, mem, own, spaces, mem2, own2, spaces2, vpn, f, flags, k + j)
  {
    hide PlaceOf, MapAll;
    MapMore(spaces[root].flat, vpn, f, flags, k, j);
    forall g | g in own
      ensures own2[g] == own[g] || (own[g] == Free && TableOf(own2[g], root)) ||
        MovedIn(own[g], own2[g], g, root, vpn, f, flags, k + j)
    {
      assert g in own1;
    }
  }

  lemma MapMore(flat: map<Place, Pte>, vpn: nat, f: nat, flags: bv10, k: nat, j: nat)
    requires j <= 1
    ensures MapAll(MapAll(flat, vpn, f, flags, k), vpn + k, f + k, flags, j) == MapAll(flat, vpn, f, flags, k + j)
  {
    hide PlaceOf;
    var flat1 := MapAll(flat, vpn, f, flags, k);
    assert MapAll(flat1, vpn + k, f + k, flags, 0) == flat1;
  }

  /** Frames a caller of mappages brings along: its own, when it maps user pages. */
  ghost predicate Brings(mem: Memory, own: Owners, f: nat, n: nat, flags: bv10) {
    flags & 0x10 != 0 ==> forall g :: f <= g < f + n ==>
      g in mem && g in own && own[g] == Loose && mem[g].Data? && |mem[g].bytes| == PGSIZE
  }

  /** mappages: the pages are inserted one by one; it stops at the first page that is
      already mapped or when no table can be had, and the pages before it stay. */
  method MapPages(m: Machine, root: nat, vpn: nat, size: nat, f: nat, flags: bv10) returns (ok: bool, ghost k: nat)
    requires Valid(m) && root in m.spaces && flags & 0xE != 0 && size > 0
    requires Brings(m.mem, m.own, f, (size + PGSIZE - 1) / PGSIZE, flags)
    modifies m
    ensures Valid(m) && Mapped(root, old(m.mem), old(m.own), old(m.spaces), m.mem, m.own, m.spaces, vpn, f, flags, k)
    ensures ok ==> k == (size + PGSIZE - 1) / PGSIZE
    ensures !ok ==>
      && k < (size + PGSIZE - 1) / PGSIZE && root in m.spaces && root in old(m.spaces)
      && (m.free == [] || PlaceOf(vpn + k) in MapAll(old(m.spaces)[root].flat, vpn, f, flags, k))
  {
    hide SpacesOk, OwnedOk, EntriesOk, FreeOk, Managed, Mapped, MapAll, PlaceOf;
    ghost var mem, own, spaces := m.mem, m.own, m.spaces;
    GrownSelf(root, mem, own, spaces);
    MappedNone(root, mem, own, spaces, mem, own, spaces, vpn, f, flags);
    var n := (size + PGSIZE - 1) / PGSIZE;
    var i := 0;
    while i < n
      invariant 0 <= i <= n && Valid(m) && root in m.spaces
      invariant Mapped(root, mem, own, spaces, m.mem, m.own, m.spaces, vpn, f, flags, i)
    {
      ghost var mem1, own1, spaces1 := m.mem, m.own, m.spaces;
      StillBrings(root, mem, own, spaces, mem1, own1, spaces1, vpn, f, flags, i, n);
      ok := MapPage(m, root, vpn + i, f + i, flags);
      MappedNext(root, mem, own, spaces, mem1, own1, spaces1, m.mem, m.own, m.spaces, vpn, f, flags, i,
        if ok then 1 else 0);
      if !ok {
        MappedFlat(root, mem, own, spaces, mem1, own1, spaces1, vpn, f, flags, i);
        MappedFlat(root, mem, own, spaces, m.mem, m.own, m.spaces, vpn, f, flags, i);
        return false, i;
      }
      MappedFlat(root, mem, own, spaces, m.mem, m.own, m.spaces, vpn, f, flags, i + 1);
      i := i + 1;
    }
    return true, n;
  }

  lemma MappedFlat(root: nat, mem: Memory, own: Owners, spaces: map<nat, Space>, mem': Memory, own': Owners,
                   spaces': map<nat, Space>,
                   vpn: nat, f: nat, flags: bv10, k: nat)
    requires Mapped(root, mem, own, spaces, mem', own', spaces', vpn, f, flags, k)
    ensures root in spaces && root in spaces' && spaces'[root].flat == MapAll(spaces[root].flat, vpn, f, flags, k)
  {
  }

  lemma StillBrings(root: nat, mem: Memory, own: Owners, spaces: map<nat, Space>, mem': Memory, own': Owners,
                    spaces': map<nat, Space>,
                    vpn: nat, f: nat, flags: bv10, i: nat, n: nat)
    requires Mapped(root, mem, own, spaces, mem', own', spaces', vpn, f, flags, i) && Brings(mem, own, f, n, flags)
    requires i < n
    ensures flags & 0x10 != 0 ==>
      f + i in mem' && f + i in own' && own'[f + i] == Loose && mem'[f + i].Data? && |mem'[f + i].bytes| == PGSIZE
  {
    hide MapAll, PlaceOf;
  }

  // ---- uvmunmap ---------------------------------------------------------------------------

  ghost function UnmapAll(flat: map<Place, Pte>, vpn: nat, k: nat): map<Place, Pte> {
    if k == 0 then flat else UnmapAll(flat, vpn, k - 1) - {PlaceOf(vpn + k - 1)}
  }

  /** User pages of one address space may have gone back to the free frames. */
  ghost predicate GaveBack(o: Owner, o': Owner, root: nat) {
    o' == o || (o.Of? && o.root == root && o.place.At? && o' == Free)
  }

  ghost predicate Unmapped(root: nat, mem: Memory, own: Owners, spaces: map<nat, Space>,
                           mem': Memory, own': Owners, spaces': map<nat, Space>, vpn: nat, k: nat) {
    && root in spaces && root in spaces' && spaces' == spaces[root := spaces'[root]]
    && spaces'[root].flat == UnmapAll(spaces[root].flat, vpn, k)
    && own'.Keys == own.Keys && (forall g :: g in own ==> GaveBack(own[g], own'[g], root))
    && (forall g :: g in mem && g in own && own'[g] != Free && !TableOf(own[g], root) ==>
      g in mem' && mem'[g] == mem[g])
  }

  ghost function BareSpace(sp: Space, q: Place): Space { Space(sp.at - {q}, sp.flat - {q}) }

  /** Frame f, if the page was the space's own, is not its any more. */
  lemma LeafRemoved(mem: Memory, own: Owners, spaces: map<nat, Space>, root: nat, q: Place, mem1: Memory, own1: Owners)
    requires SpacesOk(mem, own, spaces) && OwnedOk(own, spaces) && root in spaces && q in spaces[root].flat
    requires q.At? && mem1.Keys == mem.Keys == own1.Keys == own.Keys
    requires q in spaces[root].at ==> spaces[root].at[q] in own && !own1[spaces[root].at[q]].Of?
    requires forall g :: g in mem && g in own && (q in spaces[root].at ==> g != spaces[root].at[q]) ==>
      mem1[g] == mem[g] && own1[g] == own[g]
    ensures Super(q) in spaces[root].at && IndexIn(q) < NPTE
    ensures var pt := spaces[root].at[Super(q)];
            && IndexIn(q) < |PtesAt(mem1, pt)| && pt in own && TableOf(own[pt], root) && own1[pt] == own[pt]
            && var mem', spaces' := WithEntry(mem1, pt, IndexIn(q), NONE), spaces[root := BareSpace(spaces[root], q)];
               SpacesOk(mem', own1, spaces') && OwnedOk(own1, spaces')
  {
    hide SpaceOk, EntriesOk;
    var sp := spaces[root];
    assert SpaceOk(mem, own, root, sp);
    FlatPages(mem, own, root, sp, q);
    var pt := sp.at[Super(q)];
    TableAt(mem, own, root, sp, Super(q));
    FlatOwns(mem, own, root, sp, q);
    var mem', sp' := WithEntry(mem1, pt, IndexIn(q), NONE), BareSpace(sp, q);
    ChangeEntry(mem, own, mem', own1, root, sp, sp', q, NONE);
    OthersOk(mem, own, mem', own1, spaces, root, sp');
    if q in sp.at {
      forall f | f in own && own[f] == Of(root, q) ensures sp.at[q] == f {
        OwnedBy(own, spaces, root, q, f);
      }
      OwnedAfter(own, own1, spaces, root, sp', q, sp.at[q]);
    } else {
      assert own1 == own && sp'.at == sp.at;
      OwnedSame(own, spaces, root, sp');
    }
  }

  /** One page: removed from the flat map, its frame freed if asked to. */
  method UnmapPage(m: Machine, root: nat, vpn: nat, doFree: bool)
    requires Valid(m) && root in m.spaces && PlaceOf(vpn) in m.spaces[root].flat
    requires User(m.spaces[root].flat[PlaceOf(vpn)]) == doFree
    modifies m
    ensures Valid(m) && Unmapped(root, old(m.mem), old(m.own), old(m.spaces), m.mem, m.own, m.spaces, vpn, 1)
  {
    hide SpacesOk, OwnedOk, EntriesOk, FreeOk, Leaf, WithEntry, Managed, BareSpace, Grown;
    ghost var mem, own, spaces, q, sp := m.mem, m.own, m.spaces, PlaceOf(vpn), m.spaces[root];
    FlatAt(m, root, q);
    UserOwned(m, root, q);
    var slot := Walk(m, root, vpn, false);
    var (pt, idx) := slot.value;
    EntryAt(m, root, Super(q), IndexIn(q));
    SubSuper(q);
    var pte := m.mem[pt].ptes[idx];
    if doFree {
      m.Kfree(pte.ppn);
    }
    ghost var mem1, own1 := m.mem, m.own;
    SameKeys(m.first, mem1, own1);
    LeafRemoved(mem, own, spaces, root, q, mem1, own1);
    m.mem := m.mem[pt := Table(m.mem[pt].ptes[idx := NONE])];
    m.spaces := m.spaces[root := BareSpace(sp, q)];
    assert m.mem == WithEntry(mem1, pt, idx, NONE) by { WithEntryIs(mem1, pt, idx, NONE); }
    FreeKept(mem1, m.mem, m.head, m.free, own1, own1);
    ManagedSame(m.first, mem1, own1, m.mem, m.own);
    assert UnmapAll(sp.flat, vpn, 1) == sp.flat - {q};
    BareFlat(sp, q);
  }

  lemma SameKeys(first: nat, mem: Memory, own: Owners)
    requires Managed(first, mem, own)
    ensures mem.Keys == own.Keys
  {
  }

  lemma BareFlat(sp: Space, q: Place)
    ensures BareSpace(sp, q).flat == sp.flat - {q}
  {
  }

  lemma UserOwned(m: Machine, root: nat, q: Place)
    requires Valid(m) && root in m.spaces && q in m.spaces[root].flat && q.At?
    ensures q in m.spaces[root].at <==> User(m.spaces[root].flat[q])
    ensures q in m.spaces[root].at ==>
      var f := m.spaces[root].flat[q].ppn;
      m.spaces[root].at[q] == f && f in m.own && f in m.mem && m.own[f] == Of(root, q) && m.mem[f].Data? &&
        |m.mem[f].bytes| == PGSIZE
  {
    assert SpaceOk(m.mem, m.own, root, m.spaces[root]);
    FlatOwns(m.mem, m.own, root, m.spaces[root], q);
  }

  lemma {:induction false} UnmapKeeps(flat: map<Place, Pte>, vpn: nat, k: nat, other: nat)
    requires vpn + k <= other < 2 * MAXVPN && PlaceOf(other) in flat
    ensures PlaceOf(other) in UnmapAll(flat, vpn, k) && UnmapAll(flat, vpn, k)[PlaceOf(other)] == flat[PlaceOf(other)]
  {
    hide PlaceOf;
    if k > 0 {
      UnmapKeeps(flat, vpn, k - 1, other);
      if PlaceOf(vpn + k - 1) == PlaceOf(other) { PlaceInjective(vpn + k - 1, other); }
    }
  }

  lemma UnmappedNext(root: nat, mem: Memory, own: Owners, spaces: map<nat, Space>, mem1: Memory, own1: Owners,
                     spaces1: map<nat, Space>,
                     mem2: Memory, own2: Owners, spaces2: map<nat, Space>, vpn: nat, k: nat)
    requires Unmapped(root, mem, own, spaces, mem1, own1, spaces1, vpn, k)
    requires Unmapped(root, mem1, own1, spaces1, mem2, own2, spaces2, vpn + k, 1)
    ensures Unmapped(root, mem, own, spaces, mem2, own2, spaces2, vpn, k + 1)
  {
    hide PlaceOf;
    assert UnmapAll(spaces1[root].flat, vpn + k, 1) == spaces1[root].flat - {PlaceOf(vpn + k)};
    forall g | g in own ensures GaveBack(own[g], own2[g], root) {
      assert GaveBack(own[g], own1[g], root) && GaveBack(own1[g], own2[g], root);
    }
    forall g | g in mem && g in own && own2[g] != Free && !TableOf(own[g], root)
      ensures g in mem2 && mem2[g] == mem[g]
    {
      assert GaveBack(own[g], own1[g], root) && GaveBack(own1[g], own2[g], root);
    }
  }

  ghost predicate MappedAs(flat: map<Place, Pte>, vpn: nat, user: bool) {
    PlaceOf(vpn) in flat && User(flat[PlaceOf(vpn)]) == user
  }

  /** uvmunmap on mapped pages: they leave the flat map, and user pages become free. */
  method Uvmunmap(m: Machine, root: nat, vpn: nat, n: nat, doFree: bool)
    requires Valid(m) && root in m.spaces && vpn + n <= MAXVPN
    requires forall v :: vpn <= v < vpn + n ==> MappedAs(m.spaces[root].flat, v, doFree)
    modifies m
    ensures Valid(m) && Unmapped(root, old(m.mem), old(m.own), old(m.spaces), m.mem, m.own, m.spaces, vpn, n)
  {
    hide SpacesOk, OwnedOk, FreeOk, Managed, Unmapped, PlaceOf, User;
    ghost var mem, own, spaces := m.mem, m.own, m.spaces;
    UnmappedNone(root, mem, own, spaces, vpn);
    for i := 0 to n
      invariant Valid(m) && Unmapped(root, mem, own, spaces, m.mem, m.own, m.spaces, vpn, i) && root in m.spaces
    {
      ghost var mem1, own1, spaces1 := m.mem, m.own, m.spaces;
      UnmappedFlat(root, mem, own, spaces, mem1, own1, spaces1, vpn, i);
      assert MappedAs(spaces[root].flat, vpn + i, doFree);
      UnmapKeeps(spaces[root].flat, vpn, i, vpn + i);
      UnmapPage(m, root, vpn + i, doFree);
      UnmappedNext(root, mem, own, spaces, mem1, own1, spaces1, m.mem, m.own, m.spaces, vpn, i);
      UnmappedFlat(root, mem, own, spaces, m.mem, m.own, m.spaces, vpn, i + 1);
    }
  }

  lemma UnmappedNone(root: nat, mem: Memory, own: Owners, spaces: map<nat, Space>, vpn: nat)
    requires root in spaces
    ensures Unmapped(root, mem, own, spaces, mem, own, spaces, vpn, 0)
  {
  }

  lemma UnmappedFlat(root: nat, mem: Memory, own: Owners, spaces: map<nat, Space>, mem': Memory, own': Owners,
                     spaces': map<nat, Space>,
                     vpn: nat, k: nat)
    requires Unmapped(root, mem, own, spaces, mem', own', spaces', vpn, k)
    ensures root in spaces && root in spaces' && spaces'[root].flat == UnmapAll(spaces[root].flat, vpn, k)
  {
  }

  // ---- freewalk -----------------------------------------------------------------------------

  /** q is p or lies below it. */
  predicate Under(p: Place, q: Place) {
    match p
    case Top => true
    case Mid(a) => !q.Top? && q.a == a
    case Low(a, b) => (q.Low? || q.At?) && q.a == a && q.b == b
    case At(_, _, _) => q == p
  }

  /** The entry of p on the way to q. */
  function Toward(p: Place, q: Place): (i: nat)
    requires Depth(p) < 3 && Under(p, q) && q != p
    ensures Under(Sub(p, i), q)
  {
    match p case Top => q.a case Mid(a) => q.b case Low(a, b) => q.c
  }

  ghost predicate Doomed(o: Owner, root: nat, p: Place) { o.Of? && o.root == root && Under(p, o.place) }

  /** Everything below entry i of p, and before it. */
  ghost predicate Swept(o: Owner, root: nat, p: Place, i: nat)
    requires Depth(p) < 3
  {
    Doomed(o, root, p) && o.place != p && Toward(p, o.place) < i
  }

  /** Frames owned for root are where sp says. */
  ghost predicate OwnedIn(own: Owners, root: nat, sp: Space) {
    forall g :: g in own && own[g].Of? && own[g].root == root ==> own[g].place in sp.at && sp.at[own[g].place] == g
  }

  ghost predicate BelowOk(mem: Memory, own: Owners, root: nat, sp: Space, p: Place) {
    forall q :: q in sp.at && Under(p, q) ==> NodeOk(mem, own, root, sp, q)
  }

  lemma SweptNext(o: Owner, root: nat, p: Place, i: nat)
    requires Depth(p) < 3
    ensures Swept(o, root, p, i + 1) <==> Swept(o, root, p, i) || Doomed(o, root, Sub(p, i))
  {
  }

  lemma NodeSame(mem: Memory, own: Owners, mem': Memory, own': Owners, root: nat, sp: Space, q: Place)
    requires q in sp.at && NodeOk(mem, own, root, sp, q)
    requires sp.at[q] in mem' && sp.at[q] in own' && mem'[sp.at[q]] == mem[sp.at[q]] && own'[sp.at[q]] == own[sp.at[q]]
    ensures NodeOk(mem', own', root, sp, q)
  {
    hide EntriesOk;
  }

  /** Between two moments only frames below the first i entries of p were freed, and the
      table at p itself rewritten. */
  ghost predicate SweptUpTo(mem: Memory, own: Owners, mem': Memory, own': Owners, root: nat, p: Place, i: nat)
    requires Depth(p) < 3
  {
    && mem'.Keys == mem.Keys == own.Keys == own'.Keys
    && (forall g :: g in own ==> own'[g] == if Swept(own[g], root, p, i) then Free else own[g])
    && (forall g :: g in own && !Swept(own[g], root, p, i) && own[g] != Of(root, p) ==> mem'[g] == mem[g])
  }

  ghost predicate Freed(mem: Memory, own: Owners, mem': Memory, own': Owners, root: nat, p: Place) {
    && mem'.Keys == mem.Keys == own.Keys == own'.Keys
    && (forall g :: g in own ==> own'[g] == if Doomed(own[g], root, p) then Free else own[g])
    && (forall g :: g in own && !Doomed(own[g], root, p) ==> mem'[g] == mem[g])
  }

  lemma BelowLater(mem: Memory, own: Owners, mem': Memory, own': Owners, root: nat, sp: Space, p: Place, i: nat)
    requires Depth(p) < 3 && BelowOk(mem, own, root, sp, p) && SweptUpTo(mem, own, mem', own', root, p, i)
    ensures BelowOk(mem', own', root, sp, Sub(p, i))
  {
    forall q | q in sp.at && Under(Sub(p, i), q) ensures NodeOk(mem', own', root, sp, q) {
      assert Under(p, q) && q != p && Toward(p, q) == i;
      assert NodeOk(mem, own, root, sp, q);
      NodeSame(mem, own, mem', own', root, sp, q);
    }
  }

  lemma SweepOn(mem: Memory, own: Owners, mem1: Memory, own1: Owners, mem2: Memory, own2: Owners, root: nat, p: Place,
                i: nat)
    requires Depth(p) < 3 && SweptUpTo(mem, own, mem1, own1, root, p, i)
    requires Freed(mem1, own1, mem2, own2, root, Sub(p, i))
    ensures SweptUpTo(mem, own, mem2, own2, root, p, i + 1)
  {
    forall g | g in own
      ensures own2[g] == if Swept(own[g], root, p, i + 1) then Free else own[g]
      ensures !Swept(own[g], root, p, i + 1) && own[g] != Of(root, p) ==> mem2[g] == mem[g]
    {
      SweptNext(own[g], root, p, i);
    }
  }

  /** A page is still mapped below p. */
  ghost predicate Mapping(sp: Space, p: Place) { exists q :: q in sp.flat && Under(p, q) }

  /** Every leaf of the flat map hangs on tables that exist. */
  ghost predicate Hung(sp: Space) {
    forall q :: q in sp.flat ==> q.At? && Super(q) in sp.at && IndexIn(q) < NPTE
  }

  /** freewalk: unless a page is still mapped below p, in which case it panics, every table
      below p goes back to the free frames, and nothing else does. */
  method Freewalk(m: Machine, pt: nat, ghost root: nat, ghost sp: Space, ghost p: Place) returns (ok: bool)
    requires m.Pool() && Depth(p) < 3 && p in sp.at && sp.at[p] == pt && Hung(sp)
    requires BelowOk(m.mem, m.own, root, sp, p) && OwnedIn(m.own, root, sp)
    modifies m`mem, m`head, m`free, m`own
    ensures ok <==> !Mapping(sp, p)
    ensures ok ==> m.Pool() && Freed(old(m.mem), old(m.own), m.mem, m.own, root, p)
    decreases 3 - Depth(p)
  {
    hide FreeOk, EntriesOk, V, Leaf, User, BelowOk, Managed, OwnedIn, Freed, SweptUpTo, Mapping, Hung;
    ghost var mem, own := m.mem, m.own;
    SameKeys(m.first, mem, own);
    BelowAt(mem, own, root, sp, p);
    SweptNone(mem, own, root, p);
    var i := 0;
    while i < NPTE
      invariant 0 <= i <= NPTE && m.Pool() && SweptUpTo(mem, own, m.mem, m.own, root, p, i)
      invariant pt in m.mem && m.mem[pt].Table? && |m.mem[pt].ptes| == NPTE
      invariant forall j :: i <= j < NPTE ==> m.mem[pt].ptes[j] == mem[pt].ptes[j]
      invariant forall j: nat :: j < i ==> !Mapping(sp, Sub(p, j))
    {
      ghost var q := Sub(p, i);
      ghost var mem1, own1 := m.mem, m.own;
      EntryBelow(mem, own, root, sp, p, i);
      SweptSelf(mem, own, mem1, own1, root, p, i, pt);
      BelowLater(mem, own, mem1, own1, root, sp, p, i);
      OwnedLater(mem, own, mem1, own1, root, sp, p, i);
      var pte := m.mem[pt].ptes[i];
      if V(pte) && !Leaf(pte) {
        ok := Freewalk(m, pte.ppn, root, sp, q);
        if !ok {
          MappingUp(sp, p, i);
          return;
        }
        SweepOn(mem, own, mem1, own1, m.mem, m.own, root, p, i);
        ghost var mem2 := m.mem;
        FreedKeeps(mem1, own1, mem2, m.own, root, p, i, pt);
        SweptWrite(mem, own, mem2, m.own, root, p, i + 1, pt, Table(m.mem[pt].ptes[i := NONE]));
        m.mem := m.mem[pt := Table(m.mem[pt].ptes[i := NONE])];
        FreeKept(mem2, m.mem, m.head, m.free, m.own, m.own);
        ManagedSame(m.first, mem2, m.own, m.mem, m.own);
      } else if Leaf(pte) {
        MappingUp(sp, p, i);
        return false;
      } else {
        NothingMapped(mem, own, root, sp, p, i);
        NothingSwept(mem, own, mem1, own1, root, sp, p, i);
      }
      i := i + 1;
    }
    NowhereMapped(mem, own, root, sp, p);
    ok := true;
    ghost var mem1, own1 := m.mem, m.own;
    SweptSelf(mem, own, mem1, own1, root, p, i, pt);
    m.Kfree(pt);
    LastFreed(mem, own, mem1, own1, m.mem, m.own, root, sp, p);
  }

  lemma BelowAt(mem: Memory, own: Owners, root: nat, sp: Space, p: Place)
    requires BelowOk(mem, own, root, sp, p) && p in sp.at && !p.At?
    ensures sp.at[p] in mem && mem[sp.at[p]].Table? && |mem[sp.at[p]].ptes| == NPTE && sp.at[p] in own
    ensures own[sp.at[p]] == Of(root, p)
  {
    assert NodeOk(mem, own, root, sp, p);
  }

  lemma OwnedLater(mem: Memory, own: Owners, mem': Memory, own': Owners, root: nat, sp: Space, p: Place, i: nat)
    requires Depth(p) < 3 && OwnedIn(own, root, sp) && SweptUpTo(mem, own, mem', own', root, p, i)
    ensures OwnedIn(own', root, sp)
  {
  }

  lemma EntryBelow(mem: Memory, own: Owners, root: nat, sp: Space, p: Place, i: nat)
    requires BelowOk(mem, own, root, sp, p) && p in sp.at && !p.At? && i < NPTE && Hung(sp)
    ensures sp.at[p] in mem && mem[sp.at[p]].Table? && |mem[sp.at[p]].ptes| == NPTE
    ensures var pte, q := mem[sp.at[p]].ptes[i], Sub(p, i);
            if Leaf(pte) then Depth(q) == 3 && q in sp.flat && Mapping(sp, q)
            else (V(pte) <==> q in sp.at) && (V(pte) ==> Depth(q) < 3 && pte.ppn == sp.at[q]) && q !in sp.flat
  {
    assert NodeOk(mem, own, root, sp, p);
    assert EntryOk(mem[sp.at[p]].ptes[i], sp, Sub(p, i));
    assert Under(Sub(p, i), Sub(p, i));
  }

  lemma MappingUp(sp: Space, p: Place, i: nat)
    requires Depth(p) < 3 && Mapping(sp, Sub(p, i))
    ensures Mapping(sp, p)
  {
    var q :| q in sp.flat && Under(Sub(p, i), q);
    assert Under(p, q);
  }

  /** A leaf below p and the table of p that leads to it. */
  lemma LeafOnTheWay(mem: Memory, own: Owners, root: nat, sp: Space, p: Place, q: Place)
    requires BelowOk(mem, own, root, sp, p) && Depth(p) < 3 && Hung(sp) && q in sp.flat && Under(p, q)
    ensures q != p && Toward(p, q) < NPTE && (Sub(p, Toward(p, q)) == q || Sub(p, Toward(p, q)) in sp.at)
  {
    hide BelowOk;
    if p != Super(q) {
      OnTheWay(mem, own, root, sp, p, Super(q));
    }
  }

  lemma NothingMapped(mem: Memory, own: Owners, root: nat, sp: Space, p: Place, i: nat)
    requires BelowOk(mem, own, root, sp, p) && Depth(p) < 3 && Hung(sp) && Sub(p, i) !in sp.at && Sub(p, i) !in sp.flat
    ensures !Mapping(sp, Sub(p, i))
  {
    hide BelowOk, Hung;
    forall q | q in sp.flat ensures !Under(Sub(p, i), q) {
      if Under(Sub(p, i), q) {
        LeafOnTheWay(mem, own, root, sp, p, q);
      }
    }
  }

  lemma MappingDown(mem: Memory, own: Owners, root: nat, sp: Space, p: Place) returns (i: nat)
    requires BelowOk(mem, own, root, sp, p) && Depth(p) < 3 && Hung(sp) && Mapping(sp, p)
    ensures i < NPTE && Mapping(sp, Sub(p, i))
  {
    hide BelowOk, Hung;
    var q :| q in sp.flat && Under(p, q);
    LeafOnTheWay(mem, own, root, sp, p, q);
    i := Toward(p, q);
  }

  lemma NowhereMapped(mem: Memory, own: Owners, root: nat, sp: Space, p: Place)
    requires BelowOk(mem, own, root, sp, p) && Depth(p) < 3 && Hung(sp)
    requires forall j: nat :: j < NPTE ==> !Mapping(sp, Sub(p, j))
    ensures !Mapping(sp, p)
  {
    hide BelowOk, Hung, Mapping;
    if Mapping(sp, p) {
      var i := MappingDown(mem, own, root, sp, p);
    }
  }

  /** The way from p down to a place that exists passes only places that exist. */
  lemma OnTheWay(mem: Memory, own: Owners, root: nat, sp: Space, p: Place, o: Place)
    requires BelowOk(mem, own, root, sp, p) && Depth(p) < 3 && o in sp.at && Under(p, o) && o != p
    ensures Sub(p, Toward(p, o)) in sp.at && Toward(p, o) < NPTE
  {
    assert NodeOk(mem, own, root, sp, o);
    if o != Sub(p, Toward(p, o)) {
      assert NodeOk(mem, own, root, sp, Super(o));
    }
    if Depth(o) == 3 && p.Top? {
      assert NodeOk(mem, own, root, sp, Super(Super(o)));
    }
  }

  lemma NothingSwept(mem: Memory, own: Owners, mem1: Memory, own1: Owners, root: nat, sp: Space, p: Place, i: nat)
    requires BelowOk(mem, own, root, sp, p) && OwnedIn(own, root, sp) && Depth(p) < 3 && Sub(p, i) !in sp.at
    requires SweptUpTo(mem, own, mem1, own1, root, p, i)
    ensures SweptUpTo(mem, own, mem1, own1, root, p, i + 1)
  {
    hide BelowOk;
    forall g | g in own ensures Swept(own[g], root, p, i + 1) <==> Swept(own[g], root, p, i) {
      SweptNext(own[g], root, p, i);
      if Doomed(own[g], root, Sub(p, i)) {
        OnTheWay(mem, own, root, sp, p, own[g].place);
      }
    }
  }

  lemma LastFreed(mem: Memory, own: Owners, mem1: Memory, own1: Owners, mem2: Memory, own2: Owners, root: nat,
                  sp: Space, p: Place)
    requires BelowOk(mem, own, root, sp, p) && OwnedIn(own, root, sp) && Depth(p) < 3 && p in sp.at && sp.at[p] in own
    requires own[sp.at[p]] == Of(root, p) && SweptUpTo(mem, own, mem1, own1, root, p, NPTE)
    requires sp.at[p] in mem2 && mem2 == mem1[sp.at[p] := mem2[sp.at[p]]] && own2 == own1[sp.at[p] := Free]
    ensures Freed(mem, own, mem2, own2, root, p)
  {
    hide BelowOk;
    forall g | g in own ensures Doomed(own[g], root, p) <==> Swept(own[g], root, p, NPTE) || g == sp.at[p] {
      if Doomed(own[g], root, p) && own[g].place != p {
        OnTheWay(mem, own, root, sp, p, own[g].place);
      }
    }
  }

  lemma SweptNone(mem: Memory, own: Owners, root: nat, p: Place)
    requires Depth(p) < 3 && mem.Keys == own.Keys
    ensures SweptUpTo(mem, own, mem, own, root, p, 0)
  {
  }

  lemma SweptSelf(mem: Memory, own: Owners, mem': Memory, own': Owners, root: nat, p: Place, i: nat, pt: nat)
    requires Depth(p) < 3 && SweptUpTo(mem, own, mem', own', root, p, i) && pt in own && own[pt] == Of(root, p)
    ensures pt in own' && own'[pt] == Of(root, p) && mem'.Keys == own'.Keys
  {
  }

  lemma FreedKeeps(mem: Memory, own: Owners, mem': Memory, own': Owners, root: nat, p: Place, i: nat, pt: nat)
    requires Depth(p) < 3 && Freed(mem, own, mem', own', root, Sub(p, i)) && pt in own && own[pt] == Of(root, p)
    ensures pt in own' && own'[pt] == own[pt] && pt in mem' && pt in mem && mem'[pt] == mem[pt]
  {
  }

  lemma SweptWrite(mem: Memory, own: Owners, mem': Memory, own': Owners, root: nat, p: Place, i: nat, pt: nat,
                   page: Page)
    requires Depth(p) < 3 && SweptUpTo(mem, own, mem', own', root, p, i) && pt in own' && own'[pt] == Of(root, p)
    ensures SweptUpTo(mem, own, mem'[pt := page], own', root, p, i)
  {
  }
}
