/** Creating files and directories: what a user sees before and after, and why link
    counts stay the number of names. */
module FsTree {
  import opened Prelude
  import opened FsLayout
  import opened BufferCache
  import opened BlockAlloc
  import opened BlockMap
  import opened InodeStore
  import opened FileIo
  import opened Directory
  import opened Inodes
  import opened FsOps
  import opened LinkGraph
  import opened Paths

  /** Everything a user sees: every inode's type, link count and bytes. */
  type View = v: seq<Node> | |v| == NINODES witness seq(NINODES, _ => Node(0, 0, []))

  ghost function ViewOf(disk: Disk): (v: View)
    requires Sized(disk)
    ensures forall j :: 0 < j < NINODES ==> v[j] == NodeOf(disk, j)
  {
    seq(NINODES, (j: nat) requires j < NINODES => if j == 0 then Node(0, 0, []) else NodeOf(disk, j))
  }

  lemma ViewAfter(disk: Disk, disk': Disk, j: nat)
    requires 0 < j < NINODES && NodesKept(disk, disk', j)
    ensures Sized(disk) && Sized(disk')
    ensures ViewOf(disk') == ViewOf(disk)[j := NodeOf(disk', j)]
  {
    hide NodeOf;
  }

  // ---- The graph of a view ----------------------------------------------------------

  /** The inodes that the first n entries of a directory name. */
  ghost function NamesIn(c: seq<Byte>, n: nat): multiset<nat>
    requires n <= Count(c)
  {
    if n == 0 then multiset{}
    else if Entry(c, n - 1).inum == 0 then NamesIn(c, n - 1)
    else NamesIn(c, n - 1) + multiset{Entry(c, n - 1).inum}
  }

  ghost function VertexOf(nd: Node): Vertex {
    Vertex(nd.typ, nd.nlink, if nd.typ == T_DIR then NamesIn(nd.bytes, Count(nd.bytes)) else multiset{})
  }

  ghost function GraphOf(v: View): (g: Graph)
    ensures |g| == NINODES && forall j :: 0 <= j < NINODES ==> g[j] == VertexOf(v[j])
  {
    seq(NINODES, (j: nat) requires j < NINODES => VertexOf(v[j]))
  }

  /** c' is c with a live entry for inum at position k, which was unused or the end. */
  ghost predicate GotEntry(c: seq<Byte>, c': seq<Byte>, k: nat, inum: nat) {
    && k <= Count(c) && Count(c') == (if k == Count(c) then k + 1 else Count(c))
    && (k < Count(c) ==> Entry(c, k).inum == 0)
    && forall i :: 0 <= i < Count(c') ==> Entry(c', i).inum == if i == k then inum else Entry(c, i).inum
  }

  lemma {:induction false} NamesBefore(c: seq<Byte>, c': seq<Byte>, k: nat, inum: nat, n: nat)
    requires GotEntry(c, c', k, inum) && n <= k
    ensures NamesIn(c', n) == NamesIn(c, n)
  {
    hide Entry, Count;
    if n > 0 {
      NamesBefore(c, c', k, inum, n - 1);
    }
  }

  lemma {:induction false} NamesAfter(c: seq<Byte>, c': seq<Byte>, k: nat, inum: nat, n: nat)
    requires GotEntry(c, c', k, inum) && inum != 0 && k < n <= Count(c')
    ensures NamesIn(c', n) == NamesIn(c, if k == Count(c) then k else n) + multiset{inum}
  {
    hide Entry, Count, GotEntry, NamesIn;
    EntryOfBoth(c, c', k, inum, n - 1);
    NamesStep(c', n);
    if n == k + 1 {
      NamesBefore(c, c', k, inum, k);
      if k < Count(c) { NamesStep(c, n); }
    } else {
      NamesAfter(c, c', k, inum, n - 1);
      NamesStep(c, n);
      AddBoth(NamesIn(c, n - 1), inum, Entry(c, n - 1).inum);
    }
  }

  lemma NamesStep(c: seq<Byte>, n: nat)
    requires 0 < n <= Count(c)
    ensures NamesIn(c, n) == NamesIn(c, n - 1) + if Entry(c, n - 1).inum == 0 then multiset{}
                                                 else multiset{Entry(c, n - 1).inum}
  {
    hide Entry, Count;
  }

  lemma EntryOfBoth(c: seq<Byte>, c': seq<Byte>, k: nat, inum: nat, i: nat)
    requires GotEntry(c, c', k, inum) && i < Count(c')
    ensures k <= Count(c) && Entry(c', i).inum == (if i == k then inum else Entry(c, i).inum)
    ensures Count(c') == (if k == Count(c) then k + 1 else Count(c)) && (k < Count(c) ==> Entry(c, k).inum == 0)
    ensures i < Count(c) || i == k
  {
    hide Entry, Count;
  }

  lemma AddBoth(m: multiset<nat>, a: nat, b: nat)
    ensures (m + multiset{a}) + multiset{b} == (m + multiset{b}) + multiset{a}
  {
  }

  lemma {:induction false} NameExists(c: seq<Byte>, n: nat, k: nat)
    requires n <= Count(c) && k in NamesIn(c, n)
    ensures exists i :: 0 <= i < n && Entry(c, i).inum == k != 0
  {
    hide Entry;
    if k in NamesIn(c, n - 1) {
      NameExists(c, n - 1, k);
      var i :| 0 <= i < n - 1 && Entry(c, i).inum == k != 0;
    } else {
      assert Entry(c, n - 1).inum == k;
    }
  }

  lemma {:induction false} EntryNamed(c: seq<Byte>, n: nat, i: nat)
    requires i < n <= Count(c) && Entry(c, i).inum != 0
    ensures Entry(c, i).inum in NamesIn(c, n)
  {
    hide Entry;
    if i < n - 1 {
      EntryNamed(c, n - 1, i);
    }
  }

  // ---- Link counts --------------------------------------------------------------------

  /** Directories name inodes that exist, link counts of what the root reaches are
      right, and no count is larger than the number of inodes in use plus one. */
  ghost predicate TreeOk(v: View) {
    v[ROOTINO].typ == T_DIR && NamesExist(GraphOf(v)) && LinksRight(GraphOf(v)) && Bounded(GraphOf(v))
  }

  ghost predicate NamesExist(g: Graph) {
    forall d: nat, k: nat :: Edge(g, d, k) ==> 0 < k < |g| && g[k].typ != 0
  }

  ghost predicate LinksRight(g: Graph) {
    exists s :: Reach(g, s) && Counted(g, s)
  }

  ghost predicate Bounded(g: Graph) {
    forall k :: 0 <= k < |g| ==> 0 <= g[k].nlink <= Existing(g, |g|) + 1
  }

  /** Reachable inodes exist. */
  lemma ReachExists(v: View, s: set<nat>, k: nat)
    requires TreeOk(v) && Reach(GraphOf(v), s) && k in s
    ensures 0 < k < NINODES && v[k].typ != 0
  {
    var g := GraphOf(v);
    var t := set i | i in s && 0 < i < NINODES && g[i].typ != 0;
    assert ROOT in t;
    forall d, i | d in t && Edge(g, d, i) ensures i in t {
      assert d in s;
    }
    assert Closed(g, t);
  }

  ghost function Entered(v: View, p: nat, name: seq<Byte>, j: nat): View
    requires p < NINODES && j < NINODES
  {
    v[p := v[p].(bytes := WithEntry(v[p].bytes, FirstUnused(v[p].bytes, 0), Dirent(j, Stored(name))))]
  }

  ghost function Counted1(v: View, j: nat): View
    requires j < NINODES
  {
    v[j := v[j].(nlink := v[j].nlink + 1)]
  }

  /** A directory that can take an entry `name`. */
  ghost predicate Takes(v: View, p: nat, name: seq<Byte>)
    requires p < NINODES
  {
    v[p].typ == T_DIR && |v[p].bytes| % ENTSIZE == 0 && Lookup(v[p].bytes, name) == None
  }

  /** The directory is as large as a file can be and all its entries are live. */
  ghost predicate NoRoom(v: View, p: nat)
    requires p < NINODES
  {
    FirstUnused(v[p].bytes, 0) * ENTSIZE + ENTSIZE > MAXBYTES
  }

  lemma EnteredGraph(v: View, p: nat, name: seq<Byte>, j: nat)
    requires p < NINODES && 0 < j < NINODES && Takes(v, p, name)
    ensures GraphOf(Entered(v, p, name, j)) == Adopt(GraphOf(v), p, j)
  {
    hide Entry, Stored, WithEntry;
    var c, de := v[p].bytes, Dirent(j, Stored(name));
    var k := FirstUnused(c, 0);
    StoredLen(name);
    EntryAfter(c, k, de, k);
    var c' := WithEntry(c, k, de);
    forall i | 0 <= i < Count(c') ensures Entry(c', i).inum == if i == k then j else Entry(c, i).inum {
      EntryAfter(c, k, de, i);
    }
    NamesAfter(c, c', k, j, Count(c'));
    assert VertexOf(Entered(v, p, name, j)[p]).names == NamesIn(c, Count(c)) + multiset{j};
  }

  lemma Counted1Graph(v: View, j: nat)
    requires j < NINODES
    ensures GraphOf(Counted1(v, j)) == Count1(GraphOf(v), j)
  {
    hide NamesIn;
  }

  /** A view in which j, which did not exist, is a new inode of any shape that is not
      yet linked anywhere. */
  ghost predicate Orphaned(v: View, v': View, j: nat) {
    && 0 < j < NINODES && v[j].typ == 0 && v'[j].typ != 0 && 0 <= v'[j].nlink <= 1
    && (forall k :: 0 <= k < NINODES && k != j ==> v'[k] == v[k])
    && forall k: nat :: Edge(GraphOf(v'), j, k) ==> 0 < k < NINODES && v'[k].typ != 0
  }

  lemma OrphanKept(v: View, v': View, s: set<nat>, j: nat)
    requires TreeOk(v) && Orphaned(v, v', j) && Reach(GraphOf(v), s) && Counted(GraphOf(v), s)
    ensures j !in s && Reach(GraphOf(v'), s) && Counted(GraphOf(v'), s)
  {
    hide NamesIn;
    if j in s {
      ReachExists(v, s, j);
      assert false;
    }
    Orphan(GraphOf(v), GraphOf(v'), s, j);
  }

  lemma OrphanBounds(v: View, v': View, j: nat)
    requires TreeOk(v) && Orphaned(v, v', j)
    ensures Existing(GraphOf(v'), NINODES) == Existing(GraphOf(v), NINODES) + 1
    ensures forall k :: 0 <= k < NINODES ==> 0 <= v'[k].nlink <= Existing(GraphOf(v), NINODES) + 1
  {
    hide NamesIn;
    ExistingAfter(GraphOf(v), GraphOf(v'), j, NINODES);
    forall k | 0 <= k < NINODES ensures 0 <= v'[k].nlink <= Existing(GraphOf(v), NINODES) + 1 {
      assert GraphOf(v)[k].nlink <= Existing(GraphOf(v), NINODES) + 1;
    }
  }

  /** A creation that fails halfway leaves an inode nobody can reach, and right counts. */
  lemma OrphanTree(v: View, v': View, j: nat)
    requires TreeOk(v) && Orphaned(v, v', j)
    ensures TreeOk(v')
  {
    hide Reach, Counted, NamesIn, Existing;
    var s :| Reach(GraphOf(v), s) && Counted(GraphOf(v), s);
    OrphanKept(v, v', s, j);
    OrphanBounds(v, v', j);
    OrphanNames(GraphOf(v), GraphOf(v'), j);
  }

  lemma OrphanNames(g: Graph, g': Graph, j: nat)
    requires NamesExist(g) && SameBut(g, g', j) && j < |g| && g[j].typ == 0 && g'[j].typ != 0
    requires forall k: nat :: Edge(g', j, k) ==> 0 < k < |g| && g'[k].typ != 0
    ensures NamesExist(g')
  {
    forall d: nat, k: nat | Edge(g', d, k) ensures 0 < k < |g'| && g'[k].typ != 0 {
      if d != j { assert Edge(g, d, k); }
    }
  }

  /** Linking the orphan j into p keeps what directories name and adds no inode. */
  lemma EnteredShape(v: View, p: nat, name: seq<Byte>, j: nat)
    requires p < NINODES && 0 < j < NINODES && Takes(v, p, name) && v[j].typ != 0 && NamesExist(GraphOf(v))
    ensures var w := Entered(v, p, name, j);
            && NamesExist(GraphOf(w)) && Existing(GraphOf(w), NINODES) == Existing(GraphOf(v), NINODES)
  {
    hide NamesIn, WithEntry, Lookup, FirstUnused, Entered;
    var g, g' := GraphOf(v), GraphOf(Entered(v, p, name, j));
    EnteredGraph(v, p, name, j);
    ExistingAfter(g, g', p, NINODES);
    forall d: nat, k: nat | Edge(g', d, k) ensures 0 < k < |g'| && g'[k].typ != 0 {
      assert Edge(g, d, k) || k == j;
    }
  }

  lemma CountedShape(v: View, j: nat)
    requires j < NINODES && NamesExist(GraphOf(v))
    ensures var w := Counted1(v, j);
            NamesExist(GraphOf(w)) && Existing(GraphOf(w), NINODES) == Existing(GraphOf(v), NINODES)
  {
    hide NamesIn;
    var g, g' := GraphOf(v), GraphOf(Counted1(v, j));
    ExistingAfter(g, g', j, NINODES);
    forall d: nat, k: nat | Edge(g', d, k) ensures 0 < k < |g'| && g'[k].typ != 0 {
      assert Edge(g, d, k);
    }
  }

  ghost function NewFile(v: View, p: nat, name: seq<Byte>, j: nat): View
    requires p < NINODES && j < NINODES
  {
    Counted1(Entered(v[j := Node(T_FILE, 0, [])], p, name, j), j)
  }

  /** A file that was created has one link; all other counts stay right. */
  lemma NewFileTree(v: View, p: nat, name: seq<Byte>, j: nat)
    requires TreeOk(v) && p < NINODES && 0 < j < NINODES && v[j].typ == 0 && v[p].typ == T_DIR && Takes(v, p, name)
    ensures TreeOk(NewFile(v, p, name, j))
  {
    hide NamesIn, Reach, Counted, Existing, Takes, Lookup, FirstUnused, WithEntry, Stored;
    var v1 := v[j := Node(T_FILE, 0, [])];
    var v2 := Entered(v1, p, name, j);
    var s :| Reach(GraphOf(v), s) && Counted(GraphOf(v), s);
    OrphanKept(v, v1, s, j);
    OrphanBounds(v, v1, j);
    OrphanNames(GraphOf(v), GraphOf(v1), j);
    assert Takes(v1, p, name) by { assert v1[p] == v[p]; TakesSame(v, v1, p, name); }
    EnteredGraph(v1, p, name, j);
    EnteredShape(v1, p, name, j);
    Counted1Graph(v2, j);
    CountedShape(v2, j);
    FileAdopted(GraphOf(v1), s, p, j);
  }

  lemma TakesSame(v: View, w: View, p: nat, name: seq<Byte>)
    requires p < NINODES && w[p] == v[p] && Takes(v, p, name)
    ensures Takes(w, p, name)
  {
  }

  const DOT: seq<Byte> := [46]
  const DOTDOT: seq<Byte> := [46, 46]

  /** The body of a new directory j in p. */
  ghost function NewDirBytes(j: nat, p: nat): seq<Byte>
    requires j < NINODES && p < NINODES
  {
    var c := WithEntry([], FirstUnused([], 0), Dirent(j, Stored(DOT)));
    WithEntry(c, FirstUnused(c, 0), Dirent(p, Stored(DOTDOT)))
  }

  ghost function NewDir(v: View, p: nat, name: seq<Byte>, j: nat): View
    requires p < NINODES && j < NINODES
  {
    Counted1(Counted1(Entered(v[j := Node(T_DIR, 1, NewDirBytes(j, p))], p, name, j), j), p)
  }

  lemma NewDirNames(v: View, j: nat, p: nat)
    requires 0 < j < NINODES && 0 < p < NINODES
    ensures VertexOf(Node(T_DIR, 1, NewDirBytes(j, p))).names == multiset{j, p}
    ensures DirOk(NewDirBytes(j, p))
    ensures Lookup(NewDirBytes(j, p), DOT) == Some(j) && Lookup(NewDirBytes(j, p), DOTDOT) == Some(p)
  {
    hide WithEntry, Entry, FirstUnused;
    var v0 := v[j := Node(T_DIR, 1, [])];
    LinkIsInsert([], DOT, j, DOT);
    LinkIsInsert([], DOT, j, DOTDOT);
    var c := WithEntry([], FirstUnused([], 0), Dirent(j, Stored(DOT)));
    assert Stored(DOT)[1] != Stored(DOTDOT)[1];
    LinkIsInsert(c, DOTDOT, p, DOT);
    LinkIsInsert(c, DOTDOT, p, DOTDOT);
    EnteredGraph(v0, j, DOT, j);
    var v1 := Entered(v0, j, DOT, j);
    EnteredGraph(v1, j, DOTDOT, p);
    assert GraphOf(v0)[j].names == multiset{};
    assert GraphOf(Entered(v1, j, DOTDOT, p))[j].names == multiset{j, p};
    assert Entered(v1, j, DOTDOT, p)[j] == Node(T_DIR, 1, NewDirBytes(j, p));
  }

  /** A directory that was created has two links and gives its parent one; all other
      counts stay right. */
  lemma NewDirTree(v: View, p: nat, name: seq<Byte>, j: nat)
    requires TreeOk(v) && 0 < p < NINODES && 0 < j < NINODES && v[j].typ == 0 && v[p].typ == T_DIR && Takes(v, p, name)
    ensures TreeOk(NewDir(v, p, name, j))
  {
    hide NamesIn, Reach, Counted, Existing, Takes, Lookup, FirstUnused, WithEntry, Stored, NewDirBytes, DirOk;
    var v1 := v[j := Node(T_DIR, 1, NewDirBytes(j, p))];
    var v2 := Entered(v1, p, name, j);
    var s :| Reach(GraphOf(v), s) && Counted(GraphOf(v), s);
    NewDirNames(v, j, p);
    assert GraphOf(v1)[j].names == multiset{j, p};
    OrphanKept(v, v1, s, j);
    OrphanBounds(v, v1, j);
    OrphanNames(GraphOf(v), GraphOf(v1), j);
    assert Takes(v1, p, name) by { assert v1[p] == v[p]; TakesSame(v, v1, p, name); }
    EnteredGraph(v1, p, name, j);
    EnteredShape(v1, p, name, j);
    Counted1Graph(v2, j);
    CountedShape(v2, j);
    Counted1Graph(Counted1(v2, j), p);
    CountedShape(Counted1(v2, j), p);
    DirAdopted(GraphOf(v1), s, p, j);
  }

  /** A new directory has two links, one of them its own entry, and its parent has one more; a new
      file has one link, and its parent as many as before. In both cases the parent has the new
      entry, and no other inode differs. */
  lemma NewDirIs(v: View, p: nat, name: seq<Byte>, j: nat)
    requires 0 < p < NINODES && 0 < j < NINODES && p != j && Takes(v, p, name) && DirOk(v[p].bytes)
    ensures var d, f := NewDir(v, p, name, j), NewFile(v, p, name, j);
            && d[j].typ == T_DIR && d[j].nlink == 2
            && Lookup(d[j].bytes, [46]) == Some(j) && Lookup(d[j].bytes, [46, 46]) == Some(p)
            && f[j] == Node(T_FILE, 1, [])
            && d[p].typ == T_DIR && f[p].typ == T_DIR && d[p].nlink == v[p].nlink + 1 && f[p].nlink == v[p].nlink
            && d[p].bytes == f[p].bytes && Lookup(d[p].bytes, name) == Some(j)
            && (forall other :: Stored(other) != Stored(name) ==>
                  Lookup(d[p].bytes, other) == Lookup(v[p].bytes, other))
            && forall k :: 0 <= k < NINODES && k != p && k != j ==> d[k] == v[k] && f[k] == v[k]
  {
    hide WithEntry, FirstUnused, Lookup, Stored, NewDirBytes;
    NewDirNames(v, j, p);
    LinkIsInsert(v[p].bytes, name, j, name);
    forall other | Stored(other) != Stored(name)
      ensures Lookup(NewDir(v, p, name, j)[p].bytes, other) == Lookup(v[p].bytes, other)
    {
      LinkIsInsert(v[p].bytes, name, j, other);
    }
  }

  // ---- Reachable means: some path leads there -------------------------------------------

  ghost predicate Reached(disk: Disk, j: nat)
    requires Sized(disk)
  {
    exists names :: Walk(disk, ROOTINO, names) == Some(j)
  }

  ghost function Reachable(disk: Disk): set<nat>
    requires Sized(disk)
  {
    set j: nat | 0 < j < NINODES && Reached(disk, j)
  }

  lemma {:induction false} WalkAppend(disk: Disk, j: nat, names: seq<seq<Byte>>, d: nat, name: seq<Byte>)
    requires Sized(disk) && Walk(disk, j, names) == Some(d) && 0 < d < NINODES
    ensures Walk(disk, j, names + [name]) ==
            match Child(disk, d, name) case None => None case Some(k) => Walk(disk, k, [])
    decreases |names|
  {
    hide Child;
    if names != [] {
      assert (names + [name])[1..] == names[1..] + [name];
      WalkAppend(disk, Child(disk, j, names[0]).value, names[1..], d, name);
    } else {
      assert names + [name] == [name];
    }
  }

  lemma {:induction false} WalkInside(disk: Disk, t: set<nat>, j: nat, names: seq<seq<Byte>>)
    requires Sized(disk) && Closed(GraphOf(ViewOf(disk)), t) && j in t && Walk(disk, j, names).Some?
    ensures Walk(disk, j, names).value in t
    decreases |names|
  {
    hide NodeOf, NamesIn, Lookup, ViewOf;
    if names != [] {
      var k := Child(disk, j, names[0]).value;
      ChildEdge(disk, j, names[0]);
      WalkInside(disk, t, k, names[1..]);
    }
  }

  lemma ChildEdge(disk: Disk, j: nat, name: seq<Byte>)
    requires Sized(disk) && 0 < j < NINODES && Child(disk, j, name).Some?
    ensures Edge(GraphOf(ViewOf(disk)), j, Child(disk, j, name).value)
  {
    hide NodeOf, Entry;
    var c := NodeOf(disk, j).bytes;
    assert ViewOf(disk)[j] == NodeOf(disk, j);
    EntryNamed(c, Count(c), Find(c, name, 0));
  }

  lemma EdgeChild(disk: Disk, d: nat, k: nat)
    requires Sized(disk) && DirsOk(disk) && 0 < d < NINODES && Edge(GraphOf(ViewOf(disk)), d, k)
    ensures 0 < k < NINODES && TypOf(disk, k) != 0 && exists name :: Child(disk, d, name) == Some(k)
  {
    hide Content, DinodeOf, Entry, DirOk, Lookup;
    var c := NodeOf(disk, d).bytes;
    assert ViewOf(disk)[d] == NodeOf(disk, d);
    assert DirFine(disk, d);
    NameExists(c, Count(c), k);
    var i :| 0 <= i < Count(c) && Entry(c, i).inum == k != 0;
    EntryName(c, i);
    LookupIsMap(c, Entry(c, i).name, k);
    assert Child(disk, d, Entry(c, i).name) == Some(k);
  }

  lemma EntryName(c: seq<Byte>, i: nat)
    requires i < Count(c)
    ensures Stored(Entry(c, i).name) == Entry(c, i).name
  {
  }

  /** What the root reaches in the graph is what paths reach. */
  lemma ReachIsPaths(disk: Disk)
    requires Sized(disk) && DirsOk(disk)
    ensures Reach(GraphOf(ViewOf(disk)), Reachable(disk))
  {
    hide NodeOf, NamesIn, ViewOf, Child;
    var g, s := GraphOf(ViewOf(disk)), Reachable(disk);
    assert Walk(disk, ROOTINO, []) == Some(ROOTINO);
    assert Reached(disk, ROOTINO);
    forall d: nat, k: nat | d in s && Edge(g, d, k) ensures k in s {
      var names :| Walk(disk, ROOTINO, names) == Some(d);
      EdgeChild(disk, d, k);
      var name :| Child(disk, d, name) == Some(k);
      WalkAppend(disk, ROOTINO, names, d, name);
      assert Walk(disk, ROOTINO, names + [name]) == Some(k);
    }
    forall t | Closed(g, t) ensures s <= t {
      forall j | j in s ensures j in t {
        var names :| Walk(disk, ROOTINO, names) == Some(j);
        WalkInside(disk, t, ROOTINO, names);
      }
    }
  }

  /** In a sound tree the link count of everything a path leads to is the number of
      entries that name it in the directories paths lead to. */
  lemma LinkCounts(disk: Disk, j: nat)
    requires Sized(disk) && DirsOk(disk) && TreeOk(ViewOf(disk)) && 0 < j < NINODES && Reached(disk, j)
    ensures NodeOf(disk, j).nlink == Named(GraphOf(ViewOf(disk)), Reachable(disk), j, NINODES)
  {
    hide NodeOf, NamesIn, Reach, Reached, Named;
    var g := GraphOf(ViewOf(disk));
    ReachIsPaths(disk);
    var s :| Reach(g, s) && Counted(g, s);
    ReachUnique(g, s, Reachable(disk));
    assert g[j].nlink == Named(g, s, j, NINODES);
  }

  // ---- mkdir and create ------------------------------------------------------------------

  /** Directories of a sound disk name inodes that exist, and hold whole entries. */
  lemma ViewNames(disk: Disk)
    requires Sized(disk) && DirsOk(disk)
    ensures NamesExist(GraphOf(ViewOf(disk)))
    ensures forall d :: 0 < d < NINODES && ViewOf(disk)[d].typ == T_DIR ==> |ViewOf(disk)[d].bytes| % ENTSIZE == 0
  {
    hide Content, DinodeOf, NamesIn;
    var v := ViewOf(disk);
    var g := GraphOf(v);
    forall d: nat, k: nat | Edge(g, d, k) ensures 0 < k < |g| && g[k].typ != 0 {
      assert d > 0 by { assert v[0].typ != T_DIR; }
      EdgeChild(disk, d, k);
      assert v[k] == NodeOf(disk, k);
    }
    forall d | 0 < d < NINODES && v[d].typ == T_DIR ensures |v[d].bytes| % ENTSIZE == 0 {
      assert DirFine(disk, d);
      assert v[d] == NodeOf(disk, d);
    }
  }

  lemma NodesTrans(disk: Disk, disk1: Disk, disk2: Disk, j: nat)
    requires NodesKept(disk, disk1, j) && NodesKept(disk1, disk2, j)
    ensures NodesKept(disk, disk2, j)
  {
    hide NodeOf;
  }

  lemma PtrsTrans(disk: Disk, slots: seq<ISlot>, disk1: Disk, slots1: seq<ISlot>, disk2: Disk, slots2: seq<ISlot>,
                  j: nat)
    requires PtrsKept(disk, slots, disk1, slots1, j) && PtrsKept(disk1, slots1, disk2, slots2, j)
    ensures PtrsKept(disk, slots, disk2, slots2, j)
  {
    hide CurPtrs, InSync;
    forall k | 0 < k < NINODES && k != j ensures PtrsSame(disk, slots, disk2, slots2, k) {
      assert PtrsSame(disk, slots, disk1, slots1, k) && PtrsSame(disk1, slots1, disk2, slots2, k);
    }
  }

  /** The first entries of a directory go into its first block. */
  lemma FirstBlock(c: seq<Byte>, ptrs: set<nat>)
    requires FirstUnused(c, 0) <= 2
    ensures EntryFits(c) && EntryCost(c, ptrs) == (if 0 in ptrs then 0 else 1) && EntryWay(c, ptrs) == ptrs + {0}
  {
    hide FirstUnused;
  }

  /** The entries of a new directory and its first link: they take one block. */
  method FillDir(fs: FileSystem, i: nat, p: nat) returns (ok: bool)
    requires fs.Valid() && i < NINODE && fs.islots[i].refcnt > 0 && 0 < fs.islots[i].inum < NINODES && Sized(fs.bc.disk)
    requires NodeOf(fs.bc.disk, fs.islots[i].inum) == Node(T_DIR, 0, [])
    requires 0 < p < NINODES && TypOf(fs.bc.disk, p) != 0
    requires CurPtrs(fs.bc.disk, fs.islots, fs.islots[i].inum) == {}
    modifies fs, fs.bc
    ensures OnlyChanged(fs, i, old(fs.bc.disk), old(fs.islots))
    ensures ok <==> Room(old(fs.bc.disk)) > 0
    ensures ok ==> Room(fs.bc.disk) + 1 == Room(old(fs.bc.disk))
    ensures var j := old(fs.islots[i].inum);
            if ok then NodeOf(fs.bc.disk, j) == Node(T_DIR, 1, NewDirBytes(j, p))
            else NodeOf(fs.bc.disk, j).typ == T_DIR && NodeOf(fs.bc.disk, j).nlink == 0 && Full(fs.bc.disk)
  {
    hide FilesOk, SlotsOk, DirsOk, HeldOk, Content, DinodeOf, WithEntry, FirstUnused, Lookup, Stored, NodesKept,
      BlockAlloc.Full,
      CurPtrs, Room, EntryCost, EntryWay, EntryFits, PtrsKept;
    SlotRange(fs.own, fs.bc.disk, fs.islots, i);
    SmallDir(fs.islots[i].inum);
    FirstBlock([], {});
    FirstBlock(WithEntry([], 0, Dirent(fs.islots[i].inum, Stored(DOT))), {0});
    assert {} + {0} == {0};
    var j := fs.islots[i].inum;
    ghost var disk0, slots0 := fs.bc.disk, fs.islots;
    NodeTyp(disk0, j);
    ok := LinkChild(fs, i, DOT, j);
    ghost var disk1, slots1 := fs.bc.disk, fs.islots;
    if ok {
      StillExists(disk0, disk1, j, p);
      SlotsStay(slots0, slots1, i);
      ok := LinkChild(fs, i, DOTDOT, p);
      ghost var disk2, slots2 := fs.bc.disk, fs.islots;
      NodesTrans(disk0, disk1, disk2, j);
      HeldTrans(slots0, slots1, slots2);
      PtrsTrans(disk0, slots0, disk1, slots1, disk2, slots2, j);
      if ok {
        SlotsStay(slots1, slots2, i);
        SaveNlink(fs, i, 1);
        NodesTrans(disk0, disk2, fs.bc.disk, j);
        HeldTrans(slots0, slots2, fs.islots);
        PtrsTrans(disk0, slots0, disk2, slots2, fs.bc.disk, fs.islots, j);
      }
    }
  }

  /** A new directory has room for its first entries. */
  lemma SmallDir(j: nat)
    requires 0 < j < 65536
    ensures Lookup([], DOT) == None && FirstUnused([], 0) == 0
    ensures var c := WithEntry([], 0, Dirent(j, Stored(DOT)));
            Lookup(c, DOTDOT) == None && FirstUnused(c, 0) <= 1
  {
    hide WithEntry, Entry;
    LinkIsInsert([], DOT, j, DOTDOT);
    assert Stored(DOT)[1] != Stored(DOTDOT)[1];
    EntryAfter([], 0, Dirent(j, Stored(DOT)), 0);
  }

  lemma NodeTyp(disk: Disk, j: nat)
    requires Sized(disk) && 0 < j < NINODES
    ensures NodeOf(disk, j).typ == TypOf(disk, j)
  {
  }

  lemma StillExists(disk: Disk, disk': Disk, j: nat, p: nat)
    requires NodesKept(disk, disk', j) && 0 < j < NINODES && 0 < p < NINODES && TypOf(disk, p) != 0
    requires p == j ==> NodeOf(disk', j).typ != 0
    ensures TypOf(disk', p) != 0
  {
    hide DinodeOf, Content;
    assert p != j ==> NodeOf(disk', p) == NodeOf(disk, p);
  }

  lemma SlotsStay(slots: seq<ISlot>, slots': seq<ISlot>, i: nat)
    requires SameHeld(slots, slots') && IRefs(slots') == IRefs(slots) && i < |slots| && slots[i].refcnt > 0
    ensures |slots'| == |slots| && slots'[i].refcnt == slots[i].refcnt && slots'[i].inum == slots[i].inum
  {
    assert IRefs(slots')[i] == IRefs(slots)[i];
  }

  /** The view, the held slots and the reference counts after an operation that keeps
      every reference. */
  ghost predicate Now(fs: FileSystem, v: View, slots: seq<ISlot>)
    reads fs, fs.bc
  {
    && fs.Valid() && Sized(fs.bc.disk) && ViewOf(fs.bc.disk) == v
    && SameHeld(slots, fs.islots) && IRefs(fs.islots) == IRefs(slots)
  }

  /** Directory q can take the name: it is a directory that lacks it, has a place for the entry,
      and there are blocks for it. */
  ghost predicate CanEnter(v: View, q: nat, name: seq<Byte>, ptrs: set<nat>, room: nat)
    requires q < NINODES
  {
    Takes(v, q, name) && !NoRoom(v, q) && EntryCost(v[q].bytes, ptrs) <= room
  }

  lemma CanEnterIs(disk: Disk, q: nat, name: seq<Byte>, ptrs: set<nat>, room: nat)
    requires Sized(disk) && DirsOk(disk) && 0 < q < NINODES
    ensures CanEnter(ViewOf(disk), q, name, ptrs, room) <==> EntryTaken(NodeOf(disk, q), name, ptrs, room)
  {
    hide NodeOf, FirstUnused, Lookup, EntryCost, DirsOk;
    ViewNames(disk);
  }

  /** link_child in terms of the view. */
  method AddEntry(fs: FileSystem, p: nat, name: seq<Byte>, j: nat) returns (ok: bool)
    requires fs.Valid() && Sized(fs.bc.disk) && p < NINODE && fs.islots[p].refcnt > 0
    requires 0 < j < NINODES && TypOf(fs.bc.disk, j) != 0
    modifies fs, fs.bc
    ensures 0 < old(fs.islots[p].inum) < NINODES
    ensures var q, v := old(fs.islots[p].inum), ViewOf(old(fs.bc.disk));
            if ok then Takes(v, q, name) && Now(fs, Entered(v, q, name, j), old(fs.islots))
            else Now(fs, v, old(fs.islots)) && (!Takes(v, q, name) || NoRoom(v, q) || Full(fs.bc.disk))
    ensures var q, v, ptrs := old(fs.islots[p].inum), ViewOf(old(fs.bc.disk)),
      CurPtrs(old(fs.bc.disk), old(fs.islots), old(fs.islots[p].inum));
            && (ok <==> CanEnter(v, q, name, ptrs, Room(old(fs.bc.disk))))
            && (ok ==>
                  && Room(fs.bc.disk) + EntryCost(v[q].bytes, ptrs) == Room(old(fs.bc.disk))
                  && CurPtrs(fs.bc.disk, fs.islots, q) == EntryWay(v[q].bytes, ptrs)
                  && InSync(fs.bc.disk, fs.islots, q))
            && PtrsKept(old(fs.bc.disk), old(fs.islots), fs.bc.disk, fs.islots, q)
  {
    hide FilesOk, DirsOk, HeldOk, SlotsOk, NodeOf, WithEntry, FirstUnused, Lookup, Stored, NodesKept, DinodeOf, ViewOf,
      GraphOf, NamesExist, CurPtrs, Room, EntryCost, EntryWay, PtrsKept, InSync;
    SlotRange(fs.own, fs.bc.disk, fs.islots, p);
    ghost var disk, q := fs.bc.disk, fs.islots[p].inum;
    ViewNames(disk);
    CanEnterIs(disk, q, name, CurPtrs(disk, fs.islots, q), Room(disk));
    ok := LinkChild(fs, p, name, j);
    ViewAfter(disk, fs.bc.disk, q);
  }

  /** inc_nlink in terms of the view. */
  method AddLink(fs: FileSystem, i: nat)
    requires fs.Valid() && Sized(fs.bc.disk) && i < NINODE && fs.islots[i].refcnt > 0
    requires fs.islots[i].inum < NINODES && ViewOf(fs.bc.disk)[fs.islots[i].inum].nlink < 32767
    modifies fs, fs.bc
    ensures 0 < old(fs.islots[i].inum) < NINODES
    ensures Now(fs, Counted1(ViewOf(old(fs.bc.disk)), old(fs.islots[i].inum)), old(fs.islots))
    ensures Room(fs.bc.disk) == Room(old(fs.bc.disk))
    ensures AllPtrsKept(old(fs.bc.disk), old(fs.islots), fs.bc.disk, fs.islots)
  {
    hide FilesOk, DirsOk, HeldOk, SlotsOk, NodeOf, NodesKept, DinodeOf, ViewOf, CurPtrs, Room, InSync;
    SlotRange(fs.own, fs.bc.disk, fs.islots, i);
    ghost var disk, j := fs.bc.disk, fs.islots[i].inum;
    LinkRoom(disk, j);
    IncNlink(fs, i);
    assert PtrsSame(disk, old(fs.islots), fs.bc.disk, fs.islots, j);
    ViewAfter(disk, fs.bc.disk, j);
  }

  ghost predicate AllPtrsKept(disk: Disk, slots: seq<ISlot>, disk': Disk, slots': seq<ISlot>) {
    forall k :: 0 < k < NINODES ==> PtrsSame(disk, slots, disk', slots', k)
  }

  lemma PtrsOn(disk: Disk, slots: seq<ISlot>, disk1: Disk, slots1: seq<ISlot>, disk2: Disk, slots2: seq<ISlot>, j: nat)
    requires PtrsKept(disk, slots, disk1, slots1, j) && AllPtrsKept(disk1, slots1, disk2, slots2)
    ensures PtrsKept(disk, slots, disk2, slots2, j)
    ensures 0 < j < NINODES ==> PtrsSame(disk1, slots1, disk2, slots2, j)
  {
    hide CurPtrs, InSync;
    forall k | 0 < k < NINODES && k != j ensures PtrsSame(disk, slots, disk2, slots2, k) {
      assert PtrsSame(disk, slots, disk1, slots1, k) && PtrsSame(disk1, slots1, disk2, slots2, k);
    }
  }

  lemma NowTrans(fs: FileSystem, v: View, slots: seq<ISlot>, slots1: seq<ISlot>)
    requires Now(fs, v, slots1) && SameHeld(slots, slots1) && IRefs(slots1) == IRefs(slots)
    ensures Now(fs, v, slots)
  {
    HeldTrans(slots, slots1, fs.islots);
  }

  /** The entry for a new inode and its links: one for the entry and, for a directory,
      one more for the parent that the new ".." names. */
  method LinkNew(fs: FileSystem, i: nat, p: nat, name: seq<Byte>, dir: bool) returns (ok: bool)
    requires fs.Valid() && i < NINODE && p < NINODE && i != p && Sized(fs.bc.disk)
    requires fs.islots[i].refcnt > 0 && fs.islots[p].refcnt > 0
    requires fs.islots[i].inum < NINODES && ViewOf(fs.bc.disk)[fs.islots[i].inum].nlink < 32767
    requires fs.islots[p].inum < NINODES && ViewOf(fs.bc.disk)[fs.islots[p].inum].nlink < 32767
    modifies fs, fs.bc
    ensures 0 < old(fs.islots[i].inum) < NINODES && 0 < old(fs.islots[p].inum) < NINODES
    ensures var j, q, v := old(fs.islots[i].inum), old(fs.islots[p].inum), ViewOf(old(fs.bc.disk));
            if ok then
              var w := Counted1(Entered(v, q, name, j), j);
              j != q && Takes(v, q, name) && Now(fs, if dir then Counted1(w, q) else w, old(fs.islots))
            else Now(fs, v, old(fs.islots)) && (!Takes(v, q, name) || NoRoom(v, q) || Full(fs.bc.disk))
    ensures var q, v, ptrs := old(fs.islots[p].inum), ViewOf(old(fs.bc.disk)),
      CurPtrs(old(fs.bc.disk), old(fs.islots), old(fs.islots[p].inum));
            && (ok <==> CanEnter(v, q, name, ptrs, Room(old(fs.bc.disk))))
            && (ok ==>
                  && Room(fs.bc.disk) + EntryCost(v[q].bytes, ptrs) == Room(old(fs.bc.disk))
                  && CurPtrs(fs.bc.disk, fs.islots, q) == EntryWay(v[q].bytes, ptrs)
                  && InSync(fs.bc.disk, fs.islots, q))
            && PtrsKept(old(fs.bc.disk), old(fs.islots), fs.bc.disk, fs.islots, q)
  {
    hide FilesOk, DirsOk, HeldOk, SlotsOk, WithEntry, DinodeOf, ViewOf, NoRoom, BlockAlloc.Full, SameHeld, IRefs,
      Takes, Cache.Ready,
      CurPtrs, Room, EntryCost, EntryWay, PtrsKept, CanEnter, InSync, AllPtrsKept;
    SlotsDiffer(fs.own, fs.bc.disk, fs.islots, i, p);
    HeldTyp(fs.bc.disk, fs.islots, i);
    var j, q := fs.islots[i].inum, fs.islots[p].inum;
    ghost var disk, slots := fs.bc.disk, fs.islots;
    ok := AddEntry(fs, p, name, j);
    ghost var disk1, slots1 := fs.bc.disk, fs.islots;
    SlotsStay(slots, slots1, i);
    SlotsStay(slots, slots1, p);
    if ok {
      AddLink(fs, i);
      ghost var w := ViewOf(fs.bc.disk);
      NowTrans(fs, w, slots, slots1);
      ghost var disk2, slots2 := fs.bc.disk, fs.islots;
      SlotsStay(slots, slots2, p);
      PtrsOn(disk, slots, disk1, slots1, disk2, slots2, q);
      if dir {
        AddLink(fs, p);
        PtrsOn(disk, slots, disk2, slots2, fs.bc.disk, fs.islots, q);
        NowTrans(fs, Counted1(w, q), slots, slots2);
      }
    }
  }

  lemma SlotsDiffer(own: Owners, disk: Disk, slots: seq<ISlot>, i: nat, p: nat)
    requires SlotsOk(own, disk, slots) && i < NINODE && p < NINODE && i != p && slots[i].refcnt > 0
    requires slots[p].refcnt > 0
    ensures 0 < slots[i].inum < NINODES && 0 < slots[p].inum < NINODES && slots[i].inum != slots[p].inum
    ensures |slots| == NINODE
  {
    hide SlotOk;
    SlotRange(own, disk, slots, i);
    SlotRange(own, disk, slots, p);
  }

  lemma LinkRoom(disk: Disk, j: nat)
    requires Sized(disk) && 0 < j < NINODES
    ensures OnDisk(disk, j).nlink == NodeOf(disk, j).nlink == ViewOf(disk)[j].nlink
  {
    hide Content, DinodeOf;
  }

  /** A creation that gave up: nothing a path leads to changed. If an inode that did not exist
      was to be had it is now in use without a name; if not, everything is as it was. */
  ghost predicate GaveUp(v: View, v': View, j: nat) {
    if NoInode(v) then v' == v else Orphaned(v, v', j)
  }

  /** Why a creation gives up: q is no directory that lacks the name, or something ran
      out (entries of q, inodes, blocks, slots of the inode cache). */
  ghost predicate Blocked(v: View, q: nat, name: seq<Byte>, refs: seq<nat>, disk': Disk)
    requires q < NINODES
  {
    !Takes(v, q, name) || NoRoom(v, q) || NoInode(v) || Full(disk') || Spare(refs) == 0
  }

  ghost predicate NoInode(v: View) { forall k :: 0 < k < NINODES ==> v[k].typ != 0 }

  /** An inode in use without a name is a change. */
  lemma GaveUpChanged(v: View, v': View, j: nat)
    requires GaveUp(v, v', j)
    ensures v' != v <==> !NoInode(v)
  {
    hide GraphOf;
  }

  /** A new directory named `name` can be made in q: an inode and a slot for it, a block for its
      own entries, and what CanEnter says. */
  ghost predicate CanMake(v: View, q: nat, name: seq<Byte>, ptrs: set<nat>, room: nat, spare: nat, own: nat)
    requires q < NINODES
  {
    !NoInode(v) && spare > 0 && own <= room && CanEnter(v, q, name, ptrs, room - own)
  }

  /** The view after ialloc. */
  lemma BornView(disk: Disk, disk': Disk, j: nat, typ: int)
    requires 0 < j < NINODES && NodesKept(disk, disk', j) && NodeOf(disk', j) == Node(typ, 0, []) && typ != 0
    requires TypOf(disk, j) == 0 && DirsOk(disk')
    ensures Sized(disk) && Sized(disk') && ViewOf(disk') == ViewOf(disk)[j := Node(typ, 0, [])]
    ensures Orphaned(ViewOf(disk), ViewOf(disk'), j) && ViewOf(disk)[j].typ == 0
  {
    hide NodesKept, DirsOk, NamesIn, Content, DinodeOf;
    ViewAfter(disk, disk', j);
    NodeTyp(disk, j);
    AnyOrphan(disk', ViewOf(disk), j);
  }

  /** Any unlinked inode on a sound disk is an orphan. */
  lemma AnyOrphan(disk': Disk, v: View, j: nat)
    requires Sized(disk') && DirsOk(disk') && 0 < j < NINODES && v[j].typ == 0
    requires NodeOf(disk', j).typ != 0 && 0 <= NodeOf(disk', j).nlink <= 1
    requires forall k :: 0 <= k < NINODES && k != j ==> ViewOf(disk')[k] == v[k]
    ensures Orphaned(v, ViewOf(disk'), j)
  {
    hide NodeOf, NamesIn, DirsOk;
    ViewNames(disk');
    forall k: nat | Edge(GraphOf(ViewOf(disk')), j, k) ensures 0 < k < NINODES && ViewOf(disk')[k].typ != 0 {
      assert GraphOf(ViewOf(disk'))[k] == VertexOf(ViewOf(disk')[k]);
    }
  }

  lemma HeldGrow(slots: seq<ISlot>, slots1: seq<ISlot>, slots2: seq<ISlot>, i: nat)
    requires SameHeld(slots, slots1) && SameHeld(slots1, slots2) && i < |slots| && slots[i].refcnt == 0
    requires IRefs(slots1) == IRefs(slots)[i := 1]
    ensures SameHeld(slots, slots2)
  {
    forall k | 0 <= k < |slots| && slots[k].refcnt > 0 ensures slots2[k].inum == slots[k].inum {
      assert IRefs(slots1)[k] == IRefs(slots)[k];
    }
  }

  lemma RoomFor(v: View, v1: View, j: nat, k: nat)
    requires TreeOk(v) && Orphaned(v, v1, j) && k < NINODES
    ensures 0 <= v1[k].nlink < 32767
  {
    hide Existing;
    OrphanBounds(v, v1, j);
  }

  method MkdirChild(fs: FileSystem, p: nat, name: seq<Byte>) returns (r: Option<nat>, ghost j: nat)
    requires fs.Valid() && Sized(fs.bc.disk) && TreeOk(ViewOf(fs.bc.disk)) && p < NINODE && fs.islots[p].refcnt > 0
    modifies fs, fs.bc
    ensures fs.Valid() && Sized(fs.bc.disk) && TreeOk(ViewOf(fs.bc.disk)) && SameHeld(old(fs.islots), fs.islots)
    ensures 0 < old(fs.islots[p].inum) < NINODES
    ensures r.None? ==>
      && IRefs(fs.islots) == IRefs(old(fs.islots)) && GaveUp(ViewOf(old(fs.bc.disk)), ViewOf(fs.bc.disk), j)
      && Blocked(ViewOf(old(fs.bc.disk)), old(fs.islots[p].inum), name, IRefs(old(fs.islots)), fs.bc.disk)
    ensures var q := old(fs.islots[p].inum);
            r.Some? <==>
              CanMake(ViewOf(old(fs.bc.disk)), q, name, CurPtrs(old(fs.bc.disk), old(fs.islots), q),
                      Room(old(fs.bc.disk)), Spare(IRefs(old(fs.islots))), 1)
    ensures r.Some? ==>
      var q, v := old(fs.islots[p].inum), ViewOf(old(fs.bc.disk));
      && r.value < NINODE && 0 < j < NINODES && fs.islots[r.value].inum == j && v[j].typ == 0 && Takes(v, q, name)
      && IRefs(fs.islots) == IRefs(old(fs.islots))[r.value := 1] && old(fs.islots[r.value].refcnt) == 0
      && ViewOf(fs.bc.disk) == NewDir(v, q, name, j)
  {
    hide FilesOk, DirsOk, HeldOk, SlotsOk, DinodeOf, ViewOf, Takes, NodeOf, TreeOk, NodesKept, Cache.Ready, Orphaned,
      Entered,
      NewDirBytes, SameHeld, IRefs, BlockAlloc.Full, NoInode, NoRoom, Spare, CurPtrs, Room, EntryCost, EntryWay,
        PtrsKept;
    SlotRange(fs.own, fs.bc.disk, fs.islots, p);
    ghost var disk, slots := fs.bc.disk, fs.islots;
    var q := fs.islots[p].inum;
    ghost var v := ViewOf(disk);
    HeldTyp(disk, slots, p);
    r, j := Ialloc(fs, T_DIR);
    if j != 0 {
      BornView(disk, fs.bc.disk, j, T_DIR);
      OrphanTree(v, ViewOf(fs.bc.disk), j);
      SomeInode(v, j);
    } else {
      AllExist(disk);
    }
    if r.None? {
      return;
    }
    ghost var disk1, slots1 := fs.bc.disk, fs.islots;
    NewSlot(slots, slots1, r.value, p);
    assert TypOf(disk1, q) != 0 by { HeldTyp(disk1, slots1, p); }
    PtrsAt(disk, slots, disk1, slots1, j, q);
    var ok := FillDir(fs, r.value, q);
    ghost var disk2, slots2 := fs.bc.disk, fs.islots;
    PtrsAt(disk1, slots1, disk2, slots2, j, q);
    ViewAfter(disk1, disk2, j);
    ghost var v2 := ViewOf(disk2);
    AnyOrphan(disk2, v, j);
    OrphanTree(v, v2, j);
    HeldGrow(slots, slots1, slots2, r.value);
    SlotsStay(slots1, slots2, r.value);
    SlotsStay(slots1, slots2, p);
    assert v2[q] == v[q];
    SameDir(v, v2, q, name);
    SameCanEnter(v, v2, q, name, CurPtrs(disk2, slots2, q), Room(disk2));
    if ok {
      RoomFor(v, v2, j, j);
      RoomFor(v, v2, j, q);
      ok := LinkNew(fs, r.value, p, name, true);
      HeldTrans(slots1, slots2, fs.islots);
      HeldGrow(slots, slots1, fs.islots, r.value);
      SlotsStay(slots1, fs.islots, r.value);
    }
    if !ok {
      ghost var slots3 := fs.islots;
      fs.Iput(r.value);
      HeldTrans(slots1, slots3, fs.islots);
      HeldGrow(slots, slots1, fs.islots, r.value);
      RefsBack(slots, slots1, fs.islots, r.value);
      return None, j;
    }
    assert v2 == v[j := Node(T_DIR, 1, NewDirBytes(j, q))];
    TakesDir(v, q, name);
    NewDirTree(v, q, name, j);
  }

  lemma SomeInode(v: View, j: nat)
    requires 0 < j < NINODES && v[j].typ == 0
    ensures !NoInode(v)
  {
  }

  lemma PtrsAt(disk: Disk, slots: seq<ISlot>, disk': Disk, slots': seq<ISlot>, j: nat, q: nat)
    requires PtrsKept(disk, slots, disk', slots', j) && 0 < q < NINODES && q != j
    ensures CurPtrs(disk', slots', q) == CurPtrs(disk, slots, q)
  {
    hide CurPtrs, InSync;
    assert PtrsSame(disk, slots, disk', slots', q);
  }

  lemma SameCanEnter(v: View, w: View, q: nat, name: seq<Byte>, ptrs: set<nat>, room: nat)
    requires q < NINODES && w[q] == v[q]
    ensures CanEnter(w, q, name, ptrs, room) == CanEnter(v, q, name, ptrs, room)
  {
    hide EntryCost;
    SameDir(v, w, q, name);
  }

  lemma SameDir(v: View, w: View, q: nat, name: seq<Byte>)
    requires q < NINODES && w[q] == v[q]
    ensures Takes(w, q, name) == Takes(v, q, name) && NoRoom(w, q) == NoRoom(v, q)
  {
  }

  lemma AllExist(disk: Disk)
    requires Sized(disk) && forall k :: 0 < k < NINODES ==> TypOf(disk, k) != 0
    ensures NoInode(ViewOf(disk))
  {
    hide Content, DinodeOf;
    forall k | 0 < k < NINODES ensures ViewOf(disk)[k].typ != 0 {
      NodeTyp(disk, k);
    }
  }

  lemma TakesDir(v: View, q: nat, name: seq<Byte>)
    requires q < NINODES && Takes(v, q, name)
    ensures v[q].typ == T_DIR
  {
  }

  lemma NewSlot(slots: seq<ISlot>, slots1: seq<ISlot>, i: nat, p: nat)
    requires SameHeld(slots, slots1) && i < |slots| && p < |slots| && slots[i].refcnt == 0 && slots[p].refcnt > 0
    requires IRefs(slots1) == IRefs(slots)[i := 1]
    ensures |slots1| == |slots| && slots1[i].refcnt == 1 && slots1[p].refcnt == slots[p].refcnt
    ensures slots1[p].inum == slots[p].inum && i != p
  {
    assert IRefs(slots1)[i] == 1;
    assert IRefs(slots1)[p] == IRefs(slots)[p];
  }

  /** Giving up the only reference to a slot that was free restores the counts. */
  lemma RefsBack(slots: seq<ISlot>, slots1: seq<ISlot>, slots': seq<ISlot>, i: nat)
    requires |slots1| == |slots| == |slots'| && i < |slots| && slots[i].refcnt == 0
    requires IRefs(slots1) == IRefs(slots)[i := 1] && IRefs(slots') == IRefs(slots1)[i := 0]
    ensures IRefs(slots') == IRefs(slots)
  {
  }
}
