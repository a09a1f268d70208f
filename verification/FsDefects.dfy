/** Two runs from boot that end where one would not expect: an inode in use that no path leads
    to, and a block that only an inode in memory knows. */
module FsDefects {
  import opened Prelude
  import opened FsLayout
  import opened BufferCache
  import opened BlockAlloc
  import opened BlockMap
  import opened InodeStore
  import opened FileIo
  import opened Directory
  import opened Inodes
  import opened FsOps
  import opened Paths
  import opened FsTree
  import opened FsCreate
  import opened LinkGraph

  /** The names that the runs use. */
  function Name(k: nat): seq<Byte>
    requires k < 20
  {
    [97 + k]
  }

  lemma {:induction false} OneName(k: nat)
    requires k < 20
    ensures Components([SLASH] + Name(k)) == [Name(k)]
  {
    var path := [SLASH] + Name(k);
    assert path[1..] == Name(k);
    assert SkipSlashes(Name(k)) == Name(k);
    assert Name(k)[1..] == [];
    assert FirstSlash(Name(k)) == 1 + FirstSlash([]) == 1;
    assert SkipSlashes(path) == Name(k);
    assert Name(k)[..1] == Name(k);
    assert SkipElem([]) == None;
    assert Components([]) == [];
    assert SkipElem(path) == Some((Name(k), []));
  }

  lemma {:induction false} TwoNames(k: nat, m: nat)
    requires k < 20 && m < 20
    ensures Components([SLASH] + Name(k) + [SLASH] + Name(m)) == [Name(k), Name(m)]
  {
    var path, rest := [SLASH] + Name(k) + [SLASH] + Name(m), [SLASH] + Name(m);
    var p := Name(k) + rest;
    assert path[1..] == p;
    assert SkipSlashes(p) == p;
    assert p[1..] == rest;
    assert FirstSlash(rest) == 0;
    assert FirstSlash(p) == 1;
    assert p[..1] == Name(k);
    assert SkipSlashes(path) == p;
    assert SkipElem(path) == Some((Name(k), rest));
    OneName(m);
    assert Components(path) == [Name(k)] + Components(rest);
  }

  // ---- A root directory with a few files ------------------------------------------------

  /** At most k files beside the two entries of the root; the names from number k on are free. */
  ghost predicate FewFiles(v: View, k: nat) {
    var c := v[ROOTINO].bytes;
    && k < 20 && v[ROOTINO].typ == T_DIR && DirOk(c) && Count(c) <= 2 + k
    && (forall m: nat :: k <= m < 20 ==> Lookup(c, Name(m)) == None)
    && (forall i :: k + 1 < i < NINODES ==> v[i].typ == 0)
  }

  lemma NamesDiffer(k: nat, m: nat)
    requires k < 20 && m < 20 && k != m
    ensures Stored(Name(k)) != Stored(Name(m)) && Stored(Name(k)) != Stored(DOT) && Stored(Name(k)) != Stored(DOTDOT)
  {
    assert Stored(Name(k))[0] == 97 + k && Stored(Name(m))[0] == 97 + m;
    assert Stored(DOT)[0] == 46 && Stored(DOTDOT)[0] == 46;
  }

  lemma NoFiles(v: View)
    requires v[ROOTINO] == Node(T_DIR, 2, NewDirBytes(ROOTINO, ROOTINO))
    requires forall k :: 0 <= k < NINODES && k != ROOTINO ==> v[k] == Node(0, 0, [])
    ensures FewFiles(v, 0)
  {
    hide WithEntry, Entry, FirstUnused, Find, Stored;
    SmallDir(ROOTINO);
    var c := WithEntry([], FirstUnused([], 0), Dirent(ROOTINO, Stored(DOT)));
    var d := NewDirBytes(ROOTINO, ROOTINO);
    LinkIsInsert([], DOT, ROOTINO, DOTDOT);
    LinkIsInsert(c, DOTDOT, ROOTINO, DOT);
    EntryCount([], Dirent(ROOTINO, Stored(DOT)));
    EntryCount(c, Dirent(ROOTINO, Stored(DOTDOT)));
    forall m: nat | m < 20 ensures Lookup(d, Name(m)) == None {
      NamesDiffer(m, if m == 0 then 1 else 0);
      LinkIsInsert([], DOT, ROOTINO, Name(m));
      LinkIsInsert(c, DOTDOT, ROOTINO, Name(m));
    }
  }

  lemma EntryCount(c: seq<Byte>, de: Dirent)
    requires DirOk(c) && de.inum < 65536 && |de.name| == DIRSIZ
    ensures Count(WithEntry(c, FirstUnused(c, 0), de)) <= Count(c) + 1
  {
    hide WithEntry, Entry;
    EntryAfter(c, FirstUnused(c, 0), de, FirstUnused(c, 0));
  }

  /** One more file. */
  lemma OneMoreFile(v: View, k: nat, j: nat)
    requires FewFiles(v, k) && k < 19 && 0 < j < NINODES && v[j].typ == 0 && forall m :: 0 < m < j ==> v[m].typ != 0
    ensures FewFiles(NewFile(v, ROOTINO, Name(k), j), k + 1)
    ensures NewFile(v, ROOTINO, Name(k), j)[j] == Node(T_FILE, 1, [])
    ensures j <= k + 2
  {
    hide WithEntry, Entry, FirstUnused, Find, Stored;
    var c, w := v[ROOTINO].bytes, NewFile(v, ROOTINO, Name(k), j);
    assert v[k + 2].typ == 0;
    LinkIsInsert(c, Name(k), j, DOT);
    EntryCount(c, Dirent(j, Stored(Name(k))));
    forall m: nat | k + 1 <= m < 20 ensures Lookup(w[ROOTINO].bytes, Name(m)) == None {
      NamesDiffer(k, m);
      LinkIsInsert(c, Name(k), j, Name(m));
    }
  }

  /** The next file can be made and costs no block. */
  lemma NextFits(v: View, k: nat, room: nat, spare: nat)
    requires FewFiles(v, k) && k < 19 && spare > 0
    ensures CanMake(v, ROOTINO, Name(k), {0}, room, spare, 0)
    ensures EntryCost(v[ROOTINO].bytes, {0}) == 0 && EntryWay(v[ROOTINO].bytes, {0}) == {0}
  {
    hide Entry, Find, Stored;
    var c := v[ROOTINO].bytes;
    assert v[k + 2].typ == 0;
    assert FirstUnused(c, 0) * ENTSIZE / BSIZE == 0;
  }

  ghost predicate Ready(fs: FileSystem, root: nat, k: nat)
    reads fs, fs.bc
  {
    && fs.Valid() && Sized(fs.bc.disk) && TreeOk(ViewOf(fs.bc.disk)) && FewFiles(ViewOf(fs.bc.disk), k)
    && root < NINODE == |fs.islots| && fs.islots[root].refcnt > 0 && fs.islots[root].inum == ROOTINO
    && CurPtrs(fs.bc.disk, fs.islots, ROOTINO) == {0}
  }

  /** Where the paths of the runs lead before the next file is made. */
  lemma NotYet(disk: Disk, slots: seq<ISlot>, root: nat, k: nat)
    requires Sized(disk) && FewFiles(ViewOf(disk), k) && root < |slots| && slots[root].refcnt > 0
    requires slots[root].inum == ROOTINO
    ensures var path, names := [SLASH] + Name(k), [Name(k)];
            && Components(path) == names && Init(names) == [] && Last(names) == Name(k)
            && Walk(disk, ROOTINO, []) == Some(ROOTINO) && Walk(disk, ROOTINO, names) == None
            && Found(disk, slots, ROOTINO, path) && HeldNow(slots, ROOTINO)
  {
    hide NodeOf, Lookup;
    OneName(k);
    assert Child(disk, ROOTINO, Name(k)) == None;
  }

  /** create of the next file. */
  method MakeFile(fs: FileSystem, root: nat, k: nat) returns (f: nat, ghost j: nat)
    requires Ready(fs, root, k) && k < 19 && Spare(IRefs(fs.islots)) > 0
    modifies fs, fs.bc
    ensures Ready(fs, root, k + 1) && SameHeld(old(fs.islots), fs.islots) && |old(fs.islots)| == NINODE
    ensures f < NINODE && IRefs(fs.islots) == Plus(IRefs(old(fs.islots)), f) && fs.islots[f].inum == j
    ensures 1 < j < NINODES && ViewOf(fs.bc.disk)[j] == Node(T_FILE, 1, []) && ViewOf(old(fs.bc.disk))[j].typ == 0
    ensures CurPtrs(fs.bc.disk, fs.islots, j) == {} && InSync(fs.bc.disk, fs.islots, j)
    ensures forall i :: 1 < i < NINODES && i != j ==>
      && ViewOf(fs.bc.disk)[i] == ViewOf(old(fs.bc.disk))[i]
      && PtrsSame(old(fs.bc.disk), old(fs.islots), fs.bc.disk, fs.islots, i)
    ensures Room(fs.bc.disk) == Room(old(fs.bc.disk))
    ensures Walk(fs.bc.disk, ROOTINO, [Name(k)]) == Some(j)
  {
    hide FilesOk, DirsOk, HeldOk, SlotsOk, ViewOf, NodeOf, NewFile, TreeOk, FewFiles, CanMake, CurPtrs, Room, InSync,
      EntryCost, EntryWay,
      Walk, Components, Found, Spare, Cache.Ready, IRefs, PathsKept, Name;
    ghost var disk, slots := fs.bc.disk, fs.islots;
    var path := [SLASH] + Name(k);
    NotYet(disk, slots, root, k);
    NextFits(ViewOf(disk), k, Room(disk), Spare(IRefs(slots)));
    RootIsDir(ViewOf(disk), k);
    var r;
    r, j := Create(fs, root, path);
    f := r.value;
    OneMoreFile(ViewOf(disk), k, j);
    NewFileElse(ViewOf(disk), k, j);
  }

  lemma RootIsDir(v: View, k: nat)
    requires FewFiles(v, k)
    ensures v[ROOTINO].typ != 0
  {
  }

  lemma NewFileElse(v: View, k: nat, j: nat)
    requires k < 20 && j < NINODES
    ensures forall i :: 0 <= i < NINODES && i != j && i != ROOTINO ==> NewFile(v, ROOTINO, Name(k), j)[i] == v[i]
  {
  }

  // ---- An inode without a name ------------------------------------------------------------

  lemma Unreached(disk: Disk, v: View, j: nat)
    requires Sized(disk) && DirsOk(disk) && TreeOk(v) && Orphaned(v, ViewOf(disk), j) && TreeOk(ViewOf(disk))
    ensures 0 < j < NINODES && TypOf(disk, j) != 0 && !Reached(disk, j)
  {
    hide NodeOf, NamesIn, Reach, Counted, GraphOf, Reached, DirsOk;
    var s :| Reach(GraphOf(v), s) && Counted(GraphOf(v), s);
    OrphanKept(v, ViewOf(disk), s, j);
    ReachIsPaths(disk);
    ReachUnique(GraphOf(ViewOf(disk)), s, Reachable(disk));
    NodeTyp(disk, j);
    assert j !in Reachable(disk);
  }

  /** A path through a regular file: the walk finds the file, and no name in it. */
  lemma ThroughFile(disk: Disk, slots: seq<ISlot>, root: nat, f: nat, k: nat, m: nat, j: nat)
    requires Sized(disk) && k < 20 && m < 20 && 0 < j < NINODES && ViewOf(disk)[j].typ != T_DIR
    requires root < |slots| && slots[root].refcnt > 0 && slots[root].inum == ROOTINO
    requires f < |slots| && slots[f].refcnt > 0 && slots[f].inum == j && Walk(disk, ROOTINO, [Name(k)]) == Some(j)
    ensures var path, names := [SLASH] + Name(k) + [SLASH] + Name(m), [Name(k), Name(m)];
            && Components(path) == names && Init(names) == [Name(k)] && Last(names) == Name(m)
            && Walk(disk, ROOTINO, names) == None && Found(disk, slots, ROOTINO, path)
            && !Takes(ViewOf(disk), j, Name(m))
  {
    hide NodeOf, Lookup, Name;
    TwoNames(k, m);
    var names := [Name(k), Name(m)];
    assert Init(names) == [Name(k)];
    assert Child(disk, j, Name(m)) == None;
    assert [Name(k)][1..] == [] && names[1..] == [Name(m)] && [Name(m)][1..] == [];
    assert Child(disk, ROOTINO, Name(k)).Some? && Walk(disk, Child(disk, ROOTINO, Name(k)).value, []) == Some(j);
    assert Child(disk, ROOTINO, Name(k)) == Some(j);
    assert Walk(disk, ROOTINO, names) == Walk(disk, j, [Name(m)]);
    assert HeldNow(slots, ROOTINO) && HeldNow(slots, j);
    assert WalkFits(disk, slots, j, []);
    assert WalkFits(disk, slots, ROOTINO, [Name(k)]);
  }

  /** After boot: create "/a", then create "/a/b". The second call fails, and an inode is in use
      that no path leads to. */
  method OrphanRun() returns (fs: FileSystem, made: nat, failed: Option<nat>, ghost j: nat)
    ensures fresh(fs) && fs.Valid() && Sized(fs.bc.disk) && failed == None
    ensures 0 < j < NINODES && TypOf(fs.bc.disk, j) != 0 && !Reached(fs.bc.disk, j)
  {
    hide FilesOk, HeldOk, SlotsOk, ViewOf, NodeOf, NewFile, TreeOk, FewFiles, CurPtrs, Room, InSync, EntryCost,
      EntryWay,
      Walk, Components, Found, Spare, Cache.Ready, IRefs, PathsKept, Name, DirsOk, NewDirBytes, Orphaned, Takes,
        NoInode, CanMake;
    var root;
    fs, root := MakeRoot();
    NoFiles(ViewOf(fs.bc.disk));
    RootHeld(fs.islots, root);
    made, j := MakeFile(fs, root, 0);
    MadeHeld(fs.islots, made);
    ghost var disk, slots, file, v := fs.bc.disk, fs.islots, j, ViewOf(fs.bc.disk);
    ThroughFile(disk, slots, root, made, 0, 1, file);
    NoTakes(v, file, Name(1));
    FreeInode(v, 1);
    failed, j := Create(fs, root, [SLASH] + Name(0) + [SLASH] + Name(1));
    Unreached(fs.bc.disk, v, j);
  }

  lemma RootHeld(slots: seq<ISlot>, root: nat)
    requires root < NINODE == |slots| && IRefs(slots) == seq(NINODE, _ => 0)[root := 1]
    ensures slots[root].refcnt == 1 && Spare(IRefs(slots)) > 1
  {
    var refs := IRefs(slots);
    assert slots[root].refcnt == refs[root];
    var i := if root == 0 then 1 else 0;
    SpareTaken(refs, i);
    var refs' := refs[i := 1];
    SpareCounts(refs', if root == 2 || i == 2 then 3 else 2);
  }

  lemma MadeHeld(slots: seq<ISlot>, f: nat)
    requires f < |slots| && exists refs :: |refs| == |slots| && IRefs(slots) == Plus(refs, f)
    ensures slots[f].refcnt > 0
  {
    assert slots[f].refcnt == IRefs(slots)[f];
  }

  lemma NoTakes(v: View, q: nat, name: seq<Byte>)
    requires q < NINODES && !Takes(v, q, name)
    ensures forall ptrs, room, spare, own :: !CanMake(v, q, name, ptrs, room, spare, own)
  {
  }

  lemma FreeInode(v: View, k: nat)
    requires FewFiles(v, k)
    ensures !NoInode(v)
  {
    assert v[k + 2].typ == 0;
  }

  // ---- A block only memory knows ------------------------------------------------------------

  /** The pointers of a file of b blocks. */
  ghost function FirstPtrs(b: nat): set<nat> { Range(0, if b <= NDIRECT then b else b + 1) }

  /** A file that grows from b blocks by k takes one block more if it comes to need the
      indirect block. */
  lemma {:induction false} GrowCost(b: nat, k: nat)
    ensures Cost(FirstPtrs(b), b, k) == k + if b <= NDIRECT < b + k then 1 else 0
    decreases k
  {
    hide FirstPtrs, WithBlock, Missing;
    if k > 0 {
      NextPtrs(b);
      GrowCost(b + 1, k - 1);
    }
  }

  lemma NextPtrs(b: nat)
    ensures WithBlock(FirstPtrs(b), b) == FirstPtrs(b + 1) && Missing(FirstPtrs(b), b) == if b == NDIRECT then 2 else 1
  {
    hide FirstPtrs;
    forall k: nat ensures k in WithBlock(FirstPtrs(b), b) <==> k in FirstPtrs(b + 1) {
      InFirst(b, k);
      InFirst(b + 1, k);
    }
    InFirst(b, Slot(b));
    InFirst(b, NDIRECT);
    assert forall k :: k in WithBlock(FirstPtrs(b), b) <==> k in FirstPtrs(b + 1);
  }

  lemma InFirst(b: nat, k: nat)
    ensures k in FirstPtrs(b) <==> k < if b <= NDIRECT then b else b + 1
  {
  }

  lemma NewCost(k: nat)
    ensures WriteCost({}, 0, 0, k * BSIZE) == (if k > NDIRECT then k + 1 else k)
  {
    assert FirstPtrs(0) == {};
    GrowCost(0, k);
    assert Blocks(0, k * BSIZE) == k;
  }

  /** A new file of `blocks` blocks, closed again. File a, in slot s, is not touched. */
  method FillFile(fs: FileSystem, root: nat, k: nat, blocks: nat, s: nat, ghost a: nat)
    requires Ready(fs, root, k) && k < 19 && Spare(IRefs(fs.islots)) > 0 && 0 < blocks <= MAXFILE
    requires Empty(fs, s, a) && (if blocks > NDIRECT then blocks + 1 else blocks) <= Room(fs.bc.disk)
    modifies fs, fs.bc
    ensures Ready(fs, root, k + 1) && Empty(fs, s, a) && IRefs(fs.islots) == IRefs(old(fs.islots))
    ensures Room(fs.bc.disk) + (if blocks > NDIRECT then blocks + 1 else blocks) == Room(old(fs.bc.disk))
  {
    hide FilesOk, DirsOk, HeldOk, SlotsOk, ViewOf, NodeOf, TreeOk, FewFiles, CurPtrs, Room, InSync, Spare,
      Cache.Ready, IRefs, Name, Walk,
      WriteCost, FillCost, WroteOrNot, PtrsKept, DropSafe, CurKept, Clean, NodesKept, Zeros;
    ghost var slots0 := fs.islots;
    var f;
    ghost var j;
    f, j := MakeFile(fs, root, k);
    ghost var disk1, slots1, v1 := fs.bc.disk, fs.islots, ViewOf(fs.bc.disk);
    SlotFacts(slots0, slots1, f, s, root);
    NodeTyp(disk1, j);
    NewCost(blocks);
    ZerosLength(blocks * BSIZE);
    var n := WriteFile(fs, f, 0, Zeros(blocks * BSIZE));
    ghost var disk2, slots2 := fs.bc.disk, fs.islots;
    ViewAfter(disk1, disk2, j);
    WriteKeepsTree(v1, ViewOf(disk2), j);
    StillFew(v1, ViewOf(disk2), k + 1, j);
    OthersSame(disk1, slots1, disk2, slots2, j, a);
    SlotsStay(slots1, slots2, f);
    SlotsStay(slots1, slots2, s);
    SlotsStay(slots1, slots2, root);
    NotStranded(blocks * BSIZE, Room(disk1));
    SyncDrop(fs.own, disk2, slots2, f);
    fs.Iput(f);
    GivenBack(slots0, slots2, fs.islots, f, s, root);
    CurPtrsSame(disk2, slots2, fs.islots, ROOTINO);
    CurPtrsSame(disk2, slots2, fs.islots, a);
    SyncSame(disk2, slots2, fs.islots, a);
  }

  /** File a is in slot s, empty, without pointers and as its record. */
  ghost predicate Empty(fs: FileSystem, s: nat, a: nat)
    reads fs, fs.bc
  {
    && s < NINODE == |fs.islots| && fs.islots[s].refcnt > 0 && fs.islots[s].inum == a && 1 < a < NINODES
    && Sized(fs.bc.disk) && ViewOf(fs.bc.disk)[a] == Node(T_FILE, 1, [])
    && CurPtrs(fs.bc.disk, fs.islots, a) == {} && InSync(fs.bc.disk, fs.islots, a)
  }

  lemma SlotFacts(slots: seq<ISlot>, slots': seq<ISlot>, f: nat, s: nat, root: nat)
    requires |slots| == |slots'| && f < |slots| && s < |slots| && root < |slots| && SameHeld(slots, slots')
    requires IRefs(slots') == Plus(IRefs(slots), f) && slots[s].refcnt > 0 && slots[root].refcnt > 0
    ensures slots'[f].refcnt > 0 && slots'[s].refcnt > 0 && slots'[root].refcnt > 0
    ensures slots'[s].inum == slots[s].inum && slots'[root].inum == slots[root].inum
  {
    assert slots'[f].refcnt == IRefs(slots')[f] && slots'[s].refcnt == IRefs(slots')[s] &&
      slots'[root].refcnt == IRefs(slots')[root];
  }

  lemma GivenBack(slots: seq<ISlot>, slots2: seq<ISlot>, slots3: seq<ISlot>, f: nat, s: nat, root: nat)
    requires |slots| == |slots2| == |slots3| && f < |slots| && s < |slots| && root < |slots| && SameHeld(slots2, slots3)
    requires IRefs(slots2) == Plus(IRefs(slots), f) && IRefs(slots3) == IRefs(slots2)[f := slots2[f].refcnt - 1]
    requires slots[s].refcnt > 0 && slots[root].refcnt > 0
    ensures IRefs(slots3) == IRefs(slots) && slots3[s].refcnt > 0 && slots3[root].refcnt > 0
    ensures slots3[s].inum == slots2[s].inum && slots3[root].inum == slots2[root].inum
  {
    assert slots2[f].refcnt == IRefs(slots2)[f];
    assert IRefs(slots3) == IRefs(slots);
    assert slots3[s].refcnt == IRefs(slots3)[s] && slots3[root].refcnt == IRefs(slots3)[root];
    assert slots2[s].refcnt == IRefs(slots2)[s] && slots2[root].refcnt == IRefs(slots2)[root];
  }

  lemma StillFew(v: View, v': View, k: nat, j: nat)
    requires FewFiles(v, k) && 1 < j < NINODES && v' == v[j := v[j].(bytes := v'[j].bytes)]
    ensures FewFiles(v', k)
  {
  }

  lemma OthersSame(disk: Disk, slots: seq<ISlot>, disk': Disk, slots': seq<ISlot>, j: nat, a: nat)
    requires PtrsKept(disk, slots, disk', slots', j) && 1 < j < NINODES && 1 < a < NINODES && a != j
    ensures PtrsSame(disk, slots, disk', slots', a) && PtrsSame(disk, slots, disk', slots', ROOTINO)
  {
    hide CurPtrs, InSync;
  }

  lemma SyncSame(disk: Disk, slots: seq<ISlot>, slots': seq<ISlot>, a: nat)
    requires CurKept(disk, slots, slots') && a < NINODES
    ensures InSync(disk, slots', a) <==> InSync(disk, slots, a)
  {
    hide CurAddrs, OnDisk;
  }

  lemma NotStranded(n: nat, room: nat)
    ensures !Strands({}, 0, 0, n, room)
  {
  }

  /** After boot: create "/a". */
  method FirstFile() returns (fs: FileSystem, root: nat, s: nat, ghost a: nat)
    ensures fresh(fs) && fresh(fs.bc) && Ready(fs, root, 1) && Empty(fs, s, a) && Spare(IRefs(fs.islots)) > 0
    ensures Room(fs.bc.disk) == 1983
  {
    hide FilesOk, DirsOk, HeldOk, SlotsOk, ViewOf, NodeOf, TreeOk, FewFiles, CurPtrs, Room, InSync, Spare, Cache.Ready,
      IRefs, Name, Walk, NewDirBytes;
    fs, root := MakeRoot();
    NoFiles(ViewOf(fs.bc.disk));
    RootHeld(fs.islots, root);
    ghost var refs := IRefs(fs.islots);
    s, a := MakeFile(fs, root, 0);
    SparePinned(refs, s);
    MadeHeld(fs.islots, s);
  }

  /** After boot: create "/a" and fill the disk with other files up to its last block. */
  method AlmostFull() returns (fs: FileSystem, s: nat, ghost a: nat)
    ensures fresh(fs) && fresh(fs.bc) && fs.Valid() && Empty(fs, s, a) && Room(fs.bc.disk) == 1
  {
    hide FilesOk, DirsOk, HeldOk, SlotsOk, ViewOf, NodeOf, TreeOk, FewFiles, CurPtrs, Room, InSync, Spare,
      Cache.Ready, IRefs, Name, Walk,
      NewDirBytes;
    var root;
    fs, root, s, a := FirstFile();
    var k: nat := 1;
    while k < 8
      invariant 1 <= k <= 8 && fresh(fs) && fresh(fs.bc) && Ready(fs, root, k) && Empty(fs, s, a)
      invariant Spare(IRefs(fs.islots)) > 0
      invariant Room(fs.bc.disk) == 1983 - 269 * (k - 1)
    {
      FillFile(fs, root, k, MAXFILE, s, a);
      k := k + 1;
    }
    FillFile(fs, root, 8, 98, s, a);
  }

  /** Then write beyond the end of "/a". The write fails, the last block belongs to "/a" in
      memory, and the record of "/a" does not say so. */
  method StrandedRun() returns (fs: FileSystem, n: int, ghost a: nat)
    ensures fresh(fs) && fs.Valid() && 0 < a < NINODES && n == 0
    ensures Room(fs.bc.disk) == 0 && !InSync(fs.bc.disk, fs.islots, a)
  {
    hide FilesOk, DirsOk, HeldOk, SlotsOk, ViewOf, NodeOf, CurPtrs, Room, InSync, Cache.Ready, IRefs, WriteCost,
      FillCost, WroteOrNot,
      PtrsKept, NodesKept, BlockAlloc.Full;
    var s;
    fs, s, a := AlmostFull();
    NodeTyp(fs.bc.disk, a);
    LastBlock();
    ghost var disk := fs.bc.disk;
    n := WriteFile(fs, s, 2 * BSIZE, [1]);
    ViewAfter(disk, fs.bc.disk, a);
    NothingWritten(NodeOf(disk, a).bytes, NodeOf(fs.bc.disk, a).bytes, 2 * BSIZE, [1], n);
    FullRoom(fs.bc.disk);
  }

  lemma NothingWritten(c: seq<Byte>, c': seq<Byte>, off: nat, src: seq<Byte>, n: nat)
    requires WroteOrNot(c, c', off, src, n, false)
    ensures n == 0
  {
  }

  /** One block is not enough for a gap of two. */
  lemma LastBlock()
    ensures Strands({}, 0, 2 * BSIZE, 1, 1) && FillCost({}, 0, 2 * BSIZE) == 2 && WriteCost({}, 0, 2 * BSIZE, 1) >= 2
  {
    assert FirstPtrs(0) == {};
    GrowCost(0, 2);
    assert Blocks(0, 2 * BSIZE) == 2;
  }
}
