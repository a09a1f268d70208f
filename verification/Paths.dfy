/** Path names: splitting at slashes, and lookup as a walk over directories. */
module Paths {
  import opened Prelude
  import opened FsLayout
  import opened BufferCache
  import opened BlockMap
  import opened InodeStore
  import opened FileIo
  import opened Directory
  import opened Inodes
  import opened FsOps

  const SLASH: Byte := 47

  // ---- Splitting ----------------------------------------------------------------

  /** Position of the first slash, |path| if there is none. */
  function FirstSlash(path: seq<Byte>): (i: nat)
    ensures i <= |path| && (i < |path| ==> path[i] == SLASH)
    ensures forall j :: 0 <= j < i ==> path[j] != SLASH
  {
    if path == [] || path[0] == SLASH then 0 else 1 + FirstSlash(path[1..])
  }

  function SkipSlashes(path: seq<Byte>): (p: seq<Byte>)
    ensures |p| <= |path| && (p != [] ==> p[0] != SLASH)
  {
    if path != [] && path[0] == SLASH then SkipSlashes(path[1..]) else path
  }

  /** The next component and what follows it. */
  function SkipElem(path: seq<Byte>): (r: Option<(seq<Byte>, seq<Byte>)>)
    ensures r.Some? ==> |r.value.1| < |path| && r.value.0 != [] && SLASH !in r.value.0
  {
    var p := SkipSlashes(path);
    if p == [] then None else Some((p[..FirstSlash(p)], p[FirstSlash(p)..]))
  }

  /** A path is some slashes, its first component up to a slash or the end, and the rest; without
      a component it is all slashes. */
  lemma {:induction false} SkipElemFirst(path: seq<Byte>)
    ensures match SkipElem(path)
            case None => forall i :: 0 <= i < |path| ==> path[i] == SLASH
            case Some((name, rest)) =>
              && (rest != [] ==> rest[0] == SLASH) && |name| + |rest| <= |path|
              && path[|path| - |name| - |rest|..] == name + rest
              && forall i :: 0 <= i < |path| - |name| - |rest| ==> path[i] == SLASH
  {
    if path != [] && path[0] == SLASH {
      SkipElemFirst(path[1..]);
      assert SkipElem(path) == SkipElem(path[1..]);
    }
  }

  /** The components of a path. */
  function Components(path: seq<Byte>): seq<seq<Byte>>
    decreases |path|
  {
    match SkipElem(path)
    case None => []
    case Some((name, rest)) => [name] + Components(rest)
  }

  /** The bytes of a path other than slashes, in order. */
  function NoSlashes(path: seq<Byte>): seq<Byte> {
    if path == [] then [] else (if path[0] == SLASH then [] else [path[0]]) + NoSlashes(path[1..])
  }

  function Concat(names: seq<seq<Byte>>): seq<Byte> {
    if names == [] then [] else names[0] + Concat(names[1..])
  }

  lemma {:induction false} NoSlashesAppend(a: seq<Byte>, b: seq<Byte>)
    ensures NoSlashes(a + b) == NoSlashes(a) + NoSlashes(b)
  {
    if a == [] {
      assert a + b == b;
    } else {
      assert (a + b)[1..] == a[1..] + b;
      NoSlashesAppend(a[1..], b);
    }
  }

  lemma {:induction false} NoSlashesSame(a: seq<Byte>)
    requires SLASH !in a
    ensures NoSlashes(a) == a
  {
    if a != [] {
      NoSlashesSame(a[1..]);
    }
  }

  lemma {:induction false} SkippedSame(path: seq<Byte>)
    ensures NoSlashes(SkipSlashes(path)) == NoSlashes(path)
  {
    if path != [] && path[0] == SLASH {
      SkippedSame(path[1..]);
    }
  }

  /** Splitting loses nothing but slashes. */
  lemma {:induction false} ComponentsSound(path: seq<Byte>)
    ensures Concat(Components(path)) == NoSlashes(path)
    ensures forall i :: 0 <= i < |Components(path)| ==> Components(path)[i] != [] && SLASH !in Components(path)[i]
    decreases |path|
  {
    SkippedSame(path);
    var p := SkipSlashes(path);
    if p != [] {
      var name, rest := p[..FirstSlash(p)], p[FirstSlash(p)..];
      ComponentsSound(rest);
      assert p == name + rest;
      NoSlashesAppend(name, rest);
      NoSlashesSame(name);
      assert Components(path)[1..] == Components(rest);
    }
  }

  /** A path that spells out the names, each after at least one slash. */
  function Joined(names: seq<seq<Byte>>, extra: nat): seq<Byte> {
    if names == [] then [] else Slashes(1 + extra) + names[0] + Joined(names[1..], extra)
  }

  function Slashes(n: nat): (s: seq<Byte>)
    ensures |s| == n && forall i :: 0 <= i < n ==> s[i] == SLASH
  {
    if n == 0 then [] else [SLASH] + Slashes(n - 1)
  }

  lemma {:induction false} SkipJoined(n: nat, rest: seq<Byte>)
    requires rest != [] ==> rest[0] != SLASH
    ensures SkipSlashes(Slashes(n) + rest) == rest
  {
    if n == 0 {
      assert Slashes(0) + rest == rest;
    } else {
      SkipJoined(n - 1, rest);
      assert (Slashes(n) + rest)[1..] == Slashes(n - 1) + rest;
    }
  }

  lemma {:induction false} SlashAfter(name: seq<Byte>, rest: seq<Byte>)
    requires SLASH !in name && (rest != [] ==> rest[0] == SLASH)
    ensures FirstSlash(name + rest) == |name|
  {
    if name == [] {
      assert name + rest == rest;
    } else {
      SlashAfter(name[1..], rest);
      assert (name + rest)[1..] == name[1..] + rest;
    }
  }

  lemma FirstJoined(name: seq<Byte>, rest: seq<Byte>, n: nat)
    requires name != [] && SLASH !in name && (rest != [] ==> rest[0] == SLASH)
    ensures SkipElem(Slashes(n) + (name + rest)) == Some((name, rest))
  {
    var tail := name + rest;
    SlashAfter(name, rest);
    SkipJoined(n, tail);
    assert tail[..|name|] == name && tail[|name|..] == rest;
  }

  /** Splitting undoes joining: the components of a path are the names it was put together from,
      in order, however many slashes separate them, with or without a leading one. */
  lemma {:induction false} SplitJoined(names: seq<seq<Byte>>, extra: nat)
    requires forall i :: 0 <= i < |names| ==> names[i] != [] && SLASH !in names[i]
    ensures Components(Joined(names, extra)) == names
    ensures names != [] ==> Components(names[0] + Joined(names[1..], extra)) == names
    decreases |names|
  {
    hide SkipElem, Slashes;
    if names == [] {
      assert SkipElem([]) == None by { SkipElemFirst([]); }
    } else {
      var rest := Joined(names[1..], extra);
      SplitJoined(names[1..], extra);
      assert rest != [] ==> rest[0] == SLASH by { StartsSlash(names[1..], extra); }
      FirstJoined(names[0], rest, 1 + extra);
      FirstJoined(names[0], rest, 0);
      assert Slashes(0) + (names[0] + rest) == names[0] + rest;
      assert Joined(names, extra) == Slashes(1 + extra) + (names[0] + rest);
      assert [names[0]] + names[1..] == names;
    }
  }

  lemma StartsSlash(names: seq<seq<Byte>>, extra: nat)
    ensures Joined(names, extra) != [] ==> Joined(names, extra)[0] == SLASH
  {
  }

  // ---- Walking ------------------------------------------------------------------

  /** One step of a walk: a directory and a name to an inode. */
  function Child(disk: Disk, j: nat, name: seq<Byte>): (r: Option<nat>)
    requires 0 < j < NINODES && Sized(disk)
  {
    if NodeOf(disk, j).typ == T_DIR then Lookup(NodeOf(disk, j).bytes, name) else None
  }

  /** The inode a list of names leads to. */
  function Walk(disk: Disk, j: nat, names: seq<seq<Byte>>): (r: Option<nat>)
    requires Sized(disk)
    ensures r.Some? ==> 0 < r.value < NINODES
    decreases |names|
  {
    if !(0 < j < NINODES) then None
    else if names == [] then Some(j)
    else match Child(disk, j, names[0])
      case None => None
      case Some(k) => Walk(disk, k, names[1..])
  }

  /** What names in sound directories lead to exists. */
  lemma ChildExists(disk: Disk, j: nat, name: seq<Byte>)
    requires DirsOk(disk) && Sized(disk) && 0 < j < NINODES && Child(disk, j, name).Some?
    ensures 0 < Child(disk, j, name).value < NINODES && TypOf(disk, Child(disk, j, name).value) != 0
  {
    hide DinodeOf, Content, Entry;
    assert DirFine(disk, j);
    var c := NodeOf(disk, j).bytes;
    assert Find(c, name, 0) < Count(c);
  }

  // ---- namei --------------------------------------------------------------------

  /** Looks a name up in the directory of a held slot. */
  method LookupIn(fs: FileSystem, i: nat, name: seq<Byte>) returns (r: Option<nat>)
    requires fs.Valid() && i < NINODE && fs.islots[i].refcnt > 0
    modifies fs`islots, fs.bc`slots
    ensures fs.Valid() && SameHeld(old(fs.islots), fs.islots) && IRefs(fs.islots) == IRefs(old(fs.islots))
    ensures 0 < old(fs.islots[i].inum) < NINODES && Sized(fs.bc.disk)
    ensures r == Child(fs.bc.disk, old(fs.islots[i].inum), name)
    ensures r.Some? ==> 0 < r.value < NINODES && TypOf(fs.bc.disk, r.value) != 0
    ensures CurKept(fs.bc.disk, old(fs.islots), fs.islots)
    ensures forall refs :: Clean(fs.bc.disk, refs, old(fs.islots)) ==> Clean(fs.bc.disk, refs, fs.islots)
  {
    hide FileOk, Agrees, DirFine, Kept, FilesOk, SlotsOk, DirsOk, HeldOk, Content, Lookup, DinodeOf, CurKept, Clean;
    ValidAt(fs, i);
    var dp := fs.Ilock(i);
    AgreesSavable(fs.bc.disk, dp);
    ghost var s1 := fs.bc.slots;
    r := DirLookup(fs.bc, dp, name, fs.own);
    KeptSpare(s1, fs.bc.slots);
    if r.Some? {
      ChildExists(fs.bc.disk, dp.inum, name);
    }
  }

  function Plus(refs: seq<nat>, i: nat): seq<nat>
    requires i < |refs|
  {
    refs[i := refs[i] + 1]
  }

  /** Taking the next reference before dropping the last one moves it. */
  lemma MoveRef(refs: seq<nat>, a: nat, b: nat)
    requires a < |refs| && b < |refs|
    ensures var two := Plus(Plus(refs, a), b); two[a] > 0 && two[a := two[a] - 1] == Plus(refs, b)
  {
  }

  // ---- When a slot can be had -------------------------------------------------------

  /** While a walk stands at c, on top of what is held in `slots`, iget of k finds a slot. */
  ghost predicate StepFits(slots: seq<ISlot>, c: nat, k: nat) {
    HeldNow(slots, k) || k == c || Spare(IRefs(slots)) > if HeldNow(slots, c) then 0 else 1
  }

  /** The walk from c finds a slot for every inode on its way. */
  ghost predicate WalkFits(disk: Disk, slots: seq<ISlot>, c: nat, names: seq<seq<Byte>>)
    requires Sized(disk)
    decreases |names|
  {
    if !(0 < c < NINODES) || names == [] then true
    else match Child(disk, c, names[0])
      case None => true
      case Some(k) => StepFits(slots, c, k) && WalkFits(disk, slots, k, names[1..])
  }

  /** The walk finds a slot for where it starts. */
  ghost predicate StartFits(slots: seq<ISlot>, path: seq<Byte>) {
    path != [] && path[0] == SLASH ==> SlotFor(slots, ROOTINO)
  }

  /** Two spare slots are enough for every walk. */
  lemma {:induction false} TwoSpare(disk: Disk, slots: seq<ISlot>, path: seq<Byte>, c: nat, names: seq<seq<Byte>>)
    requires Sized(disk) && Spare(IRefs(slots)) >= 2
    ensures StartFits(slots, path) && WalkFits(disk, slots, c, names)
    decreases |names|
  {
    hide Child, Spare;
    if 0 < c < NINODES && names != [] && Child(disk, c, names[0]).Some? {
      TwoSpare(disk, slots, path, Child(disk, c, names[0]).value, names[1..]);
    }
  }

  ghost predicate Distinct(slots: seq<ISlot>) {
    forall i, j :: 0 <= i < j < |slots| && slots[i].refcnt > 0 && slots[j].refcnt > 0 ==> slots[i].inum != slots[j].inum
  }

  /** What a walk that holds slot i on top of `slots` sees. */
  lemma FitsIs(slots: seq<ISlot>, cur: seq<ISlot>, i: nat, k: nat)
    requires SameHeld(slots, cur) && i < |slots| && IRefs(cur) == Plus(IRefs(slots), i) && Distinct(cur)
    ensures SlotFor(cur, k) <==> StepFits(slots, cur[i].inum, k)
  {
    hide Spare;
    var c := cur[i].inum;
    SpareTaken(IRefs(slots), i);
    forall n | 0 <= n < |slots| ensures cur[n].refcnt == Plus(IRefs(slots),
      i)[n] { assert IRefs(cur)[n] == cur[n].refcnt; }
    assert HeldNow(cur, k) <==> HeldNow(slots, k) || k == c by {
      if HeldNow(slots, k) {
        var n :| 0 <= n < |slots| && slots[n].refcnt > 0 && slots[n].inum == k;
        assert cur[n].refcnt > 0 && cur[n].inum == k;
      }
      if k == c { assert cur[i].refcnt > 0 && cur[i].inum == k; }
    }
    assert HeldNow(slots, c) <==> slots[i].refcnt > 0 by {
      if HeldNow(slots, c) {
        var n :| 0 <= n < |slots| && slots[n].refcnt > 0 && slots[n].inum == c;
        assert cur[n].refcnt > 0 && cur[n].inum == c;
      }
    }
  }

  /** Slots that hold the same inodes as often. */
  lemma FitsSame(slots: seq<ISlot>, slots': seq<ISlot>, k: nat)
    requires SameHeld(slots, slots') && IRefs(slots') == IRefs(slots)
    ensures SlotFor(slots', k) <==> SlotFor(slots, k)
  {
    forall n | 0 <= n < |slots| ensures slots'[n].refcnt == slots[n].refcnt {
      assert IRefs(slots')[n] == IRefs(slots)[n];
    }
  }

  lemma SlotsDistinct(own: Owners, disk: Disk, slots: seq<ISlot>)
    requires SlotsOk(own, disk, slots)
    ensures Distinct(slots)
  {
  }

  lemma CurTrans(disk: Disk, a: seq<ISlot>, b: seq<ISlot>, c: seq<ISlot>)
    requires CurKept(disk, a, b) && CurKept(disk, b, c)
    ensures CurKept(disk, a, c)
  {
    hide CurAddrs;
  }

  lemma CurSelf(disk: Disk, slots: seq<ISlot>)
    ensures CurKept(disk, slots, slots) && Clean(disk, IRefs(slots), slots)
  {
    hide CurAddrs, OnDisk;
  }

  /** The walk may drop its reference: somebody else holds the inode, or it is as its record. */
  lemma MayDrop(disk: Disk, refs: seq<nat>, slots: seq<ISlot>, i: nat)
    requires Clean(disk, refs, slots) && i < |slots| == |refs| && slots[i].refcnt > refs[i]
    ensures slots[i].refcnt > 1 || DropSafe(disk, slots[i])
  {
    hide OnDisk;
  }

  /** From inode j to inode k by one name, moving the walk's reference; None gives the
      reference up. */
  method StepInto(fs: FileSystem, i: nat, name: seq<Byte>, ghost refs: seq<nat>) returns (r: Option<nat>)
    requires fs.Valid() && i < NINODE && fs.islots[i].refcnt > 0
    requires |refs| == NINODE == |fs.islots| && IRefs(fs.islots) == Plus(refs, i) && Clean(fs.bc.disk, refs, fs.islots)
    modifies fs`islots, fs.bc`slots
    ensures CurKept(fs.bc.disk, old(fs.islots), fs.islots) && Clean(fs.bc.disk, refs, fs.islots)
    ensures fs.Valid() && 0 < old(fs.islots[i].inum) < NINODES && Sized(fs.bc.disk) && |fs.islots| == NINODE
    ensures forall k :: 0 <= k < NINODE && refs[k] > 0 ==> fs.islots[k].inum == old(fs.islots[k].inum)
    ensures r.None? ==> IRefs(fs.islots) == refs
    ensures r.Some? ==>
      && r.value < NINODE && IRefs(fs.islots) == Plus(refs, r.value)
      && Child(fs.bc.disk, old(fs.islots[i].inum), name) == Some(fs.islots[r.value].inum)
    ensures var child := Child(fs.bc.disk, old(fs.islots[i].inum), name);
            r.Some? <==> child.Some? && SlotFor(old(fs.islots), child.value)
  {
    hide FilesOk, SlotsOk, DirsOk, HeldOk, Child, Spare, CurKept, Clean, SlotFor, DropSafe;
    ghost var slots0 := fs.islots;
    var next := LookupIn(fs, i, name);
    ghost var slots1 := fs.islots;
    assert IRefs(slots1)[i] == IRefs(slots0)[i];
    MayDrop(fs.bc.disk, refs, slots1, i);
    if next.None? {
      fs.Iput(i);
      CurTrans(fs.bc.disk, slots0, slots1, fs.islots);
      assert IRefs(fs.islots) == refs;
      return None;
    }
    FitsSame(slots0, slots1, next.value);
    r := fs.Iget(next.value);
    ghost var slots2 := fs.islots;
    CurTrans(fs.bc.disk, slots0, slots1, slots2);
    if r.None? {
      fs.Iput(i);
      CurTrans(fs.bc.disk, slots0, slots2, fs.islots);
      assert IRefs(fs.islots) == refs;
      return None;
    }
    MoveRef(refs, i, r.value);
    assert IRefs(slots2)[i] > refs[i];
    MayDrop(fs.bc.disk, refs, slots2, i);
    fs.Iput(i);
    CurTrans(fs.bc.disk, slots0, slots2, fs.islots);
    assert IRefs(fs.islots) == Plus(refs, r.value);
    assert fs.islots[r.value].refcnt == IRefs(fs.islots)[r.value] > 0;
    assert slots2[r.value].refcnt > 0 by { assert IRefs(slots2)[r.value] > 0; }
    forall k | 0 <= k < NINODE && refs[k] > 0
      ensures fs.islots[k].inum == slots0[k].inum
    {
      assert IRefs(slots0)[k] > 0 && IRefs(slots1)[k] > 0 && IRefs(slots2)[k] > 0;
    }
  }

  lemma StepSeen(fs: FileSystem, slots: seq<ISlot>, i: nat, name: seq<Byte>)
    requires fs.Valid() && SameHeld(slots, fs.islots) && i < NINODE == |slots|
    requires IRefs(fs.islots) == Plus(IRefs(slots), i)
    requires Sized(fs.bc.disk) && 0 < fs.islots[i].inum < NINODES
    ensures var child := Child(fs.bc.disk, fs.islots[i].inum, name);
            child.Some? ==> (SlotFor(fs.islots, child.value) <==> StepFits(slots, fs.islots[i].inum, child.value))
  {
    hide Child, SlotFor, StepFits, FilesOk, DirsOk, HeldOk, SlotOk;
    SlotsDistinct(fs.own, fs.bc.disk, fs.islots);
    var child := Child(fs.bc.disk, fs.islots[i].inum, name);
    if child.Some? { FitsIs(slots, fs.islots, i, child.value); }
  }

  /** The reference a walk starts with. */
  method StartWalk(fs: FileSystem, cwd: nat, path: seq<Byte>) returns (r: Option<nat>)
    requires fs.Valid() && cwd < NINODE && fs.islots[cwd].refcnt > 0 && path != [] && TypOf(fs.bc.disk, ROOTINO) != 0
    modifies fs`islots
    ensures fs.Valid() && SameHeld(old(fs.islots), fs.islots) && |fs.islots| == NINODE
    ensures r.None? ==> fs.islots == old(fs.islots)
    ensures r.Some? <==> StartFits(old(fs.islots), path)
    ensures CurKept(fs.bc.disk, old(fs.islots), fs.islots) && Clean(fs.bc.disk, IRefs(old(fs.islots)), fs.islots)
    ensures r.Some? ==>
      && r.value < NINODE && IRefs(fs.islots) == Plus(IRefs(old(fs.islots)), r.value) && fs.islots[r.value].refcnt > 0
      && fs.islots[r.value].inum == if path[0] == SLASH then ROOTINO else old(fs.islots[cwd].inum)
  {
    hide FilesOk, DirsOk, HeldOk, SlotOk, Spare, CurKept, Clean, SlotFor;
    CurSelf(fs.bc.disk, fs.islots);
    if path[0] == SLASH {
      r := fs.Iget(ROOTINO);
      if r.Some? {
        assert fs.islots[r.value].refcnt == IRefs(fs.islots)[r.value];
      }
    } else {
      fs.Idup(cwd);
      assert fs.islots[cwd].refcnt == IRefs(fs.islots)[cwd];
      r := Some(cwd);
    }
  }

  /** namei agrees with the walk over the components of the path, and the only
      reference it leaves is one to the inode it returns. */
  method Namei(fs: FileSystem, cwd: nat, path: seq<Byte>) returns (r: Option<nat>)
    requires fs.Valid() && cwd < NINODE && fs.islots[cwd].refcnt > 0 && TypOf(fs.bc.disk, ROOTINO) != 0
    modifies fs`islots, fs.bc`slots
    ensures fs.Valid() && SameHeld(old(fs.islots), fs.islots) && Sized(fs.bc.disk)
    ensures r.None? ==> IRefs(fs.islots) == IRefs(old(fs.islots))
    ensures var start := if path != [] && path[0] == SLASH then ROOTINO else old(fs.islots[cwd].inum);
            var target := Walk(fs.bc.disk, start, Components(path));
            && (r.Some? ==>
                  && path != [] && r.value < NINODE && |fs.islots| == NINODE == |old(fs.islots)|
                  && IRefs(fs.islots) == Plus(IRefs(old(fs.islots)), r.value)
                  && target == Some(fs.islots[r.value].inum))
            && (r.Some? <==>
                  && path != [] && target.Some? && StartFits(old(fs.islots), path)
                  && WalkFits(fs.bc.disk, old(fs.islots), start, Components(path)))
    ensures CurKept(fs.bc.disk, old(fs.islots), fs.islots) && Clean(fs.bc.disk, IRefs(old(fs.islots)), fs.islots)
  {
    hide FilesOk, DirsOk, HeldOk, SlotOk, Spare, Child, CurKept, Clean, SlotFor, StepFits, SkipElem, StartFits;
    FilesSized(fs.own, fs.bc.disk);
    CurSelf(fs.bc.disk, fs.islots);
    if path == [] {
      return None;
    }
    ghost var refs, slots0 := IRefs(fs.islots), fs.islots;
    ghost var start := if path[0] == SLASH then ROOTINO else fs.islots[cwd].inum;
    var cur := StartWalk(fs, cwd, path);
    if cur.None? {
      return None;
    }
    var i: nat, rest := cur.value, path;
    var elem := SkipElem(rest);
    while elem.Some?
      invariant fs.Valid() && |fs.islots| == NINODE && i < NINODE && fs.islots[i].refcnt > 0
      invariant IRefs(fs.islots) == Plus(refs, i) && SameHeld(slots0, fs.islots)
      invariant elem == SkipElem(rest)
      invariant Walk(fs.bc.disk, start, Components(path)) == Walk(fs.bc.disk, fs.islots[i].inum, Components(rest))
      invariant WalkFits(fs.bc.disk, slots0, start, Components(path)) ==
                WalkFits(fs.bc.disk, slots0, fs.islots[i].inum, Components(rest))
      invariant CurKept(fs.bc.disk, slots0, fs.islots) && Clean(fs.bc.disk, refs, fs.islots)
      decreases |rest|
    {
      var (name, next) := elem.value;
      assert Components(rest)[0] == name && Components(rest)[1..] == Components(next);
      ghost var cur := fs.islots;
      SlotRange(fs.own, fs.bc.disk, cur, i);
      StepSeen(fs, slots0, i, name);
      var s := StepInto(fs, i, name, refs);
      CurTrans(fs.bc.disk, slots0, cur, fs.islots);
      if s.None? {
        return None;
      }
      i, rest := s.value, next;
      assert fs.islots[i].refcnt == IRefs(fs.islots)[i];
      elem := SkipElem(rest);
    }
    assert 0 < fs.islots[i].inum < NINODES by { SlotRange(fs.own, fs.bc.disk, fs.islots, i); }
    return Some(i);
  }

  /** An absolute path leads to the same inode from wherever it is looked up. */
  method LookTwice(fs: FileSystem, cwd: nat, cwd': nat, path: seq<Byte>) returns (a: Option<nat>, b: Option<nat>)
    requires fs.Valid() && cwd < NINODE && fs.islots[cwd].refcnt > 0 && TypOf(fs.bc.disk, ROOTINO) != 0
    requires cwd' < NINODE && fs.islots[cwd'].refcnt > 0 && path != [] && path[0] == SLASH
    modifies fs`islots, fs.bc`slots
    ensures fs.Valid() && |fs.islots| == NINODE
    ensures a.Some? && b.Some? ==>
      a.value < NINODE && b.value < NINODE && fs.islots[a.value].inum == fs.islots[b.value].inum
  {
    hide FilesOk, DirsOk, HeldOk, SlotOk, Walk, Components, WalkFits, StartFits, CurKept, Clean;
    ghost var slots := fs.islots;
    a := Namei(fs, cwd, path);
    b := None;
    if a.Some? {
      ghost var mid := fs.islots;
      assert mid[a.value].refcnt == IRefs(mid)[a.value] && mid[cwd'].refcnt == IRefs(mid)[cwd'];
      b := Namei(fs, cwd', path);
    }
  }

  function Init(names: seq<seq<Byte>>): seq<seq<Byte>> requires names != [] { names[..|names| - 1] }

  function Last(names: seq<seq<Byte>>): seq<Byte> requires names != [] { names[|names| - 1] }

  /** nameiparent stops one component early: it returns a reference to where the walk
      over all but the last component leads, and that last component. */
  method NameiParent(fs: FileSystem, cwd: nat, path: seq<Byte>) returns (r: Option<(nat, seq<Byte>)>)
    requires fs.Valid() && cwd < NINODE && fs.islots[cwd].refcnt > 0 && TypOf(fs.bc.disk, ROOTINO) != 0
    modifies fs`islots, fs.bc`slots
    ensures fs.Valid() && SameHeld(old(fs.islots), fs.islots) && Sized(fs.bc.disk)
    ensures r.None? ==> IRefs(fs.islots) == IRefs(old(fs.islots))
    ensures Components(path) == [] ==> r.None?
    ensures Components(path) != [] ==>
      var start := if path != [] && path[0] == SLASH then ROOTINO else old(fs.islots[cwd].inum);
      var dir := Walk(fs.bc.disk, start, Init(Components(path)));
      && (r.Some? ==>
            && r.value.0 < NINODE && |fs.islots| == NINODE == |old(fs.islots)| && r.value.1 == Last(Components(path))
            && IRefs(fs.islots) == Plus(IRefs(old(fs.islots)), r.value.0) && dir == Some(fs.islots[r.value.0].inum))
      && (r.Some? <==>
            && dir.Some? && StartFits(old(fs.islots), path)
            && WalkFits(fs.bc.disk, old(fs.islots), start, Init(Components(path))))
    ensures CurKept(fs.bc.disk, old(fs.islots), fs.islots) && Clean(fs.bc.disk, IRefs(old(fs.islots)), fs.islots)
  {
    hide FilesOk, DirsOk, HeldOk, SlotOk, Spare, Child, CurKept, Clean, SlotFor, StepFits, SkipElem, StartFits;
    FilesSized(fs.own, fs.bc.disk);
    CurSelf(fs.bc.disk, fs.islots);
    if path == [] {
      return None;
    }
    ghost var refs, slots0 := IRefs(fs.islots), fs.islots;
    ghost var start := if path[0] == SLASH then ROOTINO else fs.islots[cwd].inum;
    var cur := StartWalk(fs, cwd, path);
    if cur.None? {
      return None;
    }
    var i: nat, rest := cur.value, path;
    var elem := SkipElem(rest);
    while elem.Some?
      invariant fs.Valid() && |fs.islots| == NINODE && i < NINODE && fs.islots[i].refcnt > 0
      invariant IRefs(fs.islots) == Plus(refs, i) && SameHeld(slots0, fs.islots)
      invariant elem == SkipElem(rest) && (elem.None? ==> Components(path) == [])
      invariant elem.Some? ==>
          && Components(path) != [] && Components(rest) != [] && Last(Components(path)) == Last(Components(rest))
          && Walk(fs.bc.disk, start, Init(Components(path))) == Walk(fs.bc.disk, fs.islots[i].inum,
            Init(Components(rest)))
          && WalkFits(fs.bc.disk, slots0, start, Init(Components(path))) ==
             WalkFits(fs.bc.disk, slots0, fs.islots[i].inum, Init(Components(rest)))
      invariant CurKept(fs.bc.disk, slots0, fs.islots) && Clean(fs.bc.disk, refs, fs.islots)
      decreases |rest|
    {
      var (name, next) := elem.value;
      assert Components(rest) == [name] + Components(next);
      assert 0 < fs.islots[i].inum < NINODES by { SlotRange(fs.own, fs.bc.disk, fs.islots, i); }
      if SkipElem(next).None? {
        return Some((i, name));
      }
      assert Init(Components(rest)) == [name] + Init(Components(next));
      ghost var cur := fs.islots;
      StepSeen(fs, slots0, i, name);
      var s := StepInto(fs, i, name, refs);
      CurTrans(fs.bc.disk, slots0, cur, fs.islots);
      if s.None? {
        return None;
      }
      i, rest := s.value, next;
      assert fs.islots[i].refcnt == IRefs(fs.islots)[i];
      elem := SkipElem(rest);
    }
    ghost var last := fs.islots;
    assert IRefs(last)[i] > refs[i];
    MayDrop(fs.bc.disk, refs, last, i);
    fs.Iput(i);
    CurTrans(fs.bc.disk, slots0, last, fs.islots);
    assert IRefs(fs.islots) == refs;
    return None;
  }
}
