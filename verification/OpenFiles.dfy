/** The system-wide file table, pipe slots and every process's descriptors: who holds
    which file, and when an end of a pipe is closed. */
module OpenFiles {
  import opened Prelude

  const NFILE := 100
  const NOFILE := 16
  const NPIPE := 64
  const NPROC := 16

  const NULL := -1

  datatype Kind = Unset | Device(major: nat) | Inode(slot: nat, off: nat, append: bool) | PipeEnd(pipe: nat)

  datatype File = File(refcnt: nat, readable: bool, writable: bool, kind: Kind)

  const UNUSED := File(0, false, false, Unset)

  datatype PipeSlot = PipeSlot(used: bool, readopen: bool, writeopen: bool)

  /** Position of descriptor fd of process p among all descriptors. */
  function Idx(p: nat, fd: nat): nat { p * NOFILE + fd }

  /** The descriptors of process p. */
  function TableOf(fds: seq<int>, p: nat): (t: seq<int>)
    requires |fds| == NPROC * NOFILE && p < NPROC
    ensures |t| == NOFILE && forall i :: 0 <= i < NOFILE ==> t[i] == fds[Idx(p, i)]
  {
    fds[p * NOFILE..p * NOFILE + NOFILE]
  }

  // ---- What holds between system calls ----------------------------------------------

  /** References in descriptors, and those a running system call holds. */
  ghost predicate RefsOk(files: seq<File>, fds: seq<int>, loose: multiset<int>) {
    && |files| == NFILE && |fds| == NPROC * NOFILE
    && (forall e :: 0 <= e < |fds| ==> NULL <= fds[e] < NFILE)
    && forall f :: 0 <= f < NFILE ==> files[f].refcnt == multiset(fds)[f] + loose[f]
  }

  ghost predicate FileOk(f: File) {
    && (f.refcnt == 0 ==> f == UNUSED)
    && (f.kind.PipeEnd? ==> f.kind.pipe < NPIPE && f.readable != f.writable)
  }

  /** f is the live file for one end of pipe i. */
  predicate IsEnd(f: File, i: nat, write: bool) { f.refcnt > 0 && f.kind == PipeEnd(i) && f.writable == write }

  ghost predicate HasEnd(files: seq<File>, i: nat, write: bool) {
    exists f :: 0 <= f < |files| && IsEnd(files[f], i, write)
  }

  ghost predicate OneEnd(files: seq<File>, i: nat, write: bool) {
    forall f, g :: 0 <= f < |files| && 0 <= g < |files| && IsEnd(files[f], i, write) && IsEnd(files[g], i, write) ==>
      f == g
  }

  /** Slot i: an end is open exactly when there is a live file for it, and there is at
      most one; the slot is in use while an end is open. A raw slot was allocated and has
      no files yet. */
  ghost predicate PipeOk(files: seq<File>, i: nat, s: PipeSlot, raw: bool) {
    && OneEnd(files, i, false) && OneEnd(files, i, true)
    && (s.used <==> s.readopen || s.writeopen)
    && if raw then s.readopen && s.writeopen && !HasEnd(files, i, false) && !HasEnd(files, i, true)
       else (s.readopen <==> HasEnd(files, i, false)) && (s.writeopen <==> HasEnd(files, i, true))
  }

  ghost predicate PipesOk(files: seq<File>, pipes: seq<PipeSlot>, raw: set<nat>) {
    |pipes| == NPIPE && forall i :: 0 <= i < NPIPE ==> PipeOk(files, i, pipes[i], i in raw)
  }

  /** One file changed in a way that concerns no pipe. */
  lemma SamePipes(files: seq<File>, f: nat, x: File, pipes: seq<PipeSlot>, raw: set<nat>)
    requires PipesOk(files, pipes, raw) && f < |files|
    requires forall i: nat, w :: IsEnd(x, i, w) <==> IsEnd(files[f], i, w)
    ensures PipesOk(files[f := x], pipes, raw)
  {
    var files' := files[f := x];
    forall i | 0 <= i < NPIPE ensures PipeOk(files', i, pipes[i], i in raw) {
      assert PipeOk(files, i, pipes[i], i in raw);
      SameEnds(files, f, x, i, false);
      SameEnds(files, f, x, i, true);
    }
  }

  lemma SameEnds(files: seq<File>, f: nat, x: File, i: nat, w: bool)
    requires f < |files| && OneEnd(files, i, w) && (IsEnd(x, i, w) <==> IsEnd(files[f], i, w))
    ensures OneEnd(files[f := x], i, w) && (HasEnd(files[f := x], i, w) <==> HasEnd(files, i, w))
  {
    var files' := files[f := x];
    assert forall g :: 0 <= g < |files| ==> (IsEnd(files'[g], i, w) <==> IsEnd(files[g], i, w));
    if HasEnd(files, i, w) {
      var g :| 0 <= g < |files| && IsEnd(files[g], i, w);
      assert IsEnd(files'[g], i, w);
    }
    if HasEnd(files', i, w) {
      var g :| 0 <= g < |files| && IsEnd(files'[g], i, w);
      assert IsEnd(files[g], i, w);
    }
  }

  /** The file for an end is gone; nobody else has it. */
  lemma EndGone(files: seq<File>, f: nat, x: File, i: nat, w: bool)
    requires f < |files| && OneEnd(files, i, w) && IsEnd(files[f], i, w) && !IsEnd(x, i, w)
    ensures OneEnd(files[f := x], i, w) && !HasEnd(files[f := x], i, w) && HasEnd(files, i, w)
  {
    var files' := files[f := x];
    forall g | 0 <= g < |files| ensures !IsEnd(files'[g], i, w) {
      assert IsEnd(files[g], i, w) ==> g == f;
    }
  }

  /** A file for an end that had none. */
  lemma EndNew(files: seq<File>, f: nat, x: File, i: nat, w: bool)
    requires f < |files| && !HasEnd(files, i, w) && IsEnd(x, i, w)
    ensures OneEnd(files[f := x], i, w) && HasEnd(files[f := x], i, w)
  {
    var files' := files[f := x];
    assert forall g :: 0 <= g < |files| ==> !IsEnd(files[g], i, w);
    assert IsEnd(files'[f], i, w);
  }

  // ---- The tables ------------------------------------------------------------------------

  class Tables {
    var files: seq<File>
    var pipes: seq<PipeSlot>
    var fds: seq<int>
    ghost var loose: multiset<int>
    ghost var raw: set<nat>

    ghost predicate Valid()
      reads this
    {
      && RefsOk(files, fds, loose) && (forall f :: 0 <= f < NFILE ==> FileOk(files[f])) && PipesOk(files, pipes, raw)
    }

    /** Nothing is held by a system call: all references are in descriptors. */
    ghost predicate Quiet()
      reads this
    {
      Valid() && loose == multiset{} && raw == {}
    }

    constructor ()
      ensures Quiet() && forall e :: 0 <= e < |fds| ==> fds[e] == NULL
    {
      files := seq(NFILE, _ => UNUSED);
      pipes := seq(NPIPE, _ => PipeSlot(false, false, false));
      fds := seq(NPROC * NOFILE, _ => NULL);
      loose := multiset{};
      raw := {};
      new;
      forall f | 0 <= f < NFILE ensures multiset(fds)[f] == 0 { NotThere(fds, f); }
    }

    /** file::alloc: the first free entry, held by the caller; None when all are in use. */
    method FileAlloc() returns (r: Option<nat>)
      requires Valid()
      modifies `files, `loose
      ensures Valid() && |files| == NFILE && (r.None? <==> AllBusy(old(files)))
      ensures r.None? ==> files == old(files) && loose == old(loose)
      ensures r.Some? ==>
        && r.value < NFILE && old(files)[r.value] == UNUSED && loose == old(loose) + multiset{r.value}
        && files == old(files)[r.value := File(1, false, false, Unset)]
        && forall f :: 0 <= f < r.value ==> old(files)[f].refcnt > 0
    {
      for i := 0 to NFILE
        invariant files == old(files) && loose == old(loose) && Valid()
        invariant forall f :: 0 <= f < i ==> files[f].refcnt > 0
      {
        if files[i].refcnt == 0 {
          SamePipes(files, i, File(1, false, false, Unset), pipes, raw);
          files := files[i := File(1, false, false, Unset)];
          loose := loose + multiset{i};
          return Some(i);
        }
      }
      return None;
    }

    /** file::dup. */
    method FileDup(f: nat)
      requires Valid() && f < NFILE && files[f].refcnt > 0
      modifies `files, `loose
      ensures Valid() && loose == old(loose) + multiset{f}
      ensures |old(files)| == NFILE && files == old(files)[f := old(files)[f].(refcnt := old(files)[f].refcnt + 1)]
    {
      SamePipes(files, f, files[f].(refcnt := files[f].refcnt + 1), pipes, raw);
      files := files[f := files[f].(refcnt := files[f].refcnt + 1)];
      loose := loose + multiset{f};
    }

    /** file::close on a reference the caller holds. The last reference to a pipe end
        closes that end, and the slot is reusable once both are closed; the last reference
        to an inode file releases the inode. */
    method FileClose(f: nat) returns (released: Option<nat>)
      requires Valid() && f < NFILE && loose[f] > 0
      modifies `files, `pipes, `loose
      ensures Valid() && loose == old(loose) - multiset{f}
      ensures |old(files)| == NFILE && old(files)[f].refcnt > 0 && files == old(files)[f := Closed(old(files)[f])]
      ensures released == Releases(old(files)[f])
      ensures pipes == AfterClose(old(pipes), old(files)[f])
    {
      released := None;
      var x := files[f];
      if x.refcnt > 1 {
        SamePipes(files, f, Closed(x), pipes, raw);
        files, loose := files[f := Closed(x)], loose - multiset{f};
        return;
      }
      ghost var was := files;
      files, loose := files[f := Closed(x)], loose - multiset{f};
      match x.kind
      case Inode(slot, _, _) =>
        released := Some(slot);
        SamePipes(was, f, Closed(x), pipes, raw);
      case PipeEnd(i) =>
        ClosePipe(was, f, pipes, raw, i);
        pipes := pipes[i := Shut(pipes[i], x.writable)];
      case _ =>
        SamePipes(was, f, Closed(x), pipes, raw);
    }

    /** pipe::alloc: a slot no file refers to, now in use with both ends open. */
    method PipeAlloc() returns (r: Option<nat>)
      requires Valid()
      modifies `pipes, `raw
      ensures Valid() && |pipes| == NPIPE && (r.None? <==> AllUsed(old(pipes)))
      ensures r.None? ==> pipes == old(pipes) && raw == old(raw)
      ensures r.Some? ==>
        && r.value < NPIPE && old(pipes)[r.value] == PipeSlot(false, false, false) && r.value !in old(raw)
        && pipes == old(pipes)[r.value := PipeSlot(true, true, true)] && raw == old(raw) + {r.value}
    {
      for i := 0 to NPIPE
        invariant pipes == old(pipes) && raw == old(raw) && Valid()
        invariant forall j :: 0 <= j < i ==> pipes[j].used
      {
        if !pipes[i].used {
          assert PipeOk(files, i, pipes[i], i in raw);
          pipes := pipes[i := PipeSlot(true, true, true)];
          raw := raw + {i};
          return Some(i);
        }
      }
      return None;
    }

    /** pipe::free_allocated on a slot that has no files yet. */
    method PipeFree(i: nat)
      requires Valid() && i in raw && i < NPIPE
      modifies `pipes, `raw
      ensures Valid() && pipes == old(pipes)[i := PipeSlot(false, false, false)] && raw == old(raw) - {i}
    {
      assert PipeOk(files, i, pipes[i], true);
      pipes := pipes[i := PipeSlot(false, false, false)];
      raw := raw - {i};
    }

    /** The two files of a new pipe get their kind and direction. */
    method Attach(i: nat, rf: nat, wf: nat)
      requires Valid() && i in raw && i < NPIPE && rf < NFILE && wf < NFILE && rf != wf
      requires files[rf] == File(1, false, false, Unset) && files[wf] == File(1, false, false, Unset)
      modifies `files, `raw
      ensures Valid() && raw == old(raw) - {i}
      ensures files == old(files)[rf := File(1, true, false, PipeEnd(i))][wf := File(1, false, true, PipeEnd(i))]
    {
      AttachOk(files, pipes, raw, i, rf, wf);
      RefsSame(files, fds, loose, rf, File(1, true, false, PipeEnd(i)));
      files := files[rf := File(1, true, false, PipeEnd(i))];
      RefsSame(files, fds, loose, wf, File(1, false, true, PipeEnd(i)));
      files := files[wf := File(1, false, true, PipeEnd(i))];
      raw := raw - {i};
    }

    /** sys_open fills in the file it just got. */
    method SetKind(f: nat, readable: bool, writable: bool, kind: Kind)
      requires Valid() && f < NFILE && files[f] == File(1, false, false, Unset) && !kind.PipeEnd?
      modifies `files
      ensures Valid() && |old(files)| == NFILE && files == old(files)[f := File(1, readable, writable, kind)]
    {
      SamePipes(files, f, File(1, readable, writable, kind), pipes, raw);
      RefsSame(files, fds, loose, f, File(1, readable, writable, kind));
      files := files[f := File(1, readable, writable, kind)];
    }

    /** A reference the caller holds goes into a given unused descriptor. */
    method PutIn(p: nat, fd: nat, f: nat)
      requires Valid() && p < NPROC && fd < NOFILE && fds[Idx(p, fd)] == NULL && f < NFILE && loose[f] > 0
      modifies `fds, `loose
      ensures Valid() && |old(fds)| == NPROC * NOFILE && fds == old(fds)[Idx(p, fd) := f]
      ensures loose == old(loose) - multiset{f}
    {
      fds := fds[Idx(p, fd) := f];
      loose := loose - multiset{f};
    }

    /** The first unused descriptor of process p. */
    method FirstNull(p: nat) returns (r: Option<nat>)
      requires |fds| == NPROC * NOFILE && p < NPROC
      ensures r.None? ==> NULL !in TableOf(fds, p)
      ensures r.Some? ==> r.value < NOFILE && fds[Idx(p, r.value)] == NULL && NULL !in TableOf(fds, p)[..r.value]
    {
      for fd := 0 to NOFILE
        invariant NULL !in TableOf(fds, p)[..fd]
      {
        if fds[Idx(p, fd)] == NULL {
          return Some(fd);
        }
        assert TableOf(fds, p)[..fd + 1] == TableOf(fds, p)[..fd] + [TableOf(fds, p)[fd]];
      }
      assert TableOf(fds, p)[..NOFILE] == TableOf(fds, p);
      return None;
    }

    /** fdalloc: a reference the caller holds moves into the lowest unused descriptor. */
    method FdAlloc(p: nat, f: nat) returns (r: Option<nat>)
      requires Valid() && p < NPROC && f < NFILE && loose[f] > 0
      modifies `fds, `loose
      ensures Valid() && (r.None? <==> NULL !in TableOf(old(fds), p))
      ensures r.None? ==> fds == old(fds) && loose == old(loose)
      ensures r.Some? ==> Installed(old(fds), fds, p, r.value, f) && loose == old(loose) - multiset{f}
    {
      r := FirstNull(p);
      if r.Some? {
        assert TableOf(fds, p)[r.value] == NULL;
        fds := fds[Idx(p, r.value) := f];
        loose := loose - multiset{f};
      }
    }

    /** A reference leaves a descriptor and is held by the caller. */
    method TakeOut(p: nat, fd: nat) returns (f: nat)
      requires Valid() && p < NPROC && fd < NOFILE && fds[Idx(p, fd)] != NULL
      modifies `fds, `loose
      ensures Valid() && f == old(fds)[Idx(p, fd)] < NFILE && fds == old(fds)[Idx(p, fd) := NULL]
      ensures loose == old(loose) + multiset{f} && loose[f] > 0 && files[f].refcnt > 0
    {
      f := fds[Idx(p, fd)];
      fds := fds[Idx(p, fd) := NULL];
      loose := loose + multiset{f};
    }
  }

  // ---- System calls ------------------------------------------------------------------------

  /** sys_close: None is the error return. */
  method SysClose(t: Tables, p: nat, fd: nat) returns (ok: bool, released: Option<nat>)
    requires t.Quiet() && p < NPROC
    modifies t
    ensures t.Quiet() && (ok <==> fd < NOFILE && old(t.fds)[Idx(p, fd)] != NULL)
    ensures !ok ==> t.files == old(t.files) && t.pipes == old(t.pipes) && t.fds == old(t.fds) && released == None
    ensures ok ==>
      var f := old(t.fds)[Idx(p, fd)];
      && t.fds == old(t.fds)[Idx(p, fd) := NULL] && 0 <= f < NFILE && old(t.files)[f].refcnt > 0
      && t.files == old(t.files)[f := Closed(old(t.files)[f])]
      && t.files[f] == (if old(t.files)[f].refcnt == 1 then UNUSED
                        else old(t.files)[f].(refcnt := old(t.files)[f].refcnt - 1))
      && released == Releases(old(t.files)[f])
      && released == (if old(t.files)[f].refcnt == 1 && old(t.files)[f].kind.Inode? then Some(old(t.files)[f].kind.slot)
                      else None)
  {
    ok, released := false, None;
    if fd >= NOFILE || t.fds[Idx(p, fd)] == NULL {
      return;
    }
    var f := t.TakeOut(p, fd);
    released := t.FileClose(f);
    ok := true;
  }

  /** The inode that the next close of f gives up. */
  function Releases(f: File): Option<nat> { if f.refcnt == 1 && f.kind.Inode? then Some(f.kind.slot) else None }

  /** The last reference to a file that goes makes its entry unused and gives up its inode; an
      earlier one only counts. */
  lemma LastClose(f: File)
    requires f.refcnt > 0
    ensures f.refcnt == 1 ==> Closed(f) == UNUSED && (f.kind.Inode? ==> Releases(f) == Some(f.kind.slot))
    ensures f.refcnt > 1 ==> Closed(f) == f.(refcnt := f.refcnt - 1)
    ensures f.refcnt > 1 || !f.kind.Inode? ==> Releases(f) == None
  {
  }

  /** sys_dup: another descriptor for the same file, the lowest unused one. */
  method SysDup(t: Tables, p: nat, fd: nat) returns (r: Option<nat>)
    requires t.Quiet() && p < NPROC
    modifies t
    ensures t.Quiet() && t.pipes == old(t.pipes)
    ensures r.None? ==> t.files == old(t.files) && t.fds == old(t.fds)
    ensures r.None? <==> fd >= NOFILE || old(t.fds)[Idx(p, fd)] == NULL || NULL !in TableOf(old(t.fds), p)
    ensures r.Some? ==>
      var f := old(t.fds)[Idx(p, fd)];
      && Installed(old(t.fds), t.fds, p, r.value, f) && 0 <= f < NFILE
      && t.files == old(t.files)[f := old(t.files)[f].(refcnt := old(t.files)[f].refcnt + 1)]
  {
    hide PipesOk, RefsOk;
    SizesOf(t);
    if fd >= NOFILE || t.fds[Idx(p, fd)] == NULL {
      return None;
    }
    var f := t.fds[Idx(p, fd)];
    r := t.FirstNull(p);
    if r.None? {
      return;
    }
    assert TableOf(t.fds, p)[r.value] == NULL;
    LiveEntry(t, Idx(p, fd));
    SamePipes(t.files, f, t.files[f].(refcnt := t.files[f].refcnt + 1), t.pipes, t.raw);
    RefsDup(t.files, t.fds, t.loose, Idx(p, r.value), f);
    t.fds := t.fds[Idx(p, r.value) := f];
    t.files := t.files[f := t.files[f].(refcnt := t.files[f].refcnt + 1)];
  }

  lemma RefsDup(files: seq<File>, fds: seq<int>, loose: multiset<int>, e: nat, f: nat)
    requires RefsOk(files, fds, loose) && e < |fds| && fds[e] == NULL && f < NFILE
    ensures RefsOk(files[f := files[f].(refcnt := files[f].refcnt + 1)], fds[e := f], loose)
  {
  }

  ghost predicate AtMostOneFree(files: seq<File>) {
    forall f, g :: 0 <= f < |files| && 0 <= g < |files| && files[f].refcnt == 0 && files[g].refcnt == 0 ==> f == g
  }

  ghost predicate AtMostOneNull(t: seq<int>) {
    forall a, b :: 0 <= a < |t| && 0 <= b < |t| && t[a] == NULL && t[b] == NULL ==> a == b
  }

  /** Two descriptors of p refer to the two ends of slot i, which was not in use. */
  ghost predicate NewPipe(files: seq<File>, pipes: seq<PipeSlot>, fds: seq<int>, files': seq<File>,
                          pipes': seq<PipeSlot>, fds': seq<int>,
                          p: nat, rfd: nat, wfd: nat, i: nat, rf: nat, wf: nat) {
    && Made(files, pipes, files', pipes', i, rf, wf)
    && |fds| == NPROC * NOFILE && p < NPROC && rfd < NOFILE && Installed(fds, fds[Idx(p, rfd) := rf], p, rfd, rf)
    && Installed(fds[Idx(p, rfd) := rf], fds', p, wfd, wf)
  }

  /** The files and the slot of a new pipe, before any descriptor refers to them. */
  ghost predicate Made(files: seq<File>, pipes: seq<PipeSlot>, files': seq<File>, pipes': seq<PipeSlot>, i: nat,
                       rf: nat, wf: nat) {
    && |files| == NFILE && |pipes| == NPIPE && i < NPIPE && rf < NFILE && wf < NFILE && rf != wf
    && files[rf] == UNUSED && files[wf] == UNUSED && pipes[i] == PipeSlot(false, false, false)
    && files' == files[rf := File(1, true, false, PipeEnd(i))][wf := File(1, false, true, PipeEnd(i))]
    && pipes' == pipes[i := PipeSlot(true, true, true)]
  }

  /** Two file entries, or none. */
  method TwoFiles(t: Tables) returns (r: Option<(nat, nat)>)
    requires t.Valid() && t.loose == multiset{}
    modifies t`files, t`pipes, t`loose
    ensures t.Valid() && |old(t.files)| == NFILE && t.pipes == old(t.pipes)
    ensures r.None? ==> t.files == old(t.files) && t.loose == multiset{} && AtMostOneFree(old(t.files))
    ensures r.Some? ==>
      var (a, b) := r.value;
      && a < NFILE && b < NFILE && a != b && old(t.files)[a] == UNUSED && old(t.files)[b] == UNUSED
      && t.files == old(t.files)[a := File(1, false, false, Unset)][b := File(1, false, false, Unset)]
      && t.loose == multiset{a, b}
  {
    hide Tables.Valid, Shut, AtMostOneFree, AllBusy;
    SizesOf(t);
    var rp := t.FileAlloc();
    if rp.None? {
      NoneFree(t.files);
      return None;
    }
    ghost var files := t.files;
    var wp := t.FileAlloc();
    if wp.None? {
      OneFree(old(t.files), rp.value);
      var _ := t.FileClose(rp.value);
      return None;
    }
    assert t.files[rp.value] == files[rp.value];
    return Some((rp.value, wp.value));
  }

  method MakePipe(t: Tables) returns (r: Option<(nat, nat, nat)>)
    requires t.Quiet()
    modifies t`files, t`pipes, t`loose, t`raw
    ensures t.Valid() && t.raw == {}
    ensures r.None? ==>
      && t.Quiet() && t.files == old(t.files) && t.pipes == old(t.pipes)
      && (AtMostOneFree(old(t.files)) || AllUsed(old(t.pipes)))
    ensures r.Some? ==>
      && Made(old(t.files), old(t.pipes), t.files, t.pipes, r.value.0, r.value.1, r.value.2)
      && t.loose == multiset{r.value.1, r.value.2}
  {
    hide Tables.Valid, AtMostOneFree, AllUsed;
    SizesOf(t);
    var pipe := t.PipeAlloc();
    if pipe.None? {
      return None;
    }
    var two := TwoFiles(t);
    if two.None? {
      t.PipeFree(pipe.value);
      return None;
    }
    t.Attach(pipe.value, two.value.0, two.value.1);
    MadeIs(old(t.files), t.files, pipe.value, two.value.0, two.value.1);
    return Some((pipe.value, two.value.0, two.value.1));
  }

  lemma MadeIs(files: seq<File>, files': seq<File>, i: nat, rf: nat, wf: nat)
    requires |files| == NFILE && rf < NFILE && wf < NFILE && rf != wf
    requires files' == files[rf := File(1, false, false, Unset)][wf := File(1, false, false, Unset)]
                            [rf := File(1, true, false, PipeEnd(i))][wf := File(1, false, true, PipeEnd(i))]
    ensures files' == files[rf := File(1, true, false, PipeEnd(i))][wf := File(1, false, true, PipeEnd(i))]
  {
  }

  /** Two descriptors for two references, or none. */
  method TwoFds(t: Tables, p: nat, a: nat, b: nat) returns (r: Option<(nat, nat)>)
    requires t.Valid() && p < NPROC && a < NFILE && b < NFILE && t.loose == multiset{a, b}
    modifies t`fds, t`loose
    ensures t.Valid() && |old(t.fds)| == NPROC * NOFILE
    ensures r.None? ==> t.fds == old(t.fds) && t.loose == multiset{a, b} && AtMostOneNull(TableOf(old(t.fds), p))
    ensures r.Some? ==>
      && t.loose == multiset{} && r.value.0 < NOFILE
      && Installed(old(t.fds), old(t.fds)[Idx(p, r.value.0) := a], p, r.value.0, a)
      && Installed(old(t.fds)[Idx(p, r.value.0) := a], t.fds, p, r.value.1, b)
  {
    hide Tables.Valid, AtMostOneNull;
    SizesOf(t);
    var x := t.FdAlloc(p, a);
    if x.None? {
      NoNull(TableOf(t.fds, p));
      return None;
    }
    ghost var fds1 := t.fds;
    var y := t.FdAlloc(p, b);
    if y.None? {
      OneLeft(old(t.fds), fds1, p, x.value, a);
      var _ := t.TakeOut(p, x.value);
      return None;
    }
    return Some((x.value, y.value));
  }

  /** sys_pipe; `copied` says whether the two numbers can be copied out. Any failure
      leaves files, slots and descriptors as they were. */
  method SysPipe(t: Tables, p: nat, copied: bool) returns (r: Option<(nat, nat)>, ghost i: nat, ghost rf: nat,
                 ghost wf: nat)
    requires t.Quiet() && p < NPROC
    modifies t
    ensures t.Quiet() && |old(t.fds)| == NPROC * NOFILE
    ensures r.None? ==> t.files == old(t.files) && t.pipes == old(t.pipes) && t.fds == old(t.fds)
    ensures r.None? ==>
      !copied || AtMostOneFree(old(t.files)) || AtMostOneNull(TableOf(old(t.fds), p)) || AllUsed(old(t.pipes))
    ensures r.Some? ==>
      copied && NewPipe(old(t.files), old(t.pipes), old(t.fds), t.files, t.pipes, t.fds, p, r.value.0, r.value.1, i,
        rf, wf)
  {
    hide Tables.Valid, AtMostOneFree, AtMostOneNull, AllUsed, Installed;
    ghost var files, pipes, fds := t.files, t.pipes, t.fds;
    SizesOf(t);
    r, i, rf, wf := None, 0, 0, 0;
    var made := MakePipe(t);
    if made.None? {
      return;
    }
    var (slot, rp, wp) := made.value;
    i, rf, wf := slot, rp, wp;
    var two := TwoFds(t, p, rp, wp);
    if two.None? {
      CloseBoth(t, rp, wp, slot, files, pipes);
      return;
    }
    if !copied {
      DifferentFds(fds, fds[Idx(p, two.value.0) := rp], t.fds, p, two.value.0, two.value.1, rp, wp);
      var _ := t.TakeOut(p, two.value.0);
      var _ := t.TakeOut(p, two.value.1);
      CloseBoth(t, rp, wp, slot, files, pipes);
      return;
    }
    r := two;
  }

  lemma NoneFree(files: seq<File>)
    requires AllBusy(files)
    ensures AtMostOneFree(files)
  {
  }

  lemma OneFree(files: seq<File>, f: nat)
    requires f < |files| && AllBusy(files[f := File(1, false, false, Unset)])
    ensures AtMostOneFree(files)
  {
    var files' := files[f := File(1, false, false, Unset)];
    assert forall g :: 0 <= g < |files| && g != f ==> files'[g] == files[g];
  }

  lemma NoNull(t: seq<int>)
    requires NULL !in t
    ensures AtMostOneNull(t)
  {
  }

  lemma SizesOf(t: Tables)
    requires t.Valid()
    ensures |t.files| == NFILE && |t.pipes| == NPIPE && |t.fds| == NPROC * NOFILE
    ensures forall f :: 0 <= f < NFILE && t.files[f].refcnt == 0 ==> t.files[f] == UNUSED
  {
    assert forall f :: 0 <= f < NFILE ==> FileOk(t.files[f]);
  }

  lemma OneLeft(fds: seq<int>, fds1: seq<int>, p: nat, fd: nat, f: int)
    requires Installed(fds, fds1, p, fd, f) && f != NULL && NULL !in TableOf(fds1, p)
    ensures AtMostOneNull(TableOf(fds, p)) && fds1[Idx(p, fd)] == f && fds1[Idx(p, fd) := NULL] == fds
  {
    forall a | 0 <= a < NOFILE && TableOf(fds, p)[a] == NULL ensures a == fd {
      assert TableOf(fds1, p)[a] in TableOf(fds1, p);
      assert TableOf(fds1, p)[a] == TableOf(fds, p)[a] || a == fd;
    }
  }

  lemma DifferentFds(fds: seq<int>, fds1: seq<int>, fds2: seq<int>, p: nat, rfd: nat, wfd: nat, rf: int, wf: int)
    requires Installed(fds, fds1, p, rfd, rf) && Installed(fds1, fds2, p, wfd, wf) && rf != NULL && wf != NULL
    ensures rfd != wfd && rfd < NOFILE && wfd < NOFILE && |fds2| == NPROC * NOFILE
    ensures fds2[Idx(p, rfd)] == rf && fds2[Idx(p, rfd) := NULL][Idx(p, wfd)] == fds2[Idx(p, wfd)] == wf
    ensures fds2[Idx(p, rfd) := NULL][Idx(p, wfd) := NULL] == fds
  {
  }

  /** Closing both files of a new pipe puts everything back. */
  method CloseBoth(t: Tables, rf: nat, wf: nat, i: nat, ghost files: seq<File>, ghost pipes: seq<PipeSlot>)
    requires t.Valid() && t.raw == {} && rf < NFILE && wf < NFILE && rf != wf && i < NPIPE
    requires t.loose == multiset{rf, wf}
    requires |files| == NFILE && files[rf] == UNUSED && files[wf] == UNUSED
    requires t.files == files[rf := File(1, true, false, PipeEnd(i))][wf := File(1, false, true, PipeEnd(i))]
    requires |pipes| == NPIPE && pipes[i] == PipeSlot(false, false, false)
    requires t.pipes == pipes[i := PipeSlot(true, true, true)]
    modifies t`files, t`pipes, t`loose
    ensures t.Quiet() && t.files == files && t.pipes == pipes
  {
    hide PipesOk, RefsOk;
    var _ := t.FileClose(rf);
    ghost var pipes1 := t.pipes;
    assert pipes1[i] == PipeSlot(true, false, true);
    var _ := t.FileClose(wf);
    assert t.files == files;
    assert t.pipes == pipes;
  }

  /** How many live files hold a reference to an inode slot. */
  ghost function SlotRefs(files: seq<File>, slot: nat): nat {
    if files == [] then 0 else One(files[0], slot) + SlotRefs(files[1..], slot)
  }

  ghost function One(f: File, slot: nat): nat { if f.refcnt > 0 && f.kind.Inode? && f.kind.slot == slot then 1 else 0 }

  lemma {:induction false} SlotRefsUpdate(files: seq<File>, f: nat, x: File, slot: nat)
    requires f < |files|
    ensures SlotRefs(files[f := x], slot) + One(files[f], slot) == SlotRefs(files, slot) + One(x, slot)
  {
    if f == 0 {
      assert files[f := x][1..] == files[1..];
    } else {
      assert files[f := x][1..] == files[1..][f - 1 := x];
      SlotRefsUpdate(files[1..], f - 1, x, slot);
    }
  }

  /** Inode references given up are references that files held. */
  ghost predicate GivesUp(files: seq<File>, files': seq<File>, released: seq<nat>) {
    forall slot :: SlotRefs(files', slot) + multiset(released)[slot] == SlotRefs(files, slot)
  }

  lemma NothingGiven(files: seq<File>)
    ensures GivesUp(files, files, [])
  {
  }

  lemma CloseGivesUp(files: seq<File>, files1: seq<File>, f: nat, released: seq<nat>, r: Option<nat>)
    requires GivesUp(files, files1, released) && f < |files1| && files1[f].refcnt > 0 && r == Releases(files1[f])
    ensures GivesUp(files, files1[f := Closed(files1[f])], if r.Some? then released + [r.value] else released)
  {
    forall slot: nat
      ensures SlotRefs(files1[f := Closed(files1[f])],
        slot) + multiset(if r.Some? then released + [r.value] else released)[slot] ==
              SlotRefs(files, slot)
    {
      SlotRefsUpdate(files1, f, Closed(files1[f]), slot);
    }
  }

  datatype InodeType = RegularFile | Directory | DeviceFile(major: nat)

  /** What sys_open puts into the file. */
  function OpenKind(typ: InodeType, slot: nat, append: bool): Kind {
    match typ
    case RegularFile => Inode(slot, 0, append)
    case Directory => Inode(slot, 0, false)
    case DeviceFile(major) => Device(major)
  }

  /** sys_open once the inode is found. The reference to it that the caller holds ends up
      in the new file, or is given up exactly once. */
  method OpenInode(t: Tables, p: nat, typ: InodeType, slot: nat, readable: bool, writable: bool, truncate: bool,
                   append: bool)
    returns (r: Option<nat>, iputs: seq<nat>, ghost f: nat)
    requires t.Quiet() && p < NPROC
    modifies t
    ensures t.Quiet() && t.pipes == old(t.pipes) && |old(t.fds)| == NPROC * NOFILE
    ensures r.None? ==> t.files == old(t.files) && t.fds == old(t.fds) && iputs == [slot]
    ensures r.None? <==>
      || (typ.Directory? && writable) || (truncate && (!typ.RegularFile? || !writable))
      || AllBusy(old(t.files)) || NULL !in TableOf(old(t.fds), p)
    ensures r.Some? ==>
      && iputs == (if typ.DeviceFile? then [slot] else [])
      && f < |t.files| && Opened(old(t.files), old(t.fds), t.files, t.fds, p, r.value, f, t.files[f])
      && t.files[f] == File(1, readable, writable, t.files[f].kind)
      && (match typ
          case RegularFile => t.files[f].kind == Inode(slot, 0, append)
          case Directory => t.files[f].kind == Inode(slot, 0, false)
          case DeviceFile(major) => t.files[f].kind == Device(major))
    ensures Conserves(old(t.files), t.files, slot, iputs)
  {
    hide Tables.Valid, AllBusy, Installed, Conserves, Shut;
    ConservesNone(t.files, slot);
    SizesOf(t);
    iputs, f := [], 0;
    if (typ.Directory? && writable) || (truncate && (!typ.RegularFile? || !writable)) {
      return None, [slot], 0;
    }
    var fp := t.FileAlloc();
    if fp.None? {
      return None, [slot], 0;
    }
    f := fp.value;
    t.SetKind(fp.value, readable, writable, OpenKind(typ, slot, append));
    if typ.DeviceFile? {
      iputs := iputs + [slot];
    }
    r := t.FdAlloc(p, fp.value);
    if r.None? {
      var released := t.FileClose(fp.value);
      if released.Some? {
        iputs := iputs + [released.value];
      }
      assert t.files == old(t.files);
      return;
    }
    ConservesOpen(old(t.files), f, File(1, readable, writable, OpenKind(typ, slot, append)), slot, iputs);
  }

  /** One inode reference came in; the files and those given up account for it. */
  ghost predicate Conserves(files: seq<File>, files': seq<File>, slot: nat, iputs: seq<nat>) {
    forall s :: SlotRefs(files', s) + multiset(iputs)[s] == SlotRefs(files, s) + multiset{slot}[s]
  }

  lemma ConservesNone(files: seq<File>, slot: nat)
    ensures Conserves(files, files, slot, [slot])
  {
  }

  lemma ConservesOpen(files: seq<File>, f: nat, x: File, slot: nat, iputs: seq<nat>)
    requires f < |files| && files[f] == UNUSED && x.refcnt > 0
    requires if x.kind.Inode? then x.kind.slot == slot && iputs == [] else iputs == [slot]
    ensures Conserves(files, files[f := x], slot, iputs)
  {
    forall s: nat ensures SlotRefs(files[f := x], s) + multiset(iputs)[s] == SlotRefs(files, s) + multiset{slot}[s] {
      SlotRefsUpdate(files, f, x, s);
    }
  }

  ghost predicate Opened(files: seq<File>, fds: seq<int>, files': seq<File>, fds': seq<int>, p: nat, fd: nat, f: int,
                         x: File) {
    && 0 <= f < |files| && files[f] == UNUSED && files' == files[f := x] && Installed(fds, fds', p, fd, f)
  }

  // ---- fork and exit -------------------------------------------------------------------------

  /** One more reference to f, in a given descriptor. */
  method DupInto(t: Tables, p: nat, fd: nat, f: nat)
    requires t.Quiet() && p < NPROC && fd < NOFILE && |t.fds| == NPROC * NOFILE && t.fds[Idx(p, fd)] == NULL
    requires f < NFILE == |t.files| && t.files[f].refcnt > 0
    modifies t`files, t`fds, t`loose
    ensures t.Quiet() && t.fds == old(t.fds)[Idx(p, fd) := f]
    ensures t.files == old(t.files)[f := old(t.files)[f].(refcnt := old(t.files)[f].refcnt + 1)]
  {
    hide Tables.Valid;
    t.FileDup(f);
    t.PutIn(p, fd, f);
  }

  /** fork's loop: the child's descriptors become the parent's. */
  method ForkFiles(t: Tables, parent: nat, child: nat)
    requires t.Quiet() && parent < NPROC && child < NPROC && parent != child
    requires forall i :: 0 <= i < NOFILE ==> TableOf(t.fds, child)[i] == NULL
    modifies t
    ensures t.Quiet() && t.pipes == old(t.pipes) && |old(t.fds)| == NPROC * NOFILE
    ensures SameButCounts(old(t.files), t.files)
    ensures TableOf(t.fds, child) == TableOf(t.fds, parent) && forall p :: 0 <= p < NPROC && p != child ==>
      TableOf(t.fds, p) == TableOf(old(t.fds), p)
  {
    hide Tables.Valid, SameButCounts;
    SizesOf(t);
    CountsSelf(t.files);
    for fd := 0 to NOFILE
      invariant t.Quiet() && |t.files| == NFILE && |t.fds| == NPROC * NOFILE && t.pipes == old(t.pipes)
      invariant SameButCounts(old(t.files), t.files)
      invariant forall p, i :: 0 <= p < NPROC && 0 <= i < NOFILE ==>
        t.fds[Idx(p, i)] == if p == child && i < fd then old(t.fds)[Idx(parent, i)] else old(t.fds)[Idx(p, i)]
    {
      ghost var files, fds := t.files, t.fds;
      assert TableOf(old(t.fds), child)[fd] == NULL;
      var f := t.fds[Idx(parent, fd)];
      if f != NULL {
        LiveEntry(t, Idx(parent, fd));
        DupInto(t, child, fd, f);
        CountsDup(old(t.files), files, f);
        IdxApart(child, fd);
      }
    }
  }

  /** Only reference counts differ, and no file that was live is free or the reverse. */
  ghost predicate SameButCounts(files: seq<File>, files': seq<File>) {
    |files'| == |files| && forall f :: 0 <= f < |files| ==>
      files'[f] == files[f].(refcnt := files'[f].refcnt) && (files'[f].refcnt > 0 <==> files[f].refcnt > 0)
  }

  lemma CountsSelf(files: seq<File>)
    ensures SameButCounts(files, files)
  {
  }

  lemma CountsDup(files: seq<File>, files1: seq<File>, f: nat)
    requires SameButCounts(files, files1) && f < |files1| && files1[f].refcnt > 0
    ensures SameButCounts(files, files1[f := files1[f].(refcnt := files1[f].refcnt + 1)])
  {
  }

  /** Two different positions are two different descriptors. */
  lemma IdxApart(p: nat, fd: nat)
    requires fd < NOFILE
    ensures forall q: nat, i: nat :: i < NOFILE && Idx(q, i) == Idx(p, fd) ==> q == p && i == fd
  {
  }

  lemma LiveEntry(t: Tables, e: nat)
    requires t.Valid() && e < |t.fds| && t.fds[e] != NULL
    ensures 0 <= t.fds[e] < NFILE && t.files[t.fds[e]].refcnt > 0
  {
    assert t.fds[e] in t.fds;
    assert t.fds[e] in multiset(t.fds);
  }

  /** Files that are still live are the same files, but for their counts. */
  ghost predicate KindKept(files: seq<File>, files': seq<File>) {
    |files| == |files'| && forall f :: 0 <= f < |files| && files'[f].refcnt > 0 ==>
      files[f].refcnt > 0 && files'[f] == files[f].(refcnt := files'[f].refcnt)
  }

  lemma KindTrans(files: seq<File>, files1: seq<File>, files2: seq<File>)
    requires KindKept(files, files1) && KindKept(files1, files2)
    ensures KindKept(files, files2)
  {
  }

  lemma KindSelf(files: seq<File>)
    ensures KindKept(files, files)
  {
  }

  lemma KindClosed(files: seq<File>, f: nat)
    requires f < |files| && files[f].refcnt > 0
    ensures KindKept(files, files[f := Closed(files[f])])
    ensures KindKept(files, files[f := files[f].(refcnt := files[f].refcnt + 1)])
  {
  }

  /** exit's loop: every descriptor of p is closed. */
  method ExitFiles(t: Tables, p: nat) returns (released: seq<nat>)
    requires t.Quiet() && p < NPROC
    modifies t
    ensures t.Quiet() && |old(t.fds)| == NPROC * NOFILE
    ensures (forall i :: 0 <= i < NOFILE ==> TableOf(t.fds, p)[i] == NULL)
    ensures forall q :: 0 <= q < NPROC && q != p ==> TableOf(t.fds, q) == TableOf(old(t.fds), q)
    ensures GivesUp(old(t.files), t.files, released) && KindKept(old(t.files), t.files)
  {
    hide Tables.Valid, GivesUp, KindKept;
    SizesOf(t);
    released := [];
    assert GivesUp(t.files, t.files, []) by { NothingGiven(t.files); }
    KindSelf(t.files);
    for fd := 0 to NOFILE
      invariant t.Quiet() && |t.fds| == NPROC * NOFILE && |t.files| == NFILE && GivesUp(old(t.files), t.files, released)
      invariant KindKept(old(t.files), t.files)
      invariant forall q, i :: 0 <= q < NPROC && 0 <= i < NOFILE ==>
        t.fds[Idx(q, i)] == if q == p && i < fd then NULL else old(t.fds)[Idx(q, i)]
    {
      IdxApart(p, fd);
      if t.fds[Idx(p, fd)] != NULL {
        var f := t.TakeOut(p, fd);
        ghost var files := t.files;
        var r := t.FileClose(f);
        CloseGivesUp(old(t.files), files, f, released, r);
        KindClosed(files, f);
        KindTrans(old(t.files), files, t.files);
        if r.Some? {
          released := released + [r.value];
        }
      }
    }
  }

  // ---- What descriptors say about pipes --------------------------------------------------------

  /** Some process has a descriptor for an end of pipe i. */
  ghost predicate Referred(files: seq<File>, fds: seq<int>, i: nat, write: bool) {
    exists e :: 0 <= e < |fds| && 0 <= fds[e] < |files| && IsEnd(files[fds[e]], i, write)
  }

  /** Between system calls an end of a pipe is open exactly when some process has a
      descriptor for it, and a slot is reused only when no descriptor refers to it. */
  lemma OpenMeansReferred(t: Tables, i: nat)
    requires t.Quiet() && i < NPIPE
    ensures t.pipes[i].readopen <==> Referred(t.files, t.fds, i, false)
    ensures t.pipes[i].writeopen <==> Referred(t.files, t.fds, i, true)
    ensures t.pipes[i].used <==> Referred(t.files, t.fds, i, false) || Referred(t.files, t.fds, i, true)
  {
    assert PipeOk(t.files, i, t.pipes[i], false);
    EndReferred(t, i, false);
    EndReferred(t, i, true);
  }

  lemma EndReferred(t: Tables, i: nat, w: bool)
    requires t.Quiet()
    ensures HasEnd(t.files, i, w) <==> Referred(t.files, t.fds, i, w)
  {
    if HasEnd(t.files, i, w) {
      var f :| 0 <= f < |t.files| && IsEnd(t.files[f], i, w);
      assert f in multiset(t.fds);
      assert f in t.fds;
      var e :| 0 <= e < |t.fds| && t.fds[e] == f;
      assert IsEnd(t.files[t.fds[e]], i, w);
    }
    if Referred(t.files, t.fds, i, w) {
      var e :| 0 <= e < |t.fds| && 0 <= t.fds[e] < |t.files| && IsEnd(t.files[t.fds[e]], i, w);
      assert IsEnd(t.files[t.fds[e]], i, w);
    }
  }

  /** f went into descriptor fd, the lowest that was unused. */
  ghost predicate Installed(fds: seq<int>, fds': seq<int>, p: nat, fd: nat, f: int) {
    && |fds| == NPROC * NOFILE && p < NPROC && fd < NOFILE && fds[Idx(p, fd)] == NULL
    && NULL !in TableOf(fds, p)[..fd] && fds' == fds[Idx(p, fd) := f]
  }

  lemma RefsSame(files: seq<File>, fds: seq<int>, loose: multiset<int>, f: nat, x: File)
    requires RefsOk(files, fds, loose) && f < NFILE && x.refcnt == files[f].refcnt
    ensures RefsOk(files[f := x], fds, loose)
  {
  }

  lemma AttachOk(files: seq<File>, pipes: seq<PipeSlot>, raw: set<nat>, i: nat, rf: nat, wf: nat)
    requires PipesOk(files, pipes, raw) && i in raw && i < NPIPE && rf < |files| && wf < |files| && rf != wf
    requires files[rf] == File(1, false, false, Unset) && files[wf] == File(1, false, false, Unset)
    ensures PipesOk(files[rf := File(1, true, false, PipeEnd(i))][wf := File(1, false, true, PipeEnd(i))], pipes,
      raw - {i})
  {
    var x, y := File(1, true, false, PipeEnd(i)), File(1, false, true, PipeEnd(i));
    var files1 := files[rf := x];
    var files2 := files1[wf := y];
    forall j | 0 <= j < NPIPE ensures PipeOk(files2, j, pipes[j], j in raw - {i}) {
      assert PipeOk(files, j, pipes[j], j in raw);
      if j == i {
        EndNew(files, rf, x, i, false);
        SameEnds(files, rf, x, i, true);
        SameEnds(files1, wf, y, i, false);
        EndNew(files1, wf, y, i, true);
      } else {
        SameEnds(files, rf, x, j, true);
        SameEnds(files, rf, x, j, false);
        SameEnds(files1, wf, y, j, true);
        SameEnds(files1, wf, y, j, false);
      }
    }
  }

  /** A file after one close. */
  function Closed(f: File): File
    requires f.refcnt > 0
  {
    if f.refcnt == 1 then UNUSED else f.(refcnt := f.refcnt - 1)
  }

  ghost predicate AllBusy(files: seq<File>) { forall f :: 0 <= f < |files| ==> files[f].refcnt > 0 }

  ghost predicate AllUsed(pipes: seq<PipeSlot>) { forall i :: 0 <= i < |pipes| ==> pipes[i].used }

  /** The slots after a close of f. */
  function AfterClose(pipes: seq<PipeSlot>, f: File): seq<PipeSlot> {
    if f.kind.PipeEnd? && IsLastEnd(f, f.kind.pipe) && f.kind.pipe < |pipes|
    then pipes[f.kind.pipe := Shut(pipes[f.kind.pipe], f.writable)] else pipes
  }

  predicate IsLastEnd(f: File, i: nat) { f.refcnt == 1 && f.kind == PipeEnd(i) }

  /** pipe::close. */
  function Shut(s: PipeSlot, write: bool): PipeSlot {
    var t := if write then s.(writeopen := false) else s.(readopen := false);
    if !t.readopen && !t.writeopen then t.(used := false) else t
  }

  lemma {:induction false} NotThere(fds: seq<int>, f: int)
    requires f !in fds
    ensures multiset(fds)[f] == 0
  {
  }

  lemma ClosePipe(files: seq<File>, f: nat, pipes: seq<PipeSlot>, raw: set<nat>, i: nat)
    requires PipesOk(files, pipes, raw) && f < |files| && i < NPIPE && IsLastEnd(files[f], i) && FileOk(files[f])
    ensures PipesOk(files[f := UNUSED], pipes[i := Shut(pipes[i], files[f].writable)], raw)
  {
    var files', w := files[f := UNUSED], files[f].writable;
    forall j | 0 <= j < NPIPE ensures PipeOk(files', j, pipes[i := Shut(pipes[i], w)][j], j in raw) {
      assert PipeOk(files, j, pipes[j], j in raw);
      if j == i {
        EndGone(files, f, UNUSED, i, w);
        SameEnds(files, f, UNUSED, i, !w);
      } else {
        SameEnds(files, f, UNUSED, j, true);
        SameEnds(files, f, UNUSED, j, false);
      }
    }
  }
}
