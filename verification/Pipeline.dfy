/** The shell's pipelines: after all descriptors are set up, each pipe connects exactly
    two neighbours and nobody else can keep it open. */
module Pipeline {
  import opened Prelude
  import opened OpenFiles

  /** A pipe of the shell: its two descriptors, the files behind them and its slot. */
  datatype Pipe = Pipe(rfd: nat, wfd: nat, rf: int, wf: int, slot: nat)

  type Table = t: seq<int> | |t| == NOFILE witness seq(NOFILE, _ => NULL)

  // ---- One process's descriptors ------------------------------------------------------

  function Without(t: Table, fd: nat): Table { if fd < NOFILE then t[fd := NULL] else t }

  /** close_pipes. */
  function Cleared(t: Table, pipes: seq<Pipe>): Table
    decreases |pipes|
  {
    if pipes == [] then t
    else Without(Without(Cleared(t, pipes[..|pipes| - 1]), pipes[|pipes| - 1].rfd), pipes[|pipes| - 1].wfd)
  }

  ghost predicate IsPipeFd(pipes: seq<Pipe>, x: nat) {
    exists k :: 0 <= k < |pipes| && (pipes[k].rfd == x || pipes[k].wfd == x)
  }

  lemma {:induction false} ClearedAt(t: Table, pipes: seq<Pipe>, x: nat)
    requires x < NOFILE
    ensures Cleared(t, pipes)[x] == if IsPipeFd(pipes, x) then NULL else t[x]
    decreases |pipes|
  {
    if pipes != [] {
      var n := |pipes| - 1;
      ClearedAt(t, pipes[..n], x);
      assert IsPipeFd(pipes, x) <==> IsPipeFd(pipes[..n], x) || pipes[n].rfd == x || pipes[n].wfd == x by {
        if IsPipeFd(pipes[..n], x) {
          var k :| 0 <= k < n && (pipes[..n][k].rfd == x || pipes[..n][k].wfd == x);
          assert pipes[k].rfd == x || pipes[k].wfd == x;
        }
        if IsPipeFd(pipes, x) {
          var k :| 0 <= k < |pipes| && (pipes[k].rfd == x || pipes[k].wfd == x);
          assert k < n ==> pipes[..n][k].rfd == x || pipes[..n][k].wfd == x;
        }
      }
    }
  }

  /** Process p's descriptors are `t`, everybody else's are as in `fds`. */
  ghost predicate Has(fds: seq<int>, fds': seq<int>, p: nat, t: Table) {
    && |fds| == |fds'| == NPROC * NOFILE && p < NPROC && TableOf(fds', p) == t
    && forall q :: 0 <= q < NPROC && q != p ==> TableOf(fds', q) == TableOf(fds, q)
  }

  lemma HasUpdate(fds: seq<int>, p: nat, fd: nat, v: int)
    requires |fds| == NPROC * NOFILE && p < NPROC && fd < NOFILE
    ensures Has(fds, fds[Idx(p, fd) := v], p, TableOf(fds, p)[fd := v])
  {
    IdxApart(p, fd);
    var fds' := fds[Idx(p, fd) := v];
    assert TableOf(fds', p) == TableOf(fds, p)[fd := v];
    forall q | 0 <= q < NPROC && q != p ensures TableOf(fds', q) == TableOf(fds, q) {
      assert forall i :: 0 <= i < NOFILE ==> fds'[Idx(q, i)] == fds[Idx(q, i)];
    }
  }

  lemma HasSame(fds: seq<int>, p: nat)
    requires |fds| == NPROC * NOFILE && p < NPROC
    ensures Has(fds, fds, p, TableOf(fds, p))
  {
  }

  lemma HasTrans(fds: seq<int>, fds1: seq<int>, fds2: seq<int>, p: nat, t: Table, t': Table)
    requires Has(fds, fds1, p, t) && Has(fds1, fds2, p, t')
    ensures Has(fds, fds2, p, t')
  {
  }

  /** close in user code: an error is ignored. */
  method Close(t: Tables, p: nat, fd: nat)
    requires t.Quiet() && p < NPROC
    modifies t
    ensures t.Quiet() && |old(t.fds)| == NPROC * NOFILE
    ensures Has(old(t.fds), t.fds, p, Without(TableOf(old(t.fds), p), fd))
    ensures KindKept(old(t.files), t.files)
  {
    hide Tables.Valid, Has, TableOf, KindKept;
    SizesOf(t);
    ghost var fds, files := t.fds, t.files;
    HasSame(fds, p);
    KindSelf(files);
    var ok, _ := SysClose(t, p, fd);
    if ok { KindClosed(files, fds[Idx(p, fd)]); }
    if fd < NOFILE {
      HasUpdate(fds, p, fd, NULL);
      if !ok { SameEntry(fds, p, fd); }
    }
  }

  lemma SameEntry(fds: seq<int>, p: nat, fd: nat)
    requires |fds| == NPROC * NOFILE && p < NPROC && fd < NOFILE && fds[Idx(p, fd)] == NULL
    ensures TableOf(fds, p)[fd := NULL] == TableOf(fds, p)
  {
  }

  method ClosePipes(t: Tables, p: nat, pipes: seq<Pipe>)
    requires t.Quiet() && p < NPROC
    modifies t
    ensures t.Quiet() && |old(t.fds)| == NPROC * NOFILE
    ensures Has(old(t.fds), t.fds, p, Cleared(TableOf(old(t.fds), p), pipes))
    ensures KindKept(old(t.files), t.files)
  {
    hide Tables.Valid, Has, TableOf, KindKept;
    SizesOf(t);
    ghost var fds, files := t.fds, t.files;
    HasSame(fds, p);
    KindSelf(files);
    for k := 0 to |pipes|
      invariant t.Quiet() && |fds| == NPROC * NOFILE && Has(fds, t.fds, p, Cleared(TableOf(fds, p), pipes[..k]))
      invariant KindKept(files, t.files)
    {
      ghost var fds1, files1 := t.fds, t.files;
      HasTable(fds, fds1, p, Cleared(TableOf(fds, p), pipes[..k]));
      Close(t, p, pipes[k].rfd);
      KindTrans(files, files1, t.files);
      ghost var files2 := t.files;
      ghost var fds2, t2 := t.fds, Without(Cleared(TableOf(fds, p), pipes[..k]), pipes[k].rfd);
      HasTrans(fds, fds1, fds2, p, Cleared(TableOf(fds, p), pipes[..k]), t2);
      HasTable(fds, fds2, p, t2);
      Close(t, p, pipes[k].wfd);
      KindTrans(files, files2, t.files);
      HasTrans(fds, fds2, t.fds, p, t2, Without(t2, pipes[k].wfd));
      assert pipes[..k + 1][..k] == pipes[..k];
    }
    assert pipes[..|pipes|] == pipes;
  }

  lemma HasTable(fds: seq<int>, fds': seq<int>, p: nat, t: Table)
    requires Has(fds, fds', p, t)
    ensures |fds'| == NPROC * NOFILE && p < NPROC && TableOf(fds', p) == t
  {
  }

  /** close(fd) followed by dup(from), which lands on fd. */
  method Redirect(t: Tables, p: nat, fd: nat, from: nat) returns (ok: bool)
    requires t.Quiet() && p < NPROC && fd < NOFILE && from < NOFILE && from != fd && |t.fds| == NPROC * NOFILE
    requires TableOf(t.fds, p)[from] != NULL && NULL !in TableOf(t.fds, p)[..fd]
    modifies t
    ensures t.Quiet() && ok && |old(t.fds)| == NPROC * NOFILE && KindKept(old(t.files), t.files)
    ensures Has(old(t.fds), t.fds, p, TableOf(old(t.fds), p)[fd := TableOf(old(t.fds), p)[from]])
  {
    hide Tables.Valid, Has, KindKept;
    SizesOf(t);
    ghost var fds, files, tab := t.fds, t.files, TableOf(t.fds, p);
    Close(t, p, fd);
    ghost var fds1, files1 := t.fds, t.files;
    HasTable(fds, fds1, p, tab[fd := NULL]);
    SizesOf(t);
    assert TableOf(fds1, p)[fd] == NULL;
    assert fds1[Idx(p, from)] == tab[from];
    LiveEntry(t, Idx(p, from));
    var r := SysDup(t, p, from);
    LowestIs(fds1, t.fds, p, r.value, fd, tab, tab[from]);
    ok := r == Some(fd);
    HasUpdate(fds1, p, fd, tab[from]);
    LiveBefore(files1, t.files, tab[from]);
    KindTrans(files, files1, t.files);
    assert tab[fd := NULL][fd := tab[from]] == tab[fd := tab[from]];
    HasTrans(fds, fds1, t.fds, p, tab[fd := NULL], tab[fd := tab[from]]);
  }

  /** The lowest unused descriptor is the one just closed. */
  lemma LowestIs(fds1: seq<int>, fds2: seq<int>, p: nat, m: nat, fd: nat, tab: Table, f: int)
    requires Installed(fds1, fds2, p, m, f) && fd < NOFILE && TableOf(fds1, p) == tab[fd := NULL] && NULL !in tab[..fd]
    ensures m == fd
  {
    PrefixLive(TableOf(fds1, p), m);
    PrefixLive(tab, fd);
    assert TableOf(fds1, p)[m] == NULL && TableOf(fds1, p)[fd] == NULL;
  }

  lemma PrefixLive(s: seq<int>, n: nat)
    requires n <= |s| && NULL !in s[..n]
    ensures forall x :: 0 <= x < n ==> s[x] != NULL
  {
    forall x | 0 <= x < n ensures s[x] != NULL {
      assert s[..n][x] in s[..n];
    }
  }

  lemma LiveBefore(files: seq<File>, files': seq<File>, f: int)
    requires 0 <= f < |files| && files' == files[f := files[f].(refcnt := files[f].refcnt + 1)] && files[f].refcnt > 0
    ensures KindKept(files, files')
  {
  }

  // ---- The whole pipeline -------------------------------------------------------------

  /** The shell's descriptors `tab`, grown from `base` by the pipes. */
  ghost predicate Plumbed(base: Table, tab: Table, pipes: seq<Pipe>) {
    && (forall k :: 0 <= k < |pipes| ==> PipeAt(base, tab, pipes[k]))
    && forall x :: 0 <= x < NOFILE && !IsPipeFd(pipes, x) ==> tab[x] == base[x]
  }

  ghost predicate PipeAt(base: Table, tab: Table, c: Pipe) {
    && c.rfd < NOFILE && c.wfd < NOFILE && base[c.rfd] == NULL && base[c.wfd] == NULL
    && tab[c.rfd] == c.rf && tab[c.wfd] == c.wf && c.rf >= 0 && c.wf >= 0
  }

  /** What command i of the pipeline is meant to have: its neighbours' pipes as standard
      input and output, and otherwise what the shell had. */
  function Wired(base: Table, i: nat, pipes: seq<Pipe>): Table
    requires i <= |pipes|
  {
    var a := if i > 0 then base[0 := pipes[i - 1].rf] else base;
    if i < |pipes| then a[1 := pipes[i].wf] else a
  }

  /** Command i reads from pipe i - 1 and writes to pipe i where there is one; every other
      descriptor is the shell's. */
  lemma WiredIs(base: Table, i: nat, pipes: seq<Pipe>, x: nat)
    requires i <= |pipes| && x < NOFILE
    ensures Wired(base, i, pipes)[x] ==
            if x == 0 && i > 0 then pipes[i - 1].rf else if x == 1 && i < |pipes| then pipes[i].wf else base[x]
  {
  }

  lemma ClearedTo(u: Table, w: Table, pipes: seq<Pipe>)
    requires forall z: nat :: z < NOFILE ==> if IsPipeFd(pipes, z) then w[z] == NULL else u[z] == w[z]
    ensures Cleared(u, pipes) == w
  {
    forall z: nat | z < NOFILE ensures Cleared(u, pipes)[z] == w[z] {
      ClearedAt(u, pipes, z);
    }
  }

  lemma PlumbedAt(base: Table, tab: Table, pipes: seq<Pipe>, z: nat)
    requires Plumbed(base, tab, pipes) && z < NOFILE
    ensures if IsPipeFd(pipes, z) then base[z] == NULL else tab[z] == base[z]
  {
    if IsPipeFd(pipes, z) {
      var k :| 0 <= k < |pipes| && (pipes[k].rfd == z || pipes[k].wfd == z);
      assert PipeAt(base, tab, pipes[k]);
    }
  }

  /** The redirected table, once the pipe descriptors are closed. */
  lemma ClearedWired(base: Table, tab: Table, pipes: seq<Pipe>, i: nat)
    requires Plumbed(base, tab, pipes) && base[0] != NULL && base[1] != NULL && i <= |pipes|
    ensures var a := if i > 0 then tab[0 := pipes[i - 1].rf] else tab;
            Cleared(if i < |pipes| then a[1 := pipes[i].wf] else a, pipes) == Wired(base, i, pipes)
    ensures Cleared(tab, pipes) == base
  {
    hide Plumbed, IsPipeFd;
    forall z: nat | z < NOFILE ensures if IsPipeFd(pipes, z) then base[z] == NULL else tab[z] == base[z] {
      PlumbedAt(base, tab, pipes, z);
    }
    var a := if i > 0 then tab[0 := pipes[i - 1].rf] else tab;
    ClearedTo(if i < |pipes| then a[1 := pipes[i].wf] else a, Wired(base, i, pipes), pipes);
    ClearedTo(tab, base, pipes);
  }

  /** setup_pipeline_fds: never fails, and leaves command i wired as intended. */
  method SetupPipelineFds(t: Tables, p: nat, i: nat, pipes: seq<Pipe>, ghost base: Table) returns (ok: bool)
    requires t.Quiet() && p < NPROC && i <= |pipes| && |t.fds| == NPROC * NOFILE
    requires Plumbed(base, TableOf(t.fds, p), pipes) && base[0] != NULL && base[1] != NULL
    modifies t
    ensures t.Quiet() && ok && KindKept(old(t.files), t.files) && Has(old(t.fds), t.fds, p, Wired(base, i, pipes))
  {
    hide Tables.Valid, Has, KindKept, IsPipeFd;
    ghost var fds, files, tab := t.fds, t.files, TableOf(t.fds, p);
    PlumbedAt(base, tab, pipes, 0);
    PlumbedAt(base, tab, pipes, 1);
    ClearedWired(base, tab, pipes, i);
    HasSame(fds, p);
    KindSelf(files);
    ok := true;
    ghost var tab1 := tab;
    if i > 0 {
      assert PipeAt(base, tab, pipes[i - 1]);
      ok := Redirect(t, p, 0, pipes[i - 1].rfd);
      tab1 := tab[0 := pipes[i - 1].rf];
    }
    HasTable(fds, t.fds, p, tab1);
    ghost var fds1, files1, tab2 := t.fds, t.files, tab1;
    if i < |pipes| {
      assert PipeAt(base, tab, pipes[i]);
      assert tab1[..1] == [tab1[0]];
      ok := Redirect(t, p, 1, pipes[i].wfd);
      tab2 := tab1[1 := pipes[i].wf];
      HasTrans(fds, fds1, t.fds, p, tab1, tab2);
      KindTrans(files, files1, t.files);
    }
    HasTable(fds, t.fds, p, tab2);
    ghost var fds2, files2 := t.fds, t.files;
    ClosePipes(t, p, pipes);
    HasTrans(fds, fds2, t.fds, p, tab2, Wired(base, i, pipes));
    KindTrans(files, files2, t.files);
  }

  /** A descriptor that is unused is no pipe descriptor. */
  lemma FreeIsNoPipe(base: Table, tab: Table, pipes: seq<Pipe>, z: nat)
    requires Plumbed(base, tab, pipes) && z < NOFILE && tab[z] == NULL
    ensures !IsPipeFd(pipes, z) && base[z] == NULL
  {
    forall k | 0 <= k < |pipes| ensures pipes[k].rfd != z && pipes[k].wfd != z {
      assert PipeAt(base, tab, pipes[k]);
    }
  }

  lemma MorePipeFds(pipes: seq<Pipe>, c: Pipe, x: nat)
    ensures IsPipeFd(pipes, x) ==> IsPipeFd(pipes + [c], x)
  {
    if IsPipeFd(pipes, x) {
      var k :| 0 <= k < |pipes| && (pipes[k].rfd == x || pipes[k].wfd == x);
      assert (pipes + [c])[k] == pipes[k];
    }
  }

  lemma PlumbMore(base: Table, tab: Table, pipes: seq<Pipe>, c: Pipe)
    requires Plumbed(base, tab, pipes) && c.rfd < NOFILE && c.wfd < NOFILE && c.rfd != c.wfd && c.rf >= 0 && c.wf >= 0
    requires tab[c.rfd] == NULL && tab[c.wfd] == NULL
    ensures Plumbed(base, tab[c.rfd := c.rf][c.wfd := c.wf], pipes + [c])
  {
    var tab', pipes' := tab[c.rfd := c.rf][c.wfd := c.wf], pipes + [c];
    FreeIsNoPipe(base, tab, pipes, c.rfd);
    FreeIsNoPipe(base, tab, pipes, c.wfd);
    forall k | 0 <= k < |pipes'| ensures PipeAt(base, tab', pipes'[k]) {
      if k < |pipes| {
        assert PipeAt(base, tab, pipes[k]);
        assert IsPipeFd(pipes, pipes[k].rfd) && IsPipeFd(pipes, pipes[k].wfd);
      }
    }
    forall x | 0 <= x < NOFILE && !IsPipeFd(pipes', x) ensures tab'[x] == base[x] {
      assert pipes'[|pipes|] == c;
      MorePipeFds(pipes, c, x);
    }
  }

  /** The files of the pipes are the ends of their slots. */
  ghost predicate EndsAre(files: seq<File>, pipes: seq<Pipe>) {
    forall k :: 0 <= k < |pipes| ==> EndsOf(files, pipes[k])
  }

  ghost predicate EndsOf(files: seq<File>, c: Pipe) {
    && 0 <= c.rf < |files| && 0 <= c.wf < |files| && c.rf != c.wf
    && IsEnd(files[c.rf], c.slot, false) && IsEnd(files[c.wf], c.slot, true)
  }

  /** No two pipes share a file. */
  ghost predicate Distinct(pipes: seq<Pipe>) {
    forall j, k :: 0 <= j < k < |pipes| ==> Unshared(pipes[j], pipes[k])
  }

  ghost predicate Unshared(a: Pipe, b: Pipe) { a.rf != b.rf && a.wf != b.wf && a.rf != b.wf && a.wf != b.rf }

  /** No descriptor referred to the pipes' files before they were made. */
  ghost predicate Unseen(fds: seq<int>, pipes: seq<Pipe>) {
    forall k :: 0 <= k < |pipes| ==> pipes[k].rf !in fds && pipes[k].wf !in fds
  }

  lemma Unreferred(files: seq<File>, fds: seq<int>, f: nat)
    requires RefsOk(files, fds, multiset{}) && f < NFILE && files[f].refcnt == 0
    ensures f !in fds
  {
    assert f in fds <==> f in multiset(fds);
  }

  /** Descriptors that were in use are in use still. */
  lemma StillThere(fds: seq<int>, fds': seq<int>, p: nat, tab: Table, pipes: seq<Pipe>, f: int)
    requires Has(fds, fds', p, tab) && Plumbed(TableOf(fds, p), tab, pipes) && f in fds && f != NULL
    ensures f in fds'
  {
    var e :| 0 <= e < |fds| && fds[e] == f;
    var q, x := e / NOFILE, e % NOFILE;
    assert e == Idx(q, x);
    if q == p {
      assert TableOf(fds, p)[x] == f;
      PlumbedAt(TableOf(fds, p), tab, pipes, x);
      assert fds'[Idx(p, x)] == TableOf(fds', p)[x] == f;
    } else {
      assert TableOf(fds', q)[x] == TableOf(fds, q)[x];
      assert fds'[Idx(q, x)] == f;
    }
  }

  lemma PipeFilesThere(fds: seq<int>, p: nat, base: Table, tab: Table, pipes: seq<Pipe>, k: nat)
    requires |fds| == NPROC * NOFILE && p < NPROC && TableOf(fds, p) == tab && Plumbed(base, tab, pipes) && k < |pipes|
    ensures pipes[k].rf in fds && pipes[k].wf in fds
  {
    assert PipeAt(base, tab, pipes[k]);
    assert fds[Idx(p, pipes[k].rfd)] == pipes[k].rf && fds[Idx(p, pipes[k].wfd)] == pipes[k].wf;
  }

  /** All the pipes of a pipeline are there, and known to the shell alone. */
  ghost predicate Ready(t: Tables, fds: seq<int>, shell: nat, pipes: seq<Pipe>)
    reads t
  {
    && t.Quiet() && |fds| == |t.fds| == NPROC * NOFILE && shell < NPROC && |t.files| == NFILE
    && Has(fds, t.fds, shell, TableOf(t.fds, shell)) && Plumbed(TableOf(fds, shell), TableOf(t.fds, shell), pipes)
    && EndsAre(t.files, pipes) && Distinct(pipes) && Unseen(fds, pipes)
  }

  lemma NewPipeFacts(files: seq<File>, slots: seq<PipeSlot>, fds: seq<int>, files': seq<File>, slots': seq<PipeSlot>,
                     fds': seq<int>,
                     p: nat, c: Pipe)
    requires c.rf >= 0 && c.wf >= 0
    requires NewPipe(files, slots, fds, files', slots', fds', p, c.rfd, c.wfd, c.slot, c.rf, c.wf)
    ensures c.rfd < NOFILE && c.wfd < NOFILE && c.rfd != c.wfd && TableOf(fds, p)[c.rfd] == NULL
    ensures TableOf(fds, p)[c.wfd] == NULL
    ensures Has(fds, fds', p, TableOf(fds, p)[c.rfd := c.rf][c.wfd := c.wf])
    ensures fds'[Idx(p, c.rfd)] == c.rf && fds'[Idx(p, c.wfd)] == c.wf
    ensures c.rf < NFILE && c.wf < NFILE && |files'| == |files| == NFILE && files'[c.rf].kind == PipeEnd(c.slot)
    ensures EndsOf(files', c)
    ensures files[c.rf].refcnt == 0 && files[c.wf].refcnt == 0
    ensures forall f :: 0 <= f < NFILE && f != c.rf && f != c.wf ==> files'[f] == files[f]
  {
    hide Has;
    var fds1 := fds[Idx(p, c.rfd) := c.rf];
    DifferentFds(fds, fds1, fds', p, c.rfd, c.wfd, c.rf, c.wf);
    HasUpdate(fds, p, c.rfd, c.rf);
    HasTable(fds, fds1, p, TableOf(fds, p)[c.rfd := c.rf]);
    HasUpdate(fds1, p, c.wfd, c.wf);
    HasTrans(fds, fds1, fds', p, TableOf(fds, p)[c.rfd := c.rf], TableOf(fds, p)[c.rfd := c.rf][c.wfd := c.wf]);
    assert TableOf(fds1, p)[c.wfd] == NULL;
  }

  /** The files of a new pipe are new to everybody. */
  lemma NewFiles(fds: seq<int>, fds1: seq<int>, files: seq<File>, files': seq<File>, p: nat, tab: Table,
                 pipes: seq<Pipe>, c: Pipe)
    requires RefsOk(files, fds1, multiset{}) && Has(fds, fds1, p, tab) && Plumbed(TableOf(fds, p), tab, pipes)
    requires EndsAre(files, pipes) && Distinct(pipes) && Unseen(fds, pipes) && EndsOf(files', c)
    requires |files'| == |files| == NFILE
    requires |fds| == NPROC * NOFILE && 0 <= c.rf < NFILE && 0 <= c.wf < NFILE
    requires files[c.rf].refcnt == 0 && files[c.wf].refcnt == 0
    requires forall f :: 0 <= f < NFILE && f != c.rf && f != c.wf ==> files'[f] == files[f]
    ensures EndsAre(files', pipes + [c]) && Distinct(pipes + [c]) && Unseen(fds, pipes + [c])
  {
    hide RefsOk, Has, Plumbed, EndsOf, TableOf;
    Unreferred(files, fds1, c.rf);
    Unreferred(files, fds1, c.wf);
    if c.rf in fds { StillThere(fds, fds1, p, tab, pipes, c.rf); }
    if c.wf in fds { StillThere(fds, fds1, p, tab, pipes, c.wf); }
    HasTable(fds, fds1, p, tab);
    forall k | 0 <= k < |pipes| ensures Unshared(pipes[k], c) && EndsOf(files', pipes[k]) {
      PipeFilesThere(fds1, p, TableOf(fds, p), tab, pipes, k);
      assert EndsOf(files, pipes[k]);
      SameEnd(files, files', pipes[k], c);
    }
  }

  lemma SameEnd(files: seq<File>, files': seq<File>, a: Pipe, c: Pipe)
    requires EndsOf(files, a) && Unshared(a, c) && |files| == |files'| == NFILE
    requires forall f :: 0 <= f < NFILE && f != c.rf && f != c.wf ==> files'[f] == files[f]
    ensures EndsOf(files', a)
  {
  }

  // ---- Room for pipes ---------------------------------------------------------------------

  ghost function Trues(b: seq<bool>): nat { if b == [] then 0 else (if b[0] then 1 else 0) + Trues(b[1..]) }

  lemma {:induction false} TruesUpdate(b: seq<bool>, i: nat, v: bool)
    requires i < |b|
    ensures Trues(b[i := v]) + (if b[i] then 1 else 0) == Trues(b) + if v then 1 else 0
  {
    if i == 0 {
      assert b[i := v][1..] == b[1..];
    } else {
      assert b[i := v][1..] == b[1..][i - 1 := v];
      TruesUpdate(b[1..], i - 1, v);
    }
  }

  lemma {:induction false} TruesFew(b: seq<bool>, n: nat)
    requires n <= 1 && (n == 0 ==> true !in b)
    requires forall i, j :: 0 <= i < |b| && 0 <= j < |b| && b[i] && b[j] ==> i == j
    ensures Trues(b) <= n
    decreases |b|
  {
    if b != [] {
      assert forall i :: 0 <= i < |b[1..]| ==> b[1..][i] == b[i + 1];
      if b[0] {
        assert true !in b[1..];
        TruesFew(b[1..], 0);
      } else {
        TruesFew(b[1..], n);
      }
    }
  }

  ghost function FreeFiles(files: seq<File>): (b: seq<bool>)
    ensures |b| == |files| && forall i :: 0 <= i < |b| ==> b[i] == (files[i].refcnt == 0)
  {
    seq(|files|, (i: nat) requires i < |files| => files[i].refcnt == 0)
  }

  ghost function FreeFds(t: Table): (b: seq<bool>)
    ensures |b| == |t| && forall i :: 0 <= i < |b| ==> b[i] == (t[i] == NULL)
  {
    seq(|t|, (i: nat) requires i < |t| => t[i] == NULL)
  }

  ghost function FreeSlots(pipes: seq<PipeSlot>): (b: seq<bool>)
    ensures |b| == |pipes| && forall i :: 0 <= i < |b| ==> b[i] == !pipes[i].used
  {
    seq(|pipes|, (i: nat) requires i < |pipes| => !pipes[i].used)
  }

  /** Files, descriptors and slots for n more pipes. */
  ghost predicate Room(files: seq<File>, tab: Table, slots: seq<PipeSlot>, n: int) {
    2 * n <= Trues(FreeFiles(files)) && 2 * n <= Trues(FreeFds(tab)) && n <= Trues(FreeSlots(slots))
  }

  /** sys_pipe only fails for want of room. */
  lemma NoRoomLeft(files: seq<File>, tab: Table, slots: seq<PipeSlot>)
    requires AtMostOneFree(files) || AtMostOneNull(tab) || AllUsed(slots)
    ensures !Room(files, tab, slots, 1)
  {
    if AtMostOneFree(files) {
      TruesFew(FreeFiles(files), 1);
    } else if AtMostOneNull(tab) {
      TruesFew(FreeFds(tab), 1);
    } else {
      TruesFew(FreeSlots(slots), 0);
    }
  }

  lemma TwoFewer(b: seq<bool>, b': seq<bool>, i: nat, j: nat)
    requires i < |b| && j < |b| && i != j && b[i] && b[j] && b' == b[i := false][j := false]
    ensures Trues(b') + 2 == Trues(b)
  {
    TruesUpdate(b, i, false);
    TruesUpdate(b[i := false], j, false);
  }

  lemma RoomAfter(files: seq<File>, slots: seq<PipeSlot>, tab: Table, files': seq<File>, slots': seq<PipeSlot>,
                  c: Pipe, n: int)
    requires c.rf >= 0 && c.wf >= 0 && Made(files, slots, files', slots', c.slot, c.rf, c.wf)
    requires Room(files, tab, slots, n)
    requires c.rfd < NOFILE && c.wfd < NOFILE && c.rfd != c.wfd && tab[c.rfd] == NULL && tab[c.wfd] == NULL
    ensures Room(files', tab[c.rfd := c.rf][c.wfd := c.wf], slots', n - 1)
  {
    var tab' := tab[c.rfd := c.rf][c.wfd := c.wf];
    assert FreeFiles(files') == FreeFiles(files)[c.rf := false][c.wf := false];
    TwoFewer(FreeFiles(files), FreeFiles(files'), c.rf, c.wf);
    assert FreeFds(tab') == FreeFds(tab)[c.rfd := false][c.wfd := false];
    TwoFewer(FreeFds(tab), FreeFds(tab'), c.rfd, c.wfd);
    assert FreeSlots(slots') == FreeSlots(slots)[c.slot := false];
    TruesUpdate(FreeSlots(slots), c.slot, false);
  }

  /** One more pipe; the shell remembers its two descriptors. It fails only for want of
      room. */
  method AddPipe(t: Tables, shell: nat, pipes: seq<Pipe>, ghost fds: seq<int>) returns (ok: bool, pipes': seq<Pipe>)
    requires Ready(t, fds, shell, pipes)
    modifies t
    ensures Ready(t, fds, shell, pipes') && (!ok ==> pipes' == pipes) && (ok ==> |pipes'| == |pipes| + 1)
    ensures |old(t.fds)| == NPROC * NOFILE
    ensures !ok ==> !Room(old(t.files), TableOf(old(t.fds), shell), old(t.pipes), 1)
    ensures ok ==> forall n :: Room(old(t.files), TableOf(old(t.fds), shell), old(t.pipes), n) ==>
                     Room(t.files, TableOf(t.fds, shell), t.pipes, n - 1)
  {
    hide Has, Plumbed, EndsAre, Distinct, Unseen, TableOf, PipesOk, RefsOk, Installed, EndsOf, Room, AtMostOneFree,
      AtMostOneNull, AllUsed, Made;
    ghost var files, slots, fds1, tab := t.files, t.pipes, t.fds, TableOf(t.fds, shell);
    var r;
    ghost var i, rf, wf;
    r, i, rf, wf := SysPipe(t, shell, true);
    SizesOf(t);
    if r.None? {
      NoRoomLeft(files, tab, slots);
      return false, pipes;
    }
    var rfd, wfd := r.value.0, r.value.1;
    ghost var g := Pipe(rfd, wfd, rf, wf, i);
    NewPipeFacts(files, slots, fds1, t.files, t.pipes, t.fds, shell, g);
    var f := t.fds[Idx(shell, rfd)];
    var c := Pipe(rfd, wfd, f, t.fds[Idx(shell, wfd)], t.files[f].kind.pipe);
    PlumbMore(TableOf(fds, shell), tab, pipes, c);
    HasTrans(fds, fds1, t.fds, shell, tab, tab[rfd := rf][wfd := wf]);
    HasTable(fds, t.fds, shell, tab[rfd := rf][wfd := wf]);
    NewFiles(fds, fds1, files, t.files, shell, tab, pipes, c);
    forall n | Room(files, tab, slots, n) ensures Room(t.files, TableOf(t.fds, shell), t.pipes, n - 1) {
      RoomAfter(files, slots, tab, t.files, t.pipes, g, n);
    }
    return true, pipes + [c];
  }

  /** Children and shell are different processes, and the children have no descriptors. */
  ghost predicate Cast(fds: seq<int>, shell: nat, kids: seq<nat>) {
    && |fds| == NPROC * NOFILE && shell < NPROC
    && (forall i :: 0 <= i < |kids| ==> kids[i] < NPROC && kids[i] != shell && Blank(fds, kids[i]))
    && forall i, j :: 0 <= i < j < |kids| ==> kids[i] != kids[j]
  }

  ghost predicate Blank(fds: seq<int>, p: nat) {
    |fds| == NPROC * NOFILE && p < NPROC && forall x :: 0 <= x < NOFILE ==> TableOf(fds, p)[x] == NULL
  }

  lemma KindCounts(files: seq<File>, files': seq<File>)
    requires SameButCounts(files, files')
    ensures KindKept(files, files')
  {
  }

  // ---- Who can keep a pipe open ---------------------------------------------------------

  /** Exactly one descriptor of the whole system refers to file f. */
  ghost predicate OnlyAt(fds: seq<int>, f: int, e: int) {
    0 <= e < |fds| && fds[e] == f && forall d :: 0 <= d < |fds| && fds[d] == f ==> d == e
  }

  lemma InTable(fds: seq<int>, e: nat)
    requires |fds| == NPROC * NOFILE && e < |fds|
    ensures e / NOFILE < NPROC && e == Idx(e / NOFILE, e % NOFILE) && TableOf(fds, e / NOFILE)[e % NOFILE] == fds[e]
  {
  }

  lemma WasThere(fds: seq<int>, q: nat, x: nat)
    requires |fds| == NPROC * NOFILE && q < NPROC && x < NOFILE
    ensures TableOf(fds, q)[x] in fds
  {
    assert TableOf(fds, q)[x] == fds[Idx(q, x)];
  }

  /** In command j's table, a pipe's file can only be at the place meant for it. */
  lemma WiredFiles(base: Table, pipes: seq<Pipe>, files: seq<File>, j: nat, k: nat, write: bool, x: nat)
    requires j <= |pipes| && k < |pipes| && x < NOFILE && Distinct(pipes) && EndsAre(files, pipes)
    requires var f := if write then pipes[k].wf else pipes[k].rf; base[x] != f && Wired(base, j, pipes)[x] == f
    ensures if write then j == k && x == 1 else j == k + 1 && x == 0
  {
    assert EndsOf(files, pipes[k]);
    if j < |pipes| { OtherFiles(pipes, j, k); }
    if 0 < j { OtherFiles(pipes, j - 1, k); }
  }

  lemma OtherFiles(pipes: seq<Pipe>, j: nat, k: nat)
    requires Distinct(pipes) && j < |pipes| && k < |pipes|
    ensures j != k ==> Unshared(pipes[j], pipes[k])
  {
    if j < k {
      assert Unshared(pipes[j], pipes[k]);
    } else if k < j {
      assert Unshared(pipes[k], pipes[j]);
    }
  }

  /** The first part of run_pipeline: n pipes known to the shell alone, or, if one cannot be
      made, all descriptors as before. With room for n pipes it does not fail. */
  method MakePipes(t: Tables, shell: nat, n: nat) returns (ok: bool, pipes: seq<Pipe>)
    requires t.Quiet() && |t.fds| == NPROC * NOFILE && shell < NPROC
    requires TableOf(t.fds, shell)[0] != NULL && TableOf(t.fds, shell)[1] != NULL
    modifies t
    ensures t.Quiet() && |old(t.fds)| == |t.fds| == NPROC * NOFILE
    ensures !ok ==> forall p :: 0 <= p < NPROC ==> TableOf(t.fds, p) == TableOf(old(t.fds), p)
    ensures Room(old(t.files), TableOf(old(t.fds), shell), old(t.pipes), n) ==> ok
    ensures ok ==> Ready(t, old(t.fds), shell, pipes) && |pipes| == n
  {
    hide Tables.Valid, Has, Plumbed, EndsAre, Distinct, Unseen, TableOf, EndsOf, Room;
    ghost var fds := t.fds;
    ghost var base := TableOf(fds, shell);
    ghost var room := Room(t.files, base, t.pipes, n);
    SizesOf(t);
    pipes := [];
    NothingYet(t, shell);
    for i := 0 to n
      invariant Ready(t, fds, shell, pipes) && |pipes| == i
      invariant room ==> Room(t.files, TableOf(t.fds, shell), t.pipes, n - i)
    {
      if room { LessRoom(t.files, TableOf(t.fds, shell), t.pipes, n - i); }
      var made;
      made, pipes := AddPipe(t, shell, pipes, fds);
      if !made {
        ghost var fds1, tab := t.fds, TableOf(t.fds, shell);
        ClosePipes(t, shell, pipes);
        ClearedWired(base, tab, pipes, 0);
        HasTrans(fds, fds1, t.fds, shell, tab, base);
        HasAll(fds, t.fds, shell);
        return false, pipes;
      }
    }
    ok := true;
  }

  lemma LessRoom(files: seq<File>, tab: Table, slots: seq<PipeSlot>, n: int)
    requires Room(files, tab, slots, n) && n >= 1
    ensures Room(files, tab, slots, 1)
  {
  }

  lemma NothingYet(t: Tables, shell: nat)
    requires t.Quiet() && |t.fds| == NPROC * NOFILE && shell < NPROC
    ensures Ready(t, t.fds, shell, [])
  {
    SizesOf(t);
  }

  lemma HasAll(fds: seq<int>, fds': seq<int>, p: nat)
    requires |fds| == NPROC * NOFILE && p < NPROC && Has(fds, fds', p, TableOf(fds, p))
    ensures |fds'| == NPROC * NOFILE && forall q :: 0 <= q < NPROC ==> TableOf(fds', q) == TableOf(fds, q)
  {
    hide TableOf;
  }
}
