/** A pipeline under any schedule: the shell forks and closes while the children redirect,
    close and exit, one system call at a time and in any order. What every process has is a
    function of how far it has come, and once all are set up an end of a pipe is open exactly
    as long as the command it is meant for runs. */
module PipelineRun {
  import opened Prelude
  import opened OpenFiles
  import opened Pipeline

  // ---- What one process does ----------------------------------------------------------

  /** The calls of setup_pipeline_fds; a dup must land on `want`. */
  datatype Call = CloseFd(fd: nat) | DupFd(fd: nat, want: nat)

  function Lowest(t: Table): (n: nat)
    ensures n <= NOFILE && (n < NOFILE ==> t[n] == NULL) && forall x :: 0 <= x < n ==> t[x] != NULL
  {
    LowestFrom(t, 0)
  }

  function LowestFrom(t: Table, i: nat): (n: nat)
    requires i <= NOFILE
    ensures i <= n <= NOFILE && (n < NOFILE ==> t[n] == NULL) && forall x :: i <= x < n ==> t[x] != NULL
    decreases NOFILE - i
  {
    if i == NOFILE || t[i] == NULL then i else LowestFrom(t, i + 1)
  }

  function Effect(t: Table, c: Call): Table {
    match c
    case CloseFd(fd) => Without(t, fd)
    case DupFd(fd, _) => if fd < NOFILE && t[fd] != NULL && Lowest(t) < NOFILE then t[Lowest(t) := t[fd]] else t
  }

  /** A table after some calls. */
  function After(t: Table, calls: seq<Call>): Table
    decreases |calls|
  {
    if calls == [] then t else Effect(After(t, calls[..|calls| - 1]), calls[|calls| - 1])
  }

  lemma {:induction false} AfterAppend(t: Table, a: seq<Call>, b: seq<Call>)
    ensures After(t, a + b) == After(After(t, a), b)
    decreases |b|
  {
    hide Effect;
    if b == [] {
      assert a + b == a;
    } else {
      AfterAppend(t, a, b[..|b| - 1]);
      assert (a + b)[..|a + b| - 1] == a + b[..|b| - 1];
    }
  }

  /** The calls of close_pipes. */
  function Closing(pipes: seq<Pipe>): (calls: seq<Call>)
    ensures |calls| == 2 * |pipes|
    ensures forall k :: 0 <= k < |calls| ==> calls[k].CloseFd?
    decreases |pipes|
  {
    if pipes == [] then []
    else Closing(pipes[..|pipes| - 1]) + [CloseFd(pipes[|pipes| - 1].rfd), CloseFd(pipes[|pipes| - 1].wfd)]
  }

  lemma {:induction false} ClosingClears(t: Table, pipes: seq<Pipe>)
    ensures After(t, Closing(pipes)) == Cleared(t, pipes)
    decreases |pipes|
  {
    if pipes != [] {
      var n := |pipes| - 1;
      ClosingClears(t, pipes[..n]);
      var two := [CloseFd(pipes[n].rfd), CloseFd(pipes[n].wfd)];
      AfterAppend(t, Closing(pipes[..n]), two);
      TwoCalls(Cleared(t, pipes[..n]), two[0], two[1]);
    }
  }

  lemma TwoCalls(t: Table, a: Call, b: Call)
    ensures After(t, [a, b]) == Effect(Effect(t, a), b)
  {
    hide Effect;
    assert [a, b][..1] == [a] && [a][..0] == [];
    assert After(t, [a]) == Effect(After(t, []), a);
  }

  function InCalls(i: nat, pipes: seq<Pipe>): seq<Call>
    requires i <= |pipes|
  {
    if i > 0 then [CloseFd(0), DupFd(pipes[i - 1].rfd, 0)] else []
  }

  function OutCalls(i: nat, pipes: seq<Pipe>): seq<Call>
    requires i <= |pipes|
  {
    if i < |pipes| then [CloseFd(1), DupFd(pipes[i].wfd, 1)] else []
  }

  /** The calls of setup_pipeline_fds for command i. */
  function Prog(i: nat, pipes: seq<Pipe>): seq<Call>
    requires i <= |pipes|
  {
    InCalls(i, pipes) + OutCalls(i, pipes) + Closing(pipes)
  }

  /** Standard input and output once command i has redirected them. */
  function InDone(tab: Table, i: nat, pipes: seq<Pipe>): Table
    requires i <= |pipes|
  {
    if i > 0 then tab[0 := pipes[i - 1].rf] else tab
  }

  function OutDone(tab: Table, i: nat, pipes: seq<Pipe>): Table
    requires i <= |pipes|
  {
    if i < |pipes| then InDone(tab, i, pipes)[1 := pipes[i].wf] else InDone(tab, i, pipes)
  }

  /** A dup right after a close lands where it should. */
  lemma DupLands(t: Table, fd: nat, from: nat)
    requires fd < NOFILE && from < NOFILE && from != fd && t[from] != NULL && forall x :: 0 <= x < fd ==> t[x] != NULL
    ensures Lowest(Without(t, fd)) == fd && Without(t, fd)[from] == t[from]
    ensures Effect(Effect(t, CloseFd(fd)), DupFd(from, fd)) == t[fd := t[from]]
  {
    assert Without(t, fd)[fd] == NULL;
  }

  /** The shell's table at the forks, and that standard input and output are no pipe fds. */
  lemma Redirected(base: Table, tab: Table, pipes: seq<Pipe>, i: nat)
    requires Plumbed(base, tab, pipes) && base[0] != NULL && base[1] != NULL && i <= |pipes|
    ensures After(tab, InCalls(i, pipes)) == InDone(tab, i, pipes)
    ensures After(tab, InCalls(i, pipes) + OutCalls(i, pipes)) == OutDone(tab, i, pipes)
    ensures i > 0 ==>
      pipes[i - 1].rfd < NOFILE && Lowest(Without(tab, 0)) == 0 && Without(tab, 0)[pipes[i - 1].rfd] != NULL
    ensures i < |pipes| ==>
      var t := InDone(tab, i, pipes);
      pipes[i].wfd < NOFILE && Lowest(Without(t, 1)) == 1 && Without(t, 1)[pipes[i].wfd] != NULL
  {
    hide Plumbed, Effect, Lowest;
    PlumbedAt(base, tab, pipes, 0);
    PlumbedAt(base, tab, pipes, 1);
    assert !IsPipeFd(pipes, 0) && !IsPipeFd(pipes, 1);
    if i > 0 {
      PipeHere(base, tab, pipes, i - 1);
      DupLands(tab, 0, pipes[i - 1].rfd);
      TwoCalls(tab, CloseFd(0), DupFd(pipes[i - 1].rfd, 0));
    }
    AfterAppend(tab, InCalls(i, pipes), OutCalls(i, pipes));
    if i < |pipes| {
      var t := InDone(tab, i, pipes);
      PipeHere(base, tab, pipes, i);
      if i > 0 { PipeHere(base, tab, pipes, i - 1); }
      DupLands(t, 1, pipes[i].wfd);
      TwoCalls(t, CloseFd(1), DupFd(pipes[i].wfd, 1));
    }
  }

  lemma PipeHere(base: Table, tab: Table, pipes: seq<Pipe>, k: nat)
    requires Plumbed(base, tab, pipes) && k < |pipes|
    ensures PipeAt(base, tab, pipes[k]) && IsPipeFd(pipes, pipes[k].rfd) && IsPipeFd(pipes, pipes[k].wfd)
  {
  }

  /** setup_pipeline_fds leaves command i wired as intended. */
  lemma ProgWires(base: Table, tab: Table, pipes: seq<Pipe>, i: nat)
    requires Plumbed(base, tab, pipes) && base[0] != NULL && base[1] != NULL && i <= |pipes|
    ensures After(tab, Prog(i, pipes)) == Wired(base, i, pipes) && After(tab, Closing(pipes)) == base
  {
    hide Plumbed, Effect, Cleared;
    Redirected(base, tab, pipes, i);
    AfterAppend(tab, InCalls(i, pipes) + OutCalls(i, pipes), Closing(pipes));
    ClosingClears(OutDone(tab, i, pipes), pipes);
    ClosingClears(tab, pipes);
    ClearedWired(base, tab, pipes, i);
  }

  /** Every dup of setup_pipeline_fds returns what the shell expects. */
  lemma DupsLand(base: Table, tab: Table, pipes: seq<Pipe>, i: nat, pc: nat)
    requires Plumbed(base, tab, pipes) && base[0] != NULL && base[1] != NULL && i <= |pipes|
    requires pc < |Prog(i, pipes)| && Prog(i, pipes)[pc].DupFd?
    ensures var t, c := After(tab, Prog(i, pipes)[..pc]), Prog(i, pipes)[pc];
            c.fd < NOFILE && t[c.fd] != NULL && Lowest(t) == c.want < NOFILE
  {
    hide Plumbed, Effect, Lowest;
    var a, b := InCalls(i, pipes), OutCalls(i, pipes);
    Redirected(base, tab, pipes, i);
    if pc < |a| {
      assert pc == 1 && Prog(i, pipes)[..1] == [CloseFd(0)];
      OneCall(tab, CloseFd(0));
    } else {
      assert pc == |a| + 1 && Prog(i, pipes)[..pc] == a + [CloseFd(1)];
      AfterAppend(tab, a, [CloseFd(1)]);
      OneCall(InDone(tab, i, pipes), CloseFd(1));
    }
  }

  lemma OneCall(t: Table, c: Call)
    ensures After(t, [c]) == Effect(t, c)
    ensures c.CloseFd? ==> After(t, [c]) == Without(t, c.fd)
  {
    assert [c][..0] == [];
    assert After(t, []) == t;
  }

  // ---- All processes together ---------------------------------------------------------------

  /** How far everybody is: children forked, whether the shell still forks, its calls of
      close_pipes, and for every child its calls of setup_pipeline_fds and whether it exited. */
  datatype Progress = Progress(started: nat, forking: bool, shellPc: nat, kidPc: seq<nat>, exited: seq<bool>)

  /** Who goes next. `ok`: the fork has the memory it needs. */
  datatype Act = ShellAct(ok: bool) | KidAct(i: nat) | ExitAct(i: nat)

  ghost predicate Sized(at: Progress, pipes: seq<Pipe>) {
    && |at.kidPc| == |at.exited| == |pipes| + 1 && at.started <= |pipes| + 1 && at.shellPc <= 2 * |pipes|
    && (at.forking ==> at.shellPc == 0 && at.started <= |pipes|)
    && (forall i :: 0 <= i <= |pipes| ==> at.kidPc[i] <= |Prog(i, pipes)| && (at.exited[i] ==> Set(at, pipes, i)))
    && forall i :: at.started <= i <= |pipes| ==> at.kidPc[i] == 0
  }

  /** Child i runs, and has done all of setup_pipeline_fds. */
  predicate Set(at: Progress, pipes: seq<Pipe>, i: nat)
    requires |at.kidPc| == |pipes| + 1
  {
    i < at.started && i <= |pipes| && at.kidPc[i] == |Prog(i, pipes)|
  }

  function Next(at: Progress, act: Act, pipes: seq<Pipe>): (at': Progress)
    requires |at.kidPc| == |at.exited| == |pipes| + 1
    ensures |at'.kidPc| == |at'.exited| == |pipes| + 1
  {
    match act
    case ShellAct(ok) =>
      if at.forking then
        if ok then at.(started := at.started + 1, forking := at.started < |pipes|) else at.(forking := false)
      else if at.shellPc < 2 * |pipes| then at.(shellPc := at.shellPc + 1)
      else at
    case KidAct(i) =>
      if i < at.started && i <= |pipes| && !at.exited[i] && at.kidPc[i] < |Prog(i, pipes)| then
        at.(kidPc := at.kidPc[i := at.kidPc[i] + 1])
      else at
    case ExitAct(i) => if Set(at, pipes, i) then at.(exited := at.exited[i := true]) else at
  }

  function Begin(n: nat): Progress { Progress(0, true, 0, seq(n + 1, _ => 0), seq(n + 1, _ => false)) }

  function NextAll(at: Progress, acts: seq<Act>, pipes: seq<Pipe>): (at': Progress)
    requires |at.kidPc| == |at.exited| == |pipes| + 1
    ensures |at'.kidPc| == |at'.exited| == |pipes| + 1
    decreases |acts|
  {
    if acts == [] then at else Next(NextAll(at, acts[..|acts| - 1], pipes), acts[|acts| - 1], pipes)
  }

  function Nothing(): Table { seq(NOFILE, _ => NULL) }

  /** What child i has. */
  function KidTable(tab: Table, pipes: seq<Pipe>, at: Progress, i: nat): Table
    requires |at.kidPc| == |at.exited| == |pipes| + 1 && i <= |pipes| && at.kidPc[i] <= |Prog(i, pipes)|
  {
    if i >= at.started || at.exited[i] then Nothing() else After(tab, Prog(i, pipes)[..at.kidPc[i]])
  }

  /** Everybody's descriptors are a function of their own progress; the rest are as before. */
  ghost predicate Tracks(fds: seq<int>, fds': seq<int>, shell: nat, kids: seq<nat>, tab: Table, pipes: seq<Pipe>,
                         at: Progress) {
    && Cast(fds, shell, kids) && |fds'| == NPROC * NOFILE && |kids| == |pipes| + 1 && Sized(at, pipes)
    && TableOf(fds', shell) == After(tab, Closing(pipes)[..at.shellPc])
    && (forall i :: 0 <= i <= |pipes| ==> TableOf(fds', kids[i]) == KidTable(tab, pipes, at, i))
    && forall q: nat :: q < NPROC && q != shell && q !in kids ==> TableOf(fds', q) == TableOf(fds, q)
  }

  /** Only the table of p changed, and it is what p's progress says. */
  lemma TracksOne(fds: seq<int>, fds1: seq<int>, fds2: seq<int>, shell: nat, kids: seq<nat>, tab: Table,
                  pipes: seq<Pipe>,
                  at: Progress, at': Progress, p: nat, t: Table)
    requires Tracks(fds, fds1, shell, kids, tab, pipes, at) && Has(fds1, fds2, p, t) && Sized(at', pipes)
    requires p == shell || p in kids
    requires if p == shell then t == After(tab, Closing(pipes)[..at'.shellPc]) else at'.shellPc == at.shellPc
    requires forall i :: 0 <= i <= |pipes| ==>
      KidTable(tab, pipes, at', i) == if kids[i] == p then t else KidTable(tab, pipes, at, i)
    ensures Tracks(fds, fds2, shell, kids, tab, pipes, at')
  {
    hide TableOf, Sized, KidTable, After, Closing, Prog;
    SizedLen(at, pipes);
    SizedLen(at', pipes);
    forall i | 0 <= i <= |pipes| ensures TableOf(fds2, kids[i]) == KidTable(tab, pipes, at', i) {
      assert kids[i] < NPROC && kids[i] != shell;
      assert TableOf(fds1, kids[i]) == KidTable(tab, pipes, at, i);
    }
  }

  lemma SizedLen(at: Progress, pipes: seq<Pipe>)
    requires Sized(at, pipes)
    ensures |at.kidPc| == |at.exited| == |pipes| + 1
    ensures forall i :: 0 <= i <= |pipes| ==> at.kidPc[i] <= |Prog(i, pipes)|
  {
  }

  lemma NextSized(at: Progress, act: Act, pipes: seq<Pipe>)
    requires Sized(at, pipes)
    ensures Sized(Next(at, act, pipes), pipes)
  {
    hide Prog;
    var at' := Next(at, act, pipes);
    forall i | 0 <= i <= |pipes| ensures at'.kidPc[i] <= |Prog(i, pipes)| && (at'.exited[i] ==> Set(at', pipes, i)) {
      assert at.kidPc[i] <= |Prog(i, pipes)| && (at.exited[i] ==> Set(at, pipes, i));
    }
  }

  // ---- One step -----------------------------------------------------------------------------

  /** One call by process p. */
  method DoCall(t: Tables, p: nat, c: Call) returns (ok: bool)
    requires t.Quiet() && p < NPROC && |t.fds| == NPROC * NOFILE
    modifies t
    ensures t.Quiet() && |old(t.fds)| == |t.fds| == NPROC * NOFILE && KindKept(old(t.files), t.files)
    ensures Has(old(t.fds), t.fds, p, Effect(TableOf(old(t.fds), p), c))
    ensures ok <==>
      || c.CloseFd?
      || (c.fd < NOFILE && TableOf(old(t.fds), p)[c.fd] != NULL && Lowest(TableOf(old(t.fds), p)) == c.want < NOFILE)
  {
    hide Tables.Valid, Has, KindKept;
    SizesOf(t);
    ghost var fds, files := t.fds, t.files;
    if c.CloseFd? {
      Close(t, p, c.fd);
      SizesOf(t);
      return true;
    }
    HasSame(fds, p);
    KindSelf(files);
    if c.fd < NOFILE && fds[Idx(p, c.fd)] != NULL { LiveEntry(t, Idx(p, c.fd)); }
    var r := SysDup(t, p, c.fd);
    SizesOf(t);
    SomeNull(TableOf(fds, p));
    ok := r == Some(c.want);
    if r.Some? {
      LowestHere(fds, t.fds, p, r.value, fds[Idx(p, c.fd)]);
      HasUpdate(fds, p, r.value, fds[Idx(p, c.fd)]);
      LiveBefore(files, t.files, fds[Idx(p, c.fd)]);
    }
  }

  lemma SomeNull(t: Table)
    ensures NULL in t <==> Lowest(t) < NOFILE
  {
    if NULL in t {
      var x :| 0 <= x < NOFILE && t[x] == NULL;
    }
  }

  lemma LowestHere(fds: seq<int>, fds': seq<int>, p: nat, m: nat, f: int)
    requires Installed(fds, fds', p, m, f)
    ensures Lowest(TableOf(fds, p)) == m
  {
    PrefixLive(TableOf(fds, p), m);
    assert TableOf(fds, p)[m] == NULL;
  }

  /** A pipeline under way. `fds` and `files` are those before the first fork or pipe. */
  ghost predicate Running(t: Tables, fds: seq<int>, files: seq<File>, shell: nat, kids: seq<nat>, tab: Table,
                          pipes: seq<Pipe>, at: Progress)
    reads t
  {
    && t.Quiet() && KindKept(files, t.files) && Tracks(fds, t.fds, shell, kids, tab, pipes, at)
    && Plumbed(TableOf(fds, shell), tab, pipes) && TableOf(fds, shell)[0] != NULL && TableOf(fds, shell)[1] != NULL
  }

  /** One more call of a program. */
  lemma OneMore(tab: Table, calls: seq<Call>, pc: nat)
    requires pc < |calls|
    ensures After(tab, calls[..pc + 1]) == Effect(After(tab, calls[..pc]), calls[pc])
  {
    assert calls[..pc + 1] == calls[..pc] + [calls[pc]];
    AfterAppend(tab, calls[..pc], [calls[pc]]);
    OneCall(After(tab, calls[..pc]), calls[pc]);
  }

  /** Whoever is next makes one call. Nothing fails but forks, and everybody's descriptors are
      again what their progress says. */
  method Step(t: Tables, shell: nat, kids: seq<nat>, pipes: seq<Pipe>, at: Progress, act: Act,
              ghost fds: seq<int>, ghost files: seq<File>, ghost tab: Table) returns (at': Progress, ok: bool)
    requires Running(t, fds, files, shell, kids, tab, pipes, at)
    modifies t
    ensures |at.kidPc| == |at.exited| == |pipes| + 1 && at' == Next(at, act, pipes) && ok
    ensures Running(t, fds, files, shell, kids, tab, pipes, at')
  {
    hide Tables.Valid, KindKept, TableOf, Plumbed, Tracks, Sized, Prog, KidTable, After, Has;
    TracksSized(fds, t.fds, shell, kids, tab, pipes, at);
    at', ok := Next(at, act, pipes), true;
    NextSized(at, act, pipes);
    match act
    case ShellAct(enough) =>
      if at.forking {
        if enough {
          ForkNext(t, shell, kids, pipes, at, fds, files, tab);
        } else {
          TracksSame(fds, t.fds, shell, kids, tab, pipes, at, at');
        }
      } else if at.shellPc < 2 * |pipes| {
        ok := ShellCloses(t, shell, kids, pipes, at, fds, files, tab);
      }
    case KidAct(i) =>
      if i < at.started && i <= |pipes| && !at.exited[i] && at.kidPc[i] < |Prog(i, pipes)| {
        ok := KidCalls(t, shell, kids, pipes, at, i, fds, files, tab);
      }
    case ExitAct(i) =>
      if Set(at, pipes, i) {
        KidExits(t, shell, kids, pipes, at, i, fds, files, tab);
      }
  }

  lemma TracksSized(fds: seq<int>, fds': seq<int>, shell: nat, kids: seq<nat>, tab: Table, pipes: seq<Pipe>,
                    at: Progress)
    requires Tracks(fds, fds', shell, kids, tab, pipes, at)
    ensures Sized(at, pipes) && |at.kidPc| == |at.exited| == |pipes| + 1 == |kids|
    ensures |fds'| == |fds| == NPROC * NOFILE && shell < NPROC
    ensures at.started <= |pipes| + 1 && at.shellPc <= 2 * |pipes|
    ensures (at.forking ==> at.shellPc == 0 && at.started <= |pipes|)
    ensures forall i :: 0 <= i <= |pipes| ==> kids[i] < NPROC && kids[i] != shell
    ensures forall i :: 0 <= i <= |pipes| ==> at.kidPc[i] <= |Prog(i, pipes)| && (at.exited[i] ==> i < at.started)
    ensures forall i, j :: 0 <= i < j <= |pipes| ==> kids[i] != kids[j]
    ensures TableOf(fds', shell) == After(tab, Closing(pipes)[..at.shellPc])
    ensures forall i :: 0 <= i <= |pipes| ==> TableOf(fds', kids[i]) == KidTable(tab, pipes, at, i)
  {
    hide TableOf, Prog, After, KidTable;
  }

  lemma TracksSame(fds: seq<int>, fds': seq<int>, shell: nat, kids: seq<nat>, tab: Table, pipes: seq<Pipe>,
                   at: Progress, at': Progress)
    requires Tracks(fds, fds', shell, kids, tab, pipes, at) && at' == at.(forking := false)
    ensures Tracks(fds, fds', shell, kids, tab, pipes, at')
  {
    hide TableOf, Prog, After;
    forall i | 0 <= i <= |pipes| ensures KidTable(tab, pipes, at', i) == KidTable(tab, pipes, at, i) {
    }
    forall i | 0 <= i <= |pipes| ensures at'.exited[i] ==> Set(at', pipes, i) {
      assert at.exited[i] ==> Set(at, pipes, i);
    }
  }

  method ForkNext(t: Tables, shell: nat, kids: seq<nat>, pipes: seq<Pipe>, at: Progress,
                  ghost fds: seq<int>, ghost files: seq<File>, ghost tab: Table)
    requires Running(t, fds, files, shell, kids, tab, pipes, at) && at.forking
    modifies t
    ensures |at.kidPc| == |at.exited| == |pipes| + 1
    ensures Running(t, fds, files, shell, kids, tab, pipes, Next(at, ShellAct(true), pipes))
  {
    hide Tables.Valid, KindKept, TableOf, Plumbed, Tracks, Sized, Prog, KidTable, After, Has, SameButCounts;
    TracksSized(fds, t.fds, shell, kids, tab, pipes, at);
    ghost var fds1, files1, at' := t.fds, t.files, Next(at, ShellAct(true), pipes);
    NextSized(at, ShellAct(true), pipes);
    Unborn(tab, pipes, at, at', shell);
    ForkFiles(t, shell, kids[at.started]);
    SizesOf(t);
    KindCounts(files1, t.files);
    KindTrans(files, files1, t.files);
    HasFrom(fds1, t.fds, kids[at.started], tab);
    KidsForked(tab, pipes, at, kids, fds, fds1, shell);
    TracksOne(fds, fds1, t.fds, shell, kids, tab, pipes, at, at', kids[at.started], tab);
  }

  lemma Unborn(tab: Table, pipes: seq<Pipe>, at: Progress, at': Progress, shell: nat)
    requires Sized(at, pipes) && at.forking && at' == Next(at, ShellAct(true), pipes)
    ensures |at.kidPc| == |at.exited| == |pipes| + 1 && at.kidPc[at.started] <= |Prog(at.started, pipes)|
    ensures KidTable(tab, pipes, at, at.started) == Nothing() && After(tab, Closing(pipes)[..at.shellPc]) == tab
    ensures at'.shellPc == at.shellPc
  {
    hide Prog;
    assert Closing(pipes)[..0] == [];
  }

  lemma KidsForked(tab: Table, pipes: seq<Pipe>, at: Progress, kids: seq<nat>, fds: seq<int>, fds1: seq<int>,
                   shell: nat)
    requires Tracks(fds, fds1, shell, kids, tab, pipes, at) && at.forking
    ensures |at.kidPc| == |at.exited| == |pipes| + 1 && Sized(Next(at, ShellAct(true), pipes), pipes)
    ensures var at' := Next(at, ShellAct(true), pipes);
            forall i :: 0 <= i <= |pipes| ==>
              KidTable(tab, pipes, at', i) == if kids[i] == kids[at.started] then tab else KidTable(tab, pipes, at, i)
  {
    hide Prog, TableOf;
    NextSized(at, ShellAct(true), pipes);
    var at' := Next(at, ShellAct(true), pipes);
    forall i | 0 <= i <= |pipes|
      ensures KidTable(tab, pipes, at', i) == if kids[i] == kids[at.started] then tab else KidTable(tab, pipes, at, i)
    {
      if i == at.started { assert Prog(i, pipes)[..0] == []; }
    }
  }

  lemma HasFrom(fds: seq<int>, fds': seq<int>, p: nat, t: Table)
    requires |fds| == |fds'| == NPROC * NOFILE && p < NPROC && TableOf(fds', p) == t
    requires forall q :: 0 <= q < NPROC && q != p ==> TableOf(fds', q) == TableOf(fds, q)
    ensures Has(fds, fds', p, t)
  {
  }

  method ShellCloses(t: Tables, shell: nat, kids: seq<nat>, pipes: seq<Pipe>, at: Progress,
                     ghost fds: seq<int>, ghost files: seq<File>, ghost tab: Table) returns (ok: bool)
    requires Running(t, fds, files, shell, kids, tab, pipes, at) && !at.forking && at.shellPc < 2 * |pipes|
    modifies t
    ensures |at.kidPc| == |at.exited| == |pipes| + 1 && ok
    ensures Running(t, fds, files, shell, kids, tab, pipes, at.(shellPc := at.shellPc + 1))
  {
    hide Tables.Valid, KindKept, TableOf, Plumbed, Tracks, Sized, Prog, KidTable, After, Has, Effect;
    TracksSized(fds, t.fds, shell, kids, tab, pipes, at);
    ghost var fds1, files1, at' := t.fds, t.files, at.(shellPc := at.shellPc + 1);
    NextSized(at, ShellAct(true), pipes);
    OneMore(tab, Closing(pipes), at.shellPc);
    ok := DoCall(t, shell, Closing(pipes)[at.shellPc]);
    KindTrans(files, files1, t.files);
    KidsSame(tab, pipes, at, at');
    TracksOne(fds, fds1, t.fds, shell, kids, tab, pipes, at, at', shell, After(tab, Closing(pipes)[..at.shellPc + 1]));
  }

  lemma KidsSame(tab: Table, pipes: seq<Pipe>, at: Progress, at': Progress)
    requires Sized(at, pipes) && at' == at.(shellPc := at'.shellPc) && Sized(at', pipes)
    ensures |at.kidPc| == |at.exited| == |pipes| + 1
    ensures forall i :: 0 <= i <= |pipes| ==> at.kidPc[i] <= |Prog(i, pipes)|
    ensures forall i :: 0 <= i <= |pipes| ==> KidTable(tab, pipes, at', i) == KidTable(tab, pipes, at, i)
  {
    hide Prog, After;
  }

  method KidCalls(t: Tables, shell: nat, kids: seq<nat>, pipes: seq<Pipe>, at: Progress, i: nat,
                  ghost fds: seq<int>, ghost files: seq<File>, ghost tab: Table) returns (ok: bool)
    requires Running(t, fds, files, shell, kids, tab, pipes, at)
    requires |at.kidPc| == |at.exited| == |pipes| + 1 && i < at.started && i <= |pipes| && !at.exited[i]
    requires at.kidPc[i] < |Prog(i, pipes)|
    modifies t
    ensures ok && Running(t, fds, files, shell, kids, tab, pipes, at.(kidPc := at.kidPc[i := at.kidPc[i] + 1]))
  {
    hide Tables.Valid, KindKept, TableOf, Plumbed, Tracks, Sized, Prog, KidTable, After, Has, Effect, Lowest;
    TracksSized(fds, t.fds, shell, kids, tab, pipes, at);
    ghost var fds1, files1, at' := t.fds, t.files, at.(kidPc := at.kidPc[i := at.kidPc[i] + 1]);
    NextSized(at, KidAct(i), pipes);
    var c := Prog(i, pipes)[at.kidPc[i]];
    OneMore(tab, Prog(i, pipes), at.kidPc[i]);
    KidAt(tab, pipes, at, i);
    if c.DupFd? { DupsLand(TableOf(fds, shell), tab, pipes, i, at.kidPc[i]); }
    ok := DoCall(t, kids[i], c);
    KindTrans(files, files1, t.files);
    KidsAfter(tab, pipes, at, at', i, kids);
    TracksOne(fds, fds1, t.fds, shell, kids, tab, pipes, at, at', kids[i],
      After(tab, Prog(i, pipes)[..at.kidPc[i] + 1]));
  }

  lemma KidAt(tab: Table, pipes: seq<Pipe>, at: Progress, i: nat)
    requires |at.kidPc| == |at.exited| == |pipes| + 1 && i < at.started && i <= |pipes| && !at.exited[i]
    requires at.kidPc[i] <= |Prog(i, pipes)|
    ensures KidTable(tab, pipes, at, i) == After(tab, Prog(i, pipes)[..at.kidPc[i]])
  {
  }

  lemma KidsAfter(tab: Table, pipes: seq<Pipe>, at: Progress, at': Progress, i: nat, kids: seq<nat>)
    requires Sized(at, pipes) && Sized(at', pipes) && i < at.started && i <= |pipes| && !at.exited[i]
    requires at.kidPc[i] < |Prog(i, pipes)| && at' == at.(kidPc := at.kidPc[i := at.kidPc[i] + 1])
    requires |kids| == |pipes| + 1
    requires forall j, k :: 0 <= j < k <= |pipes| ==> kids[j] != kids[k]
    ensures forall j :: 0 <= j <= |pipes| ==> at.kidPc[j] <= |Prog(j, pipes)|
    ensures forall j :: 0 <= j <= |pipes| ==>
      KidTable(tab, pipes, at', j) == if kids[j] == kids[i] then After(tab,
        Prog(i, pipes)[..at.kidPc[i] + 1]) else KidTable(tab, pipes, at, j)
  {
    hide Prog, After;
  }

  method KidExits(t: Tables, shell: nat, kids: seq<nat>, pipes: seq<Pipe>, at: Progress, i: nat,
                  ghost fds: seq<int>, ghost files: seq<File>, ghost tab: Table)
    requires Running(t, fds, files, shell, kids, tab, pipes, at)
    requires |at.kidPc| == |at.exited| == |pipes| + 1 && Set(at, pipes, i)
    modifies t
    ensures Running(t, fds, files, shell, kids, tab, pipes, at.(exited := at.exited[i := true]))
  {
    hide Tables.Valid, KindKept, TableOf, Plumbed, Tracks, Sized, Prog, KidTable, After, Has, GivesUp;
    TracksSized(fds, t.fds, shell, kids, tab, pipes, at);
    ghost var fds1, files1, at' := t.fds, t.files, at.(exited := at.exited[i := true]);
    NextSized(at, ExitAct(i), pipes);
    var released := ExitFiles(t, kids[i]);
    SizesOf(t);
    KindTrans(files, files1, t.files);
    AllNull(t.fds, kids[i]);
    HasFrom(fds1, t.fds, kids[i], Nothing());
    KidsLeft(tab, pipes, at, at', i, kids);
    TracksOne(fds, fds1, t.fds, shell, kids, tab, pipes, at, at', kids[i], Nothing());
  }

  lemma AllNull(fds: seq<int>, p: nat)
    requires |fds| == NPROC * NOFILE && p < NPROC && forall i :: 0 <= i < NOFILE ==> TableOf(fds, p)[i] == NULL
    ensures TableOf(fds, p) == Nothing()
  {
  }

  lemma KidsLeft(tab: Table, pipes: seq<Pipe>, at: Progress, at': Progress, i: nat, kids: seq<nat>)
    requires Sized(at, pipes) && Sized(at', pipes) && Set(at, pipes, i)
    requires at' == at.(exited := at.exited[i := true]) && |kids| == |pipes| + 1
    requires forall j, k :: 0 <= j < k <= |pipes| ==> kids[j] != kids[k]
    ensures forall j :: 0 <= j <= |pipes| ==> at.kidPc[j] <= |Prog(j, pipes)|
    ensures forall j :: 0 <= j <= |pipes| ==>
      KidTable(tab, pipes, at', j) == if kids[j] == kids[i] then Nothing() else KidTable(tab, pipes, at, j)
  {
    hide Prog, After;
  }

  // ---- Once everybody is set up -------------------------------------------------------------

  /** The shell has made all its calls, and so has every child that was started. */
  predicate Settled(at: Progress, pipes: seq<Pipe>)
    requires |at.kidPc| == |pipes| + 1
  {
    !at.forking && at.shellPc == 2 * |pipes| && forall i :: 0 <= i <= |pipes| && i < at.started ==> Set(at, pipes, i)
  }

  /** Until then somebody can go on. */
  lemma NotStuck(at: Progress, pipes: seq<Pipe>) returns (act: Act)
    requires Sized(at, pipes) && !Settled(at, pipes)
    ensures !act.ExitAct? && Next(at, act, pipes) != at
  {
    hide Prog;
    if at.forking || at.shellPc < 2 * |pipes| {
      act := ShellAct(true);
    } else {
      var i :| 0 <= i <= |pipes| && i < at.started && !Set(at, pipes, i);
      assert at.kidPc[i] <= |Prog(i, pipes)|;
      act := KidAct(i);
      assert Next(at, act, pipes).kidPc[i] == at.kidPc[i] + 1;
    }
  }

  /** Command i runs. */
  predicate Alive(at: Progress, i: nat) { i < at.started && i < |at.exited| && !at.exited[i] }

  /** Calls still to be made by the shell and by children 0 .. n. */
  function Work(at: Progress, pipes: seq<Pipe>, n: nat): int
    requires |at.kidPc| == |pipes| + 1 && n <= |pipes| + 1
  {
    if n == 0 then
      (if at.forking then |pipes| + 2 - at.started else 0) + 2 * |pipes| - at.shellPc
    else Work(at, pipes, n - 1) + |Prog(n - 1, pipes)| - at.kidPc[n - 1]
  }

  lemma {:induction false} WorkNext(at: Progress, act: Act, pipes: seq<Pipe>, n: nat)
    requires Sized(at, pipes) && n <= |pipes| + 1 && !act.ExitAct?
    ensures var w, w' := Work(at, pipes, n), Work(Next(at, act, pipes), pipes, n);
            if Next(at, act, pipes) == at || (act.KidAct? && act.i >= n) then w' == w else w' < w
  {
    hide Prog;
    if n > 0 {
      WorkNext(at, act, pipes, n - 1);
    }
  }

  lemma {:induction false} WorkNat(at: Progress, pipes: seq<Pipe>, n: nat)
    requires Sized(at, pipes) && n <= |pipes| + 1
    ensures Work(at, pipes, n) >= 0
  {
    hide Prog;
    if n > 0 {
      WorkNat(at, pipes, n - 1);
    }
  }

  /** So set-up ends: there is a number of calls still to be made, and every call makes it less. */
  lemma WorkEnds(at: Progress, act: Act, pipes: seq<Pipe>)
    requires Sized(at, pipes) && !act.ExitAct? && Next(at, act, pipes) != at
    ensures 0 <= Work(Next(at, act, pipes), pipes, |pipes| + 1) < Work(at, pipes, |pipes| + 1)
  {
    hide Prog, Work;
    WorkNext(at, act, pipes, |pipes| + 1);
    NextSized(at, act, pipes);
    WorkNat(Next(at, act, pipes), pipes, |pipes| + 1);
  }

  /** Unless a fork fails every command is started, and it runs until it exits. */
  lemma {:induction false} AllStarted(acts: seq<Act>, pipes: seq<Pipe>, i: nat)
    requires ShellAct(false) !in acts && i <= |pipes|
    ensures |Begin(|pipes|).kidPc| == |Begin(|pipes|).exited| == |pipes| + 1
    ensures var at := NextAll(Begin(|pipes|), acts, pipes);
            && (at.forking || at.started == |pipes| + 1) && (at.exited[i] ==> ExitAct(i) in acts)
            && (Settled(at, pipes) && ExitAct(i) !in acts ==> Alive(at, i))
    decreases |acts|
  {
    hide Prog;
    if acts != [] {
      var rest, last := acts[..|acts| - 1], acts[|acts| - 1];
      assert forall x :: x in acts <==> x in rest || x == last by { assert acts == rest + [last]; }
      AllStarted(rest, pipes, i);
      StartedBound(rest, pipes);
    }
  }

  lemma {:induction false} StartedBound(acts: seq<Act>, pipes: seq<Pipe>)
    ensures |Begin(|pipes|).kidPc| == |Begin(|pipes|).exited| == |pipes| + 1
    ensures Sized(NextAll(Begin(|pipes|), acts, pipes), pipes)
    decreases |acts|
  {
    hide Prog;
    if acts != [] {
      StartedBound(acts[..|acts| - 1], pipes);
      NextSized(NextAll(Begin(|pipes|), acts[..|acts| - 1], pipes), acts[|acts| - 1], pipes);
    }
  }

  /** The tables then: the shell has what it had, every running command is wired as intended, and
      nobody else has anything new. */
  lemma SettledTables(fds: seq<int>, fds': seq<int>, shell: nat, kids: seq<nat>, tab: Table, pipes: seq<Pipe>,
                      at: Progress)
    requires Tracks(fds, fds', shell, kids, tab, pipes, at) && |at.kidPc| == |pipes| + 1 && Settled(at, pipes)
    requires Plumbed(TableOf(fds, shell), tab, pipes) && TableOf(fds, shell)[0] != NULL
    requires TableOf(fds, shell)[1] != NULL
    ensures TableOf(fds', shell) == TableOf(fds, shell)
    ensures forall i :: 0 <= i <= |pipes| ==>
      TableOf(fds', kids[i]) == if Alive(at, i) then Wired(TableOf(fds, shell), i, pipes) else Nothing()
  {
    hide TableOf, Prog, After, Plumbed, Wired;
    ProgWires(TableOf(fds, shell), tab, pipes, 0);
    assert Closing(pipes)[..2 * |pipes|] == Closing(pipes);
    forall i | 0 <= i <= |pipes|
      ensures TableOf(fds', kids[i]) == if Alive(at, i) then Wired(TableOf(fds, shell), i, pipes) else Nothing()
    {
      ProgWires(TableOf(fds, shell), tab, pipes, i);
      if i < at.started {
        assert Set(at, pipes, i);
        assert Prog(i, pipes)[..|Prog(i, pipes)|] == Prog(i, pipes);
      }
    }
  }

  /** Then the file of an end is at one descriptor of the system if the command it is meant for
      runs, and at none if not. */
  lemma EndHeld(fds: seq<int>, fds': seq<int>, shell: nat, kids: seq<nat>, tab: Table, pipes: seq<Pipe>, at: Progress,
                files: seq<File>, k: nat, write: bool)
    requires Tracks(fds, fds', shell, kids, tab, pipes, at) && |at.kidPc| == |pipes| + 1 && Settled(at, pipes)
    requires k < |pipes|
    requires Plumbed(TableOf(fds, shell), tab, pipes) && TableOf(fds, shell)[0] != NULL
    requires TableOf(fds, shell)[1] != NULL
    requires Distinct(pipes) && Unseen(fds, pipes) && EndsAre(files, pipes)
    ensures var f, i, x := if write then pipes[k].wf else pipes[k].rf, if write then k else k + 1,
      if write then 1 else 0;
            if Alive(at, i) then OnlyAt(fds', f, Idx(kids[i], x)) else f !in fds'
  {
    hide TableOf, Tracks, Plumbed, KidTable;
    SettledTables(fds, fds', shell, kids, tab, pipes, at);
    TracksSized(fds, fds', shell, kids, tab, pipes, at);
    var f, i, x := if write then pipes[k].wf else pipes[k].rf, if write then k else k + 1, if write then 1 else 0;
    assert EndsOf(files, pipes[k]);
    if Alive(at, i) { InTable(fds', Idx(kids[i], x)); }
    forall d | 0 <= d < |fds'| && fds'[d] == f ensures Alive(at, i) && d == Idx(kids[i], x) {
      var q := d / NOFILE;
      InTable(fds', d);
      WasThere(fds, shell, d % NOFILE);
      WasThere(fds, q, d % NOFILE);
      OthersAsBefore(fds, fds', shell, kids, tab, pipes, at, q);
      var j :| 0 <= j < |kids| && kids[j] == q;
      if Alive(at, j) { WiredFiles(TableOf(fds, shell), pipes, files, j, k, write, d % NOFILE); }
    }
  }

  lemma OthersAsBefore(fds: seq<int>, fds': seq<int>, shell: nat, kids: seq<nat>, tab: Table, pipes: seq<Pipe>,
                       at: Progress, q: nat)
    requires Tracks(fds, fds', shell, kids, tab, pipes, at) && q < NPROC
    ensures q == shell || q in kids || TableOf(fds', q) == TableOf(fds, q)
  {
  }

  /** An end is open exactly as long as the command it is meant for runs: whatever the schedule
      was and in whatever order the commands exit, the exit of command k closes the write end of
      pipe k, and command k + 1 reads the end of the stream; no other pipe is touched. */
  lemma EndsOpen(t: Tables, fds: seq<int>, files: seq<File>, shell: nat, kids: seq<nat>, tab: Table, pipes: seq<Pipe>,
                 at: Progress, k: nat)
    requires Running(t, fds, files, shell, kids, tab, pipes, at) && |at.kidPc| == |pipes| + 1 && Settled(at, pipes)
    requires k < |pipes|
    requires Distinct(pipes) && Unseen(fds, pipes) && EndsAre(files, pipes) && pipes[k].slot < NPIPE == |t.pipes|
    requires OneEnd(files, pipes[k].slot, true) && OneEnd(files, pipes[k].slot, false)
    ensures t.pipes[pipes[k].slot].writeopen <==> Alive(at, k)
    ensures t.pipes[pipes[k].slot].readopen <==> Alive(at, k + 1)
  {
    hide Tables.Valid, KindKept, Tracks, Plumbed, Unseen, Distinct, OneEnd, Alive, Settled, Referred;
    OpenMeansReferred(t, pipes[k].slot);
    assert EndsOf(files, pipes[k]);
    EndHeld(fds, t.fds, shell, kids, tab, pipes, at, files, k, true);
    EndHeld(fds, t.fds, shell, kids, tab, pipes, at, files, k, false);
    HeldIsReferred(t, files, pipes[k].slot, pipes[k].wf, true);
    HeldIsReferred(t, files, pipes[k].slot, pipes[k].rf, false);
  }

  lemma HeldIsReferred(t: Tables, files: seq<File>, slot: nat, f: int, write: bool)
    requires t.Quiet() && KindKept(files, t.files) && 0 <= f < |files| && IsEnd(files[f], slot, write)
    requires OneEnd(files, slot, write)
    ensures Referred(t.files, t.fds, slot, write) <==> f in t.fds
  {
    SizesOf(t);
    if f in t.fds {
      var e :| 0 <= e < |t.fds| && t.fds[e] == f;
      LiveEntry(t, e);
      assert IsEnd(t.files[t.fds[e]], slot, write);
    }
    forall e | 0 <= e < |t.fds| && 0 <= t.fds[e] < |t.files| && IsEnd(t.files[t.fds[e]], slot, write)
      ensures f in t.fds
    {
      assert IsEnd(files[t.fds[e]], slot, write);
    }
  }

  /** The state of all pipes. */
  ghost predicate Piped(slots: seq<PipeSlot>, pipes: seq<Pipe>, at: Progress) {
    |slots| == NPIPE && forall k :: 0 <= k < |pipes| ==>
      && pipes[k].slot < NPIPE
      && (slots[pipes[k].slot].writeopen <==> Alive(at, k)) && (slots[pipes[k].slot].readopen <==> Alive(at, k + 1))
  }

  /** run_pipeline up to waiting, under any schedule. If a pipe cannot be made all descriptors
      are as before; with room for the pipes that does not happen. Otherwise, once everybody is
      set up, the shell's own descriptors are as before, every running command is wired as
      intended, and the pipes are open exactly where running commands need them. */
  method RunPipeline(t: Tables, shell: nat, kids: seq<nat>, schedule: seq<Act>) returns (ok: bool, pipes: seq<Pipe>,
                     at: Progress)
    requires t.Quiet() && |t.fds| == NPROC * NOFILE && shell < NPROC && Cast(t.fds, shell, kids) && |kids| > 0
    requires TableOf(t.fds, shell)[0] != NULL && TableOf(t.fds, shell)[1] != NULL
    modifies t
    ensures t.Quiet() && |old(t.fds)| == |t.fds| == NPROC * NOFILE
    ensures !ok ==> forall p :: 0 <= p < NPROC ==> TableOf(t.fds, p) == TableOf(old(t.fds), p)
    ensures Room(old(t.files), TableOf(old(t.fds), shell), old(t.pipes), |kids| - 1) ==> ok
    ensures ok ==> |pipes| + 1 == |kids| == |at.kidPc| && at == NextAll(Begin(|pipes|), schedule, pipes)
    ensures ok && Settled(at, pipes) ==>
      && Piped(t.pipes, pipes, at) && TableOf(t.fds, shell) == TableOf(old(t.fds), shell)
      && (forall i :: 0 <= i < |kids| && Alive(at, i) ==>
            kids[i] < NPROC && TableOf(t.fds, kids[i]) == Wired(TableOf(old(t.fds), shell), i, pipes))
      && forall q :: 0 <= q < NPROC && q != shell && q !in kids ==> TableOf(t.fds, q) == TableOf(old(t.fds), q)
  {
    hide Tables.Valid, KindKept, TableOf, Plumbed, Tracks, Prog, After, Has, EndsAre, Distinct, Unseen, Room, OneEnd,
      Wired, Piped, EndsOf,
      Alive, Settled, Nothing, Cast, NextAll, Next;
    ghost var fds := t.fds;
    at := Begin(|kids| - 1);
    ok, pipes := MakePipes(t, shell, |kids| - 1);
    SizesOf(t);
    if !ok {
      return;
    }
    ghost var files, tab := t.files, TableOf(t.fds, shell);
    SlotsOf(t, pipes);
    NothingStarted(t, fds, files, shell, kids, tab, pipes);
    assert schedule[..0] == [];
    NoneDone(at, pipes);
    for n := 0 to |schedule|
      invariant |at.kidPc| == |at.exited| == |pipes| + 1 && at == NextAll(Begin(|pipes|), schedule[..n], pipes)
      invariant Running(t, fds, files, shell, kids, tab, pipes, at)
    {
      DoneNext(Begin(|pipes|), schedule, n, pipes);
      var fine;
      at, fine := Step(t, shell, kids, pipes, at, schedule[n], fds, files, tab);
    }
    assert schedule[..|schedule|] == schedule;
    SizesOf(t);
    if Settled(at, pipes) {
      SettledTables(fds, t.fds, shell, kids, tab, pipes, at);
      AllPiped(t, fds, files, shell, kids, tab, pipes, at);
      TheRest(fds, t.fds, shell, kids, tab, pipes, at);
    }
  }

  lemma NoneDone(at: Progress, pipes: seq<Pipe>)
    requires at == Begin(|pipes|)
    ensures |at.kidPc| == |at.exited| == |pipes| + 1 && NextAll(at, [], pipes) == at
  {
  }

  lemma DoneNext(at: Progress, acts: seq<Act>, n: nat, pipes: seq<Pipe>)
    requires n < |acts| && |at.kidPc| == |at.exited| == |pipes| + 1
    ensures NextAll(at, acts[..n + 1], pipes) == Next(NextAll(at, acts[..n], pipes), acts[n], pipes)
  {
    assert acts[..n + 1][..n] == acts[..n] && acts[..n + 1][n] == acts[n];
  }

  /** Pipe slots are in range, and each has one file per end. */
  ghost predicate SlotsFine(files: seq<File>, pipes: seq<Pipe>) {
    forall k :: 0 <= k < |pipes| ==>
      pipes[k].slot < NPIPE && OneEnd(files, pipes[k].slot, true) && OneEnd(files, pipes[k].slot, false)
  }

  lemma SlotsOf(t: Tables, pipes: seq<Pipe>)
    requires t.Quiet() && EndsAre(t.files, pipes)
    ensures SlotsFine(t.files, pipes)
  {
    SizesOf(t);
    forall k | 0 <= k < |pipes|
      ensures pipes[k].slot < NPIPE && OneEnd(t.files, pipes[k].slot, true) && OneEnd(t.files, pipes[k].slot, false)
    {
      assert EndsOf(t.files, pipes[k]) && OpenFiles.FileOk(t.files[pipes[k].wf]);
      assert PipeOk(t.files, pipes[k].slot, t.pipes[pipes[k].slot], false);
    }
  }

  lemma NothingStarted(t: Tables, fds: seq<int>, files: seq<File>, shell: nat, kids: seq<nat>, tab: Table,
                       pipes: seq<Pipe>)
    requires Pipeline.Ready(t, fds, shell, pipes) && Cast(fds, shell, kids) && |kids| == |pipes| + 1 && files == t.files
    requires tab == TableOf(t.fds, shell) && TableOf(fds, shell)[0] != NULL && TableOf(fds, shell)[1] != NULL
    ensures Running(t, fds, files, shell, kids, tab, pipes, Begin(|pipes|))
  {
    hide Tables.Valid, TableOf, Plumbed, Prog;
    KindSelf(files);
    assert Closing(pipes)[..0] == [];
    forall i | 0 <= i <= |pipes| ensures TableOf(t.fds, kids[i]) == KidTable(tab, pipes, Begin(|pipes|), i) {
      BlankIs(fds, kids[i]);
    }
  }

  lemma BlankIs(fds: seq<int>, p: nat)
    requires Blank(fds, p)
    ensures TableOf(fds, p) == Nothing()
  {
  }

  lemma AllPiped(t: Tables, fds: seq<int>, files: seq<File>, shell: nat, kids: seq<nat>, tab: Table, pipes: seq<Pipe>,
                 at: Progress)
    requires Running(t, fds, files, shell, kids, tab, pipes, at) && |at.kidPc| == |pipes| + 1 && Settled(at, pipes)
    requires Distinct(pipes) && Unseen(fds, pipes) && EndsAre(files, pipes) && SlotsFine(files, pipes)
    requires |t.pipes| == NPIPE
    ensures Piped(t.pipes, pipes, at)
  {
    hide Running, Distinct, Unseen, EndsAre, OneEnd, Alive, Settled;
    forall k | 0 <= k < |pipes|
      ensures t.pipes[pipes[k].slot].writeopen <==> Alive(at, k)
      ensures t.pipes[pipes[k].slot].readopen <==> Alive(at, k + 1)
    {
      EndsOpen(t, fds, files, shell, kids, tab, pipes, at, k);
    }
  }

  lemma TheRest(fds: seq<int>, fds': seq<int>, shell: nat, kids: seq<nat>, tab: Table, pipes: seq<Pipe>, at: Progress)
    requires Tracks(fds, fds', shell, kids, tab, pipes, at)
    ensures |fds| == |fds'| == NPROC * NOFILE && |kids| == |pipes| + 1 && forall i :: 0 <= i < |kids| ==>
      kids[i] < NPROC
    ensures forall q :: 0 <= q < NPROC && q != shell && q !in kids ==> TableOf(fds', q) == TableOf(fds, q)
  {
  }
}
