/** The blocking pipe as a transition system. Any number of processes read, write
    and close one pipe; a step is what happens between two lock operations, so
    sleep's window between releasing the pipe lock and being marked asleep, and
    wakeup's scan one process lock at a time, are both visible. */
module Pipe {
  import opened Prelude

  const PIPESIZE := 512

  type Buffer = d: seq<Byte> | |d| == PIPESIZE witness seq(PIPESIZE, _ => 0)

  /** Readers sleep on one channel of the pipe, writers on the other. */
  datatype Chan = ReadChan | WriteChan

  datatype Op =
    | Read(cap: nat)
    | Write(src: seq<Byte>, n: nat, from: nat)   // from: bytes in the stream when the call began
    | Close(writable: bool)

  /** `at` is the position of the bytes in the stream; `upto` its length when the call was done
      with it; `n` how many bytes a broken write had stored. */
  datatype Outcome =
    | GotBytes(cap: nat, got: seq<Byte>, at: nat, upto: nat)
    | Wrote(src: seq<Byte>, from: nat, upto: nat)
    | BrokenPipe(src: seq<Byte>, n: nat, from: nat, upto: nat)
    | Closed(writable: bool)

  /** What a wakeup scan is followed by. */
  datatype After = Finish(out: Outcome) | Sleep(op: Op, chan: Chan)

  datatype Pc =
    | Idle
    | Returned(out: Outcome)
    | Acquiring(op: Op)                       // wants pipe.lock
    | Checking(op: Op, dirty: bool)           // holds pipe.lock; dirty: stored bytes since acquiring it
    | Copying(cap: nat, got: seq<Byte>, at: nat) // holds pipe.lock
    | Waking(chan: Chan, i: nat, after: After) // holds pipe.lock, about to lock process i
    | Entering(op: Op, chan: Chan)            // in sleep: holds pipe.lock and its own lock
    | Dozing(op: Op, chan: Chan)              // pipe.lock released, own lock still held
    | Asleep(op: Op, chan: Chan)              // Sleeping, own lock released by the scheduler

  datatype State = State(
    data: Buffer, nread: nat, nwrite: nat, readopen: bool, writeopen: bool,
    owner: Option<nat>,      // holder of pipe.lock
    procs: seq<Pc>,
    readref: bool,           // an open file still refers to the read end
    writeref: bool,          // an open file still refers to the write end
    written: seq<Byte>,      // every byte stored so far
    authors: seq<nat>,       // and the process that stored it
    delivered: seq<Byte>)    // every byte handed to a reader so far

  function ChanOf(op: Op): Chan {
    if op.Read? then ReadChan else WriteChan
  }

  predicate Empty(s: State) { s.nread == s.nwrite }

  predicate Full(s: State) { s.nwrite == s.nread + PIPESIZE }

  predicate Holds(pc: Pc) { pc.Checking? || pc.Copying? || pc.Waking? || pc.Entering? }

  ghost predicate Init(s: State) {
    && s.nread == s.nwrite == 0
    && s.readopen && s.writeopen && s.readref && s.writeref
    && s.owner == None && s.written == s.delivered == [] && s.authors == []
    && forall p :: 0 <= p < |s.procs| ==> s.procs[p] == Idle
  }

  function Goto(s: State, p: nat, pc: Pc): State
    requires p < |s.procs|
  {
    s.(procs := s.procs[p := pc])
  }

  function Unlock(s: State, p: nat, pc: Pc): State
    requires p < |s.procs|
  {
    Goto(s, p, pc).(owner := None)
  }

  // ---- Steps ------------------------------------------------------------------

  /** The operation a process is inside, if any. */
  function Current(pc: Pc): Option<Op> {
    match pc
    case Acquiring(op) => Some(op)
    case Checking(op, _) => Some(op)
    case Copying(cap, _, _) => Some(Read(cap))
    case Waking(_, _, Sleep(op, _)) => Some(op)
    case Entering(op, _) => Some(op)
    case Dozing(op, _) => Some(op)
    case Asleep(op, _) => Some(op)
    case _ => None
  }

  predicate NobodyIn(s: State, reading: bool) {
    forall q :: 0 <= q < |s.procs| && Current(s.procs[q]).Some? ==>
      if reading then !Current(s.procs[q]).value.Read? else !Current(s.procs[q]).value.Write?
  }

  /** A process may start a call while the file table holds the end it needs; the
      last close of an end happens when nobody is inside a call on that end. */
  predicate CanBegin(s: State, p: nat, op: Op) {
    && p < |s.procs| && (s.procs[p].Idle? || s.procs[p].Returned?)
    && match op
       case Read(_) => s.readref
       case Write(_, n, from) => s.writeref && n == 0 && from == |s.written|
       case Close(true) => s.writeref && NobodyIn(s, false)
       case Close(false) => s.readref && NobodyIn(s, true)
  }

  function Begin(s: State, p: nat, op: Op): State
    requires CanBegin(s, p, op)
  {
    var s' := Goto(s, p, Acquiring(op));
    match op
    case Close(true) => s'.(writeref := false)
    case Close(false) => s'.(readref := false)
    case _ => s'
  }

  predicate CanStep(s: State, p: nat) {
    && p < |s.procs|
    && match s.procs[p]
       case Idle => false
       case Returned(_) => false
       case Asleep(_, _) => false
       case Acquiring(_) => s.owner == None
       case Waking(_, i, _) => i < |s.procs| ==> !s.procs[i].Dozing?   // else spins on that process's lock
       case _ => true
  }

  function Step(s: State, p: nat): State
    requires CanStep(s, p)
  {
    match s.procs[p]
    case Acquiring(op) => Goto(s, p, Checking(op, false)).(owner := Some(p))
    case Checking(Read(cap), _) =>
      if Empty(s) && s.writeopen then Goto(s, p, Entering(Read(cap), ReadChan))
      else Goto(s, p, Copying(cap, [], s.nread))
    case Checking(Write(src, n, from), _) => WriteStep(s, p, src, n, from)
    case Checking(Close(writable), _) =>
      if writable then Goto(s, p, Waking(ReadChan, 0, Finish(Closed(true)))).(writeopen := false)
      else Goto(s, p, Waking(WriteChan, 0, Finish(Closed(false)))).(readopen := false)
    case Copying(cap, got, at) => CopyStep(s, p, cap, got, at)
    case Waking(chan, i, after) => WakeStep(s, p, chan, i, after)
    case Entering(op, chan) => Unlock(s, p, Dozing(op, chan))
    case Dozing(op, chan) => Goto(s, p, Asleep(op, chan))
    case _ => s
  }

  function WriteStep(s: State, p: nat, src: seq<Byte>, n: nat, from: nat): State
    requires p < |s.procs|
  {
    if n >= |src| then Goto(s, p, Waking(ReadChan, 0, Finish(Wrote(src, from, |s.written|))))
    else if Full(s) then
      if !s.readopen then Unlock(s, p, Returned(BrokenPipe(src, n, from, |s.written|)))
      else Goto(s, p, Waking(ReadChan, 0, Sleep(Write(src, n, from), WriteChan)))
    else if !s.readopen then Unlock(s, p, Returned(BrokenPipe(src, n, from, |s.written|)))
    else
      Goto(s, p, Checking(Write(src, n + 1, from), true)).(
        data := s.data[s.nwrite % PIPESIZE := src[n]],
        nwrite := s.nwrite + 1, written := s.written + [src[n]], authors := s.authors + [p])
  }

  function CopyStep(s: State, p: nat, cap: nat, got: seq<Byte>, at: nat): State
    requires p < |s.procs|
  {
    if |got| < cap && !Empty(s) then
      var b := s.data[s.nread % PIPESIZE];
      Goto(s, p, Copying(cap, got + [b], at)).(nread := s.nread + 1, delivered := s.delivered + [b])
    else
      Goto(s, p, Waking(WriteChan, 0, Finish(GotBytes(cap, got, at, |s.written|))))
  }

  function WakeStep(s: State, p: nat, chan: Chan, i: nat, after: After): State
    requires p < |s.procs|
  {
    if i < |s.procs| then
      var woken := match s.procs[i] case Asleep(op, c) => if c == chan then Acquiring(op) else s.procs[i] case pc => pc;
      Goto(Goto(s, i, woken), p, Waking(chan, i + 1, after))
    else match after
      case Finish(out) => Unlock(s, p, Returned(out))
      case Sleep(op, c) => Goto(s, p, Entering(op, c))
  }

  ghost predicate Next(s: State, s': State) {
    || (exists p, op :: CanBegin(s, p, op) && s' == Begin(s, p, op))
    || (exists p :: CanStep(s, p) && s' == Step(s, p))
  }

  ghost predicate StepAt(t: seq<State>, i: nat)
    requires i + 1 < |t|
  {
    Next(t[i], t[i + 1])
  }

  ghost predicate Run(t: seq<State>) {
    && |t| > 0 && Init(t[0])
    && forall i :: 0 <= i < |t| - 1 ==> StepAt(t, i)
  }

  // ---- Invariant --------------------------------------------------------------

  /** The bytes between nread and nwrite are the pending part of what was written. */
  ghost predicate RingOf(data: Buffer, nread: nat, nwrite: nat, written: seq<Byte>, delivered: seq<Byte>) {
    && nread <= nwrite <= nread + PIPESIZE
    && |written| == nwrite
    && delivered == written[..nread]
    && forall k :: nread <= k < nwrite ==> data[k % PIPESIZE] == written[k]
  }

  ghost predicate Ring(s: State) {
    RingOf(s.data, s.nread, s.nwrite, s.written, s.delivered)
  }

  ghost predicate Mutex(s: State) {
    && (s.owner.Some? ==> s.owner.value < |s.procs|)
    && forall p :: 0 <= p < |s.procs| ==> (Holds(s.procs[p]) <==> s.owner == Some(p))
  }

  predicate Blocked(s: State, chan: Chan) {
    match chan
    case ReadChan => Empty(s) && s.writeopen
    case WriteChan => Full(s) && s.readopen
  }

  predicate Waits(pc: Pc) { pc.Dozing? || pc.Asleep? }

  /** The lock holder is bound to wake process j on `chan` before it lets go. */
  predicate WillWake(pc: Pc, chan: Chan, j: nat) {
    match pc
    case Waking(c, i, _) => c == chan && i <= j
    case Copying(_, _, _) => chan == WriteChan
    case Checking(Write(_, _, _), dirty) => chan == ReadChan && dirty
    case _ => false
  }

  ghost predicate NoLostWakeup(s: State)
    requires Mutex(s)
  {
    forall j :: 0 <= j < |s.procs| && Waits(s.procs[j]) ==>
      || Blocked(s, s.procs[j].chan)
      || (s.owner.Some? && WillWake(s.procs[s.owner.value], s.procs[j].chan, j))
  }

  /** What the holder of the lock knows at each point. */
  predicate HolderKnows(s: State, pc: Pc) {
    match pc
    case Checking(Write(_, _, _), dirty) => dirty ==> s.readopen
    case Copying(cap, got, _) => got == [] && Empty(s) ==> !s.writeopen
    case Waking(_, _, Finish(GotBytes(cap, got, _, _))) => cap > 0 && got == [] ==> Empty(s) && !s.writeopen
    case Waking(_, _, Sleep(op, chan)) => chan == ChanOf(op) && Blocked(s, chan)
    case Entering(op, chan) => chan == ChanOf(op) && Blocked(s, chan)
    case _ => true
  }

  ghost predicate Knows(s: State) {
    forall p :: 0 <= p < |s.procs| ==> HolderKnows(s, s.procs[p])
  }

  /** No call on an end outlives the file that refers to it, and end of file is final. */
  ghost predicate Ends(s: State) {
    && (s.writeref ==> s.writeopen) && (s.readref ==> s.readopen)
    && (!s.writeref ==> NobodyIn(s, false)) && (!s.readref ==> NobodyIn(s, true))
    && (forall p :: 0 <= p < |s.procs| && Current(s.procs[p]) == Some(Close(true)) ==> !s.writeref)
    && (forall p :: 0 <= p < |s.procs| && Current(s.procs[p]) == Some(Close(false)) ==> !s.readref)
    && (forall p :: 0 <= p < |s.procs| && SawEof(s.procs[p]) ==> Empty(s) && !s.writeopen)
  }

  predicate SawEof(pc: Pc) {
    pc.Returned? && pc.out.GotBytes? && pc.out.cap > 0 && pc.out.got == []
  }

  /** The bytes process p stored at stream positions lo..hi, in order. */
  function Mine(written: seq<Byte>, authors: seq<nat>, lo: nat, hi: nat, p: nat): seq<Byte>
    requires lo <= hi <= |written| == |authors|
    decreases hi
  {
    if lo == hi then []
    else Mine(written, authors, lo, hi - 1, p) + if authors[hi - 1] == p then [written[hi - 1]] else []
  }

  predicate Slice(written: seq<Byte>, got: seq<Byte>, at: nat) {
    at + |got| <= |written| && written[at..at + |got|] == got
  }

  /** A read returns what is there from its position on, as much as fits. A write that completes
      has stored its bytes; one that does not has stored some, and the read end is closed. */
  predicate OutcomeIs(s: State, p: nat, out: Outcome)
    requires |s.authors| == |s.written|
  {
    match out
    case GotBytes(cap, got, at, upto) =>
      && |got| <= cap && Slice(s.written, got, at)
      && at + |got| <= upto <= |s.written| && (|got| < cap ==> at + |got| == upto)
    case Wrote(src, from, upto) => from <= upto <= |s.written| && Mine(s.written, s.authors, from, upto, p) == src
    case BrokenPipe(src, n, from, upto) =>
      && !s.readopen && n < |src|
      && from <= upto <= |s.written| && Mine(s.written, s.authors, from, upto, p) == src[..n]
    case Closed(writable) => if writable then !s.writeopen else !s.readopen
  }

  predicate OpIs(s: State, p: nat, op: Op)
    requires |s.authors| == |s.written|
  {
    op.Write? ==>
      && op.from <= |s.written| && op.n <= |op.src|
      && Mine(s.written, s.authors, op.from, |s.written|, p) == op.src[..op.n]
  }

  /** How far the call of process p has come, in terms of the stream. */
  predicate CallIs(s: State, p: nat, pc: Pc)
    requires |s.authors| == |s.written|
  {
    match pc
    case Idle => true
    case Returned(out) => OutcomeIs(s, p, out)
    case Acquiring(op) => OpIs(s, p, op)
    case Checking(op, _) => OpIs(s, p, op)
    case Copying(cap, got, at) => |got| <= cap && Slice(s.written, got, at) && at + |got| == s.nread
    case Waking(_, _, Finish(out)) => OutcomeIs(s, p, out)
    case Waking(_, _, Sleep(op, _)) => OpIs(s, p, op)
    case Entering(op, _) => OpIs(s, p, op)
    case Dozing(op, _) => OpIs(s, p, op)
    case Asleep(op, _) => OpIs(s, p, op)
  }

  ghost predicate Calls(s: State) {
    && |s.authors| == |s.written|
    && forall p :: 0 <= p < |s.procs| ==> CallIs(s, p, s.procs[p])
  }

  /** Everything but the ring contents: proved without them. */
  ghost predicate Protocol(s: State) {
    Mutex(s) && NoLostWakeup(s) && Knows(s) && Ends(s)
  }

  ghost predicate Inv(s: State) {
    Ring(s) && Protocol(s) && Calls(s)
  }

  // ---- Every step keeps the invariant ------------------------------------------

  lemma BeginKeeps(s: State, p: nat, op: Op)
    requires Protocol(s) && CanBegin(s, p, op)
    ensures Protocol(Begin(s, p, op))
  {
    hide Ends;
    BeginEnds(s, p, op);
  }

  lemma BeginEnds(s: State, p: nat, op: Op)
    requires Ends(s) && CanBegin(s, p, op)
    ensures Ends(Begin(s, p, op))
  {
  }

  /** Storing a byte: the slot it lands in held nothing pending. */
  lemma RingStore(lo: nat, k: nat, hi: nat)
    requires lo <= k < hi < lo + PIPESIZE
    ensures k % PIPESIZE != hi % PIPESIZE
  {
  }

  lemma StoreKeeps(s: State, b: Byte)
    requires Ring(s) && !Full(s)
    ensures Ring(s.(data := s.data[s.nwrite % PIPESIZE := b], nwrite := s.nwrite + 1, written := s.written + [b]))
  {
    forall k | s.nread <= k < s.nwrite
      ensures k % PIPESIZE != s.nwrite % PIPESIZE
    {
      RingStore(s.nread, k, s.nwrite);
    }
  }

  lemma LoadKeeps(s: State)
    requires Ring(s) && !Empty(s)
    ensures Ring(s.(nread := s.nread + 1, delivered := s.delivered + [s.data[s.nread % PIPESIZE]]))
  {
    assert s.written[..s.nread + 1] == s.written[..s.nread] + [s.written[s.nread]];
  }

  lemma RingKeeps(s: State, p: nat)
    requires Ring(s) && CanStep(s, p)
    ensures Ring(Step(s, p))
  {
    hide RingOf;
    match s.procs[p]
    case Checking(Write(src, n, _), _) =>
      if n < |src| && !Full(s) && s.readopen {
        StoreKeeps(s, src[n]);
      }
    case Copying(cap, got, _) =>
      if |got| < cap && !Empty(s) {
        LoadKeeps(s);
      }
    case _ =>
  }

  lemma AcquireKeeps(s: State, p: nat)
    requires Protocol(s) && CanStep(s, p) && s.procs[p].Acquiring?
    ensures Protocol(Step(s, p))
  {
    hide WriteStep, CopyStep, WakeStep;
  }

  lemma ReadCheckKeeps(s: State, p: nat)
    requires Protocol(s) && CanStep(s, p) && s.procs[p].Checking? && s.procs[p].op.Read?
    ensures Protocol(Step(s, p))
  {
    hide WriteStep, CopyStep, WakeStep;
  }

  lemma CloseKeeps(s: State, p: nat)
    requires Protocol(s) && CanStep(s, p) && s.procs[p].Checking? && s.procs[p].op.Close?
    ensures Protocol(Step(s, p))
  {
    hide WriteStep, CopyStep, WakeStep;
  }

  lemma WriteKeeps(s: State, p: nat)
    requires Protocol(s) && CanStep(s, p) && s.procs[p].Checking? && s.procs[p].op.Write?
    ensures Protocol(Step(s, p))
  {
    hide CopyStep, WakeStep;
    var op, s' := s.procs[p].op, Step(s, p);
    if op.n < |op.src| && !Full(s) && s.readopen {
      // A byte is stored: no writer waits, because the buffer is not full.
      assert forall j :: 0 <= j < |s.procs| && Waits(s.procs[j]) ==> s.procs[j].chan == ReadChan;
      assert s.writeopen;
      assert NoLostWakeup(s') && Knows(s') && Ends(s');
    } else {
      assert NoLostWakeup(s') && Knows(s') && Ends(s');
    }
  }

  lemma CopyKeeps(s: State, p: nat)
    requires Protocol(s) && CanStep(s, p) && s.procs[p].Copying?
    ensures Protocol(Step(s, p))
  {
    hide WriteStep, WakeStep;
  }

  lemma WakeKeeps(s: State, p: nat)
    requires Protocol(s) && CanStep(s, p) && s.procs[p].Waking?
    ensures Protocol(Step(s, p))
  {
    hide WriteStep, CopyStep;
    var i, s' := s.procs[p].i, Step(s, p);
    if i < |s.procs| {
      WakeOneKeeps(s, p);
    } else {
      assert s.procs[p].after.Finish? || s.procs[p].after.Sleep?;
    }
  }

  /** One process lock taken by a wakeup scan. */
  lemma WakeOneKeeps(s: State, p: nat)
    requires Protocol(s) && CanStep(s, p) && s.procs[p].Waking? && s.procs[p].i < |s.procs|
    ensures Protocol(Step(s, p))
  {
    hide WriteStep, CopyStep, Knows, Ends;
    var Waking(chan, i, after) := s.procs[p];
    var s' := Step(s, p);
    assert s.owner == Some(p) == s'.owner;
    assert forall j :: 0 <= j < |s.procs| && j != p && j != i ==> s'.procs[j] == s.procs[j];
    assert i != p ==> !(Waits(s'.procs[i]) && s'.procs[i].chan == chan);
    WakeOneKnows(s, p);
    WakeOneEnds(s, p);
  }

  lemma WakeOneKnows(s: State, p: nat)
    requires Knows(s) && CanStep(s, p) && s.procs[p].Waking? && s.procs[p].i < |s.procs|
    ensures Knows(Step(s, p))
  {
    hide WriteStep, CopyStep;
  }

  lemma WakeOneEnds(s: State, p: nat)
    requires Ends(s) && CanStep(s, p) && s.procs[p].Waking? && s.procs[p].i < |s.procs|
    ensures Ends(Step(s, p))
  {
    hide WriteStep, CopyStep;
    var s' := Step(s, p);
    assert forall j :: 0 <= j < |s.procs| ==> Current(s'.procs[j]) == Current(s.procs[j]);
    assert forall j :: 0 <= j < |s.procs| ==> SawEof(s'.procs[j]) == SawEof(s.procs[j]);
  }

  lemma SleepKeeps(s: State, p: nat)
    requires Protocol(s) && CanStep(s, p) && (s.procs[p].Entering? || s.procs[p].Dozing?)
    ensures Protocol(Step(s, p))
  {
    hide WriteStep, CopyStep, WakeStep;
  }

  lemma {:induction false} MineStable(s: State, b: Byte, q: nat, lo: nat, hi: nat, p: nat)
    requires lo <= hi <= |s.written| == |s.authors|
    ensures Mine(s.written + [b], s.authors + [q], lo, hi, p) == Mine(s.written, s.authors, lo, hi, p)
    decreases hi
  {
    if lo < hi {
      MineStable(s, b, q, lo, hi - 1, p);
    }
  }

  /** s' is s with byte b stored by process q. */
  ghost predicate StoredBy(s: State, s': State, q: nat, b: Byte) {
    && |s.authors| == |s.written| && s'.written == s.written + [b] && s'.authors == s.authors + [q]
    && s'.readopen == s.readopen && s'.writeopen == s.writeopen
  }

  lemma OutcomeStays(s: State, s': State, q: nat, b: Byte, p: nat, out: Outcome)
    requires StoredBy(s, s', q, b) && OutcomeIs(s, p, out)
    ensures |s'.authors| == |s'.written| && OutcomeIs(s', p, out)
  {
    hide Mine;
    if out.Wrote? || out.BrokenPipe? {
      MineStable(s, b, q, out.from, out.upto, p);
    }
  }

  lemma OpStays(s: State, s': State, q: nat, b: Byte, p: nat, op: Op)
    requires StoredBy(s, s', q, b) && OpIs(s, p, op) && p != q
    ensures |s'.authors| == |s'.written| && OpIs(s', p, op)
  {
    if op.Write? {
      MineStable(s, b, q, op.from, |s.written|, p);
      assert Mine(s'.written, s'.authors, op.from, |s'.written|, p) ==
        Mine(s'.written, s'.authors, op.from, |s.written|, p) + [];
    }
  }

  lemma OpGrows(s: State, s': State, q: nat, b: Byte, op: Op)
    requires StoredBy(s, s', q, b) && OpIs(s, q, op) && op.Write? && op.n < |op.src| && b == op.src[op.n]
    ensures |s'.authors| == |s'.written| && OpIs(s', q, op.(n := op.n + 1))
  {
    MineStable(s, b, q, op.from, |s.written|, q);
    assert op.src[..op.n + 1] == op.src[..op.n] + [b];
  }

  /** Storing a byte extends the call of its author and no other. */
  lemma StoreCalls(s: State, q: nat, b: Byte, s': State)
    requires Calls(s) && q < |s.procs| && s.procs[q].Checking? && s.procs[q].op.Write?
    requires s.procs[q].op.n < |s.procs[q].op.src| && b == s.procs[q].op.src[s.procs[q].op.n]
    requires s' == s.(data := s'.data, nwrite := s'.nwrite, written := s.written + [b], authors := s.authors + [q],
                      procs := s.procs[q := Checking(s.procs[q].op.(n := s.procs[q].op.n + 1), true)])
    requires forall p :: 0 <= p < |s.procs| && s.procs[p].Copying? ==> p == q
    ensures Calls(s')
  {
    hide OutcomeIs, OpIs;
    assert StoredBy(s, s', q, b);
    forall p | 0 <= p < |s'.procs|
      ensures CallIs(s', p, s'.procs[p])
    {
      assert CallIs(s, p, s.procs[p]);
      if p == q {
        OpGrows(s, s', q, b, s.procs[q].op);
      } else if s.procs[p].Returned? {
        OutcomeStays(s, s', q, b, p, s.procs[p].out);
      } else if s.procs[p].Waking? && s.procs[p].after.Finish? {
        OutcomeStays(s, s', q, b, p, s.procs[p].after.out);
      } else if Current(s.procs[p]).Some? {
        OpStays(s, s', q, b, p, Current(s.procs[p]).value);
      }
    }
  }

  /** A step that stores nothing leaves every other call where it was. */
  lemma CallsMoved(s: State, s': State, p: nat)
    requires Calls(s) && p < |s.procs| == |s'.procs|
    requires s'.written == s.written && s'.authors == s.authors
    requires (s'.readopen ==> s.readopen) && (s'.writeopen ==> s.writeopen)
    requires forall q :: 0 <= q < |s.procs| && q != p ==>
      s'.procs[q] == s.procs[q] || (s.procs[q].Asleep? && s'.procs[q] == Acquiring(s.procs[q].op))
    requires s'.nread == s.nread || forall q :: 0 <= q < |s.procs| && s.procs[q].Copying? ==> q == p
    requires CallIs(s', p, s'.procs[p])
    ensures Calls(s')
  {
    hide Mine, Slice;
    assert |s'.authors| == |s'.written|;
    forall q | 0 <= q < |s'.procs|
      ensures CallIs(s', q, s'.procs[q])
    {
      assert CallIs(s, q, s.procs[q]);
    }
  }

  lemma WriteCalls(s: State, p: nat)
    requires Calls(s) && Mutex(s) && CanStep(s, p) && s.procs[p].Checking? && s.procs[p].op.Write?
    ensures Calls(Step(s, p))
  {
    hide Mine;
    var Write(src, n, _) := s.procs[p].op;
    assert CallIs(s, p, s.procs[p]);
    if n < |src| && !Full(s) && s.readopen {
      StoreCalls(s, p, src[n], Step(s, p));
    } else {
      assert n == |src| ==> src[..n] == src;
      CallsMoved(s, Step(s, p), p);
    }
  }

  lemma CopyCalls(s: State, p: nat)
    requires Calls(s) && Ring(s) && Mutex(s) && CanStep(s, p) && s.procs[p].Copying?
    ensures Calls(Step(s, p))
  {
    hide Mine;
    var Copying(cap, got, at) := s.procs[p];
    assert CallIs(s, p, s.procs[p]);
    if |got| < cap && !Empty(s) {
      assert s.written[at..at + |got| + 1] == s.written[at..at + |got|] + [s.written[at + |got|]];
    }
    CallsMoved(s, Step(s, p), p);
  }

  lemma OpFrame(s: State, s': State, p: nat, op: Op)
    requires |s.authors| == |s.written| && s'.written == s.written && s'.authors == s.authors
    ensures OpIs(s, p, op) == OpIs(s', p, op)
  {
  }

  lemma WakeCalls(s: State, p: nat)
    requires Calls(s) && CanStep(s, p) && s.procs[p].Waking?
    ensures Calls(Step(s, p))
  {
    hide Mine, Slice, WriteStep, CopyStep;
    assert CallIs(s, p, s.procs[p]);
    CallsMoved(s, Step(s, p), p);
  }

  lemma CheckCalls(s: State, p: nat)
    requires Calls(s) && s.nread <= |s.written| && CanStep(s, p)
    requires s.procs[p].Checking? && !s.procs[p].op.Write?
    ensures Calls(Step(s, p))
  {
    hide Mine, WriteStep, CopyStep, WakeStep;
    var s' := Step(s, p);
    assert forall q :: 0 <= q < |s.procs| && q != p ==> s'.procs[q] == s.procs[q];
    assert s.written[s.nread..s.nread] == [];
    CallsMoved(s, s', p);
  }

  lemma SleepCalls(s: State, p: nat)
    requires Calls(s) && CanStep(s, p)
    requires s.procs[p].Acquiring? || s.procs[p].Entering? || s.procs[p].Dozing?
    ensures Calls(Step(s, p))
  {
    hide OpIs, WriteStep, CopyStep, WakeStep;
    var s' := Step(s, p);
    assert CallIs(s, p, s.procs[p]);
    assert forall q :: 0 <= q < |s.procs| && q != p ==> s'.procs[q] == s.procs[q];
    OpFrame(s, s', p, s.procs[p].op);
    CallsMoved(s, s', p);
  }

  lemma RingCounts(s: State)
    requires Ring(s)
    ensures s.nread <= s.nwrite == |s.written|
  {
  }

  lemma CallsKeep(s: State, p: nat)
    requires Calls(s) && Ring(s) && Mutex(s) && CanStep(s, p)
    ensures Calls(Step(s, p))
  {
    hide Calls, Ring, Mutex, Step;
    if s.procs[p].Copying? {
      CopyCalls(s, p);
    } else if s.procs[p].Checking? && s.procs[p].op.Write? {
      WriteCalls(s, p);
    } else if s.procs[p].Waking? {
      WakeCalls(s, p);
    } else if s.procs[p].Checking? {
      RingCounts(s);
      CheckCalls(s, p);
    } else {
      SleepCalls(s, p);
    }
  }

  lemma BeginInv(s: State, p: nat, op: Op)
    requires Inv(s) && CanBegin(s, p, op)
    ensures Inv(Begin(s, p, op))
  {
    hide Mutex, NoLostWakeup, Knows, Ends;
    BeginKeeps(s, p, op);
    CallsMoved(s, Begin(s, p, op), p);
  }

  lemma StepKeeps(s: State, p: nat)
    requires Inv(s) && CanStep(s, p)
    ensures Inv(Step(s, p))
  {
    hide Ring, Mutex, NoLostWakeup, Knows, Ends, Calls;
    RingKeeps(s, p);
    CallsKeep(s, p);
    match s.procs[p]
    case Acquiring(_) => AcquireKeeps(s, p);
    case Checking(Read(_), _) => ReadCheckKeeps(s, p);
    case Checking(Write(_, _, _), _) => WriteKeeps(s, p);
    case Checking(Close(_), _) => CloseKeeps(s, p);
    case Copying(_, _, _) => CopyKeeps(s, p);
    case Waking(_, _, _) => WakeKeeps(s, p);
    case _ => SleepKeeps(s, p);
  }

  lemma NextKeeps(s: State, s': State)
    requires Inv(s) && Next(s, s')
    ensures Inv(s')
  {
    hide Ring, Protocol, Calls, CanBegin, CanStep, Begin, Step;
    if p: nat, op :| CanBegin(s, p, op) && s' == Begin(s, p, op) {
      BeginInv(s, p, op);
    } else {
      var p: nat :| CanStep(s, p) && s' == Step(s, p);
      StepKeeps(s, p);
    }
  }

  lemma {:induction false} RunInv(t: seq<State>, i: nat)
    requires Run(t) && i < |t|
    ensures Inv(t[i])
  {
    if i > 0 {
      hide Inv, Next;
      RunInv(t, i - 1);
      assert StepAt(t, i - 1);
      NextKeeps(t[i - 1], t[i]);
    }
  }

  // ---- What every run guarantees -------------------------------------------------

  /** Bytes come out in the order they went in, none invented or lost, and at most
      PIPESIZE of them are pending. */
  lemma Fifo(t: seq<State>, i: nat)
    requires Run(t) && i < |t|
    ensures t[i].delivered <= t[i].written
    ensures |t[i].written| - |t[i].delivered| <= PIPESIZE
  {
    RunInv(t, i);
  }

  function Min(a: nat, b: nat): nat { if a <= b then a else b }

  /** A completed read returned the stream from its position on, as much as there was or as
      fits; a completed write put exactly its bytes into the stream in order. A write fails only
      when the read end is closed, and then a part of its bytes is in the stream. A completed
      close has closed its end. */
  lemma CallsDeliver(t: seq<State>, i: nat, p: nat)
    requires Run(t) && i < |t| && p < |t[i].procs| && t[i].procs[p].Returned?
    ensures var s, out := t[i], t[i].procs[p].out;
            && |s.authors| == |s.written|
            && (out.GotBytes? ==>
                  && out.at <= out.upto <= |s.written|
                  && out.got == s.written[out.at..out.at + Min(out.cap, out.upto - out.at)])
            && (out.Wrote? ==>
                  && out.from <= out.upto <= |s.written|
                  && Mine(s.written, s.authors, out.from, out.upto, p) == out.src)
            && (out.BrokenPipe? ==>
                  && !s.readopen && out.n < |out.src| && out.from <= out.upto <= |s.written|
                  && Mine(s.written, s.authors, out.from, out.upto, p) == out.src[..out.n])
            && (out.Closed? ==> if out.writable then !s.writeopen else !s.readopen)
  {
    RunInv(t, i);
    assert CallIs(t[i], p, t[i].procs[p]);
  }

  /** Whenever the pipe lock is free, a sleeping reader faces an empty pipe whose
      write end is open, a sleeping writer a full pipe whose read end is open; so
      the two sides are never asleep together. */
  lemma NoLostWakeups(t: seq<State>, i: nat, p: nat)
    requires Run(t) && i < |t| && p < |t[i].procs| && t[i].owner == None && t[i].procs[p].Asleep?
    ensures t[i].procs[p].chan == ReadChan ==> Empty(t[i]) && t[i].writeopen
    ensures t[i].procs[p].chan == WriteChan ==> Full(t[i]) && t[i].readopen
    ensures forall q :: 0 <= q < |t[i].procs| && t[i].procs[q].Asleep? ==>
              t[i].procs[q].chan == t[i].procs[p].chan
  {
    RunInv(t, i);
  }

  /** A read of a nonempty buffer that returns nothing has seen the last byte: the
      writers are gone and everything written was delivered, then and ever after. */
  lemma EofIsFinal(t: seq<State>, i: nat, j: nat, p: nat)
    requires Run(t) && i <= j < |t| && p < |t[i].procs| && SawEof(t[i].procs[p])
    ensures !t[j].writeopen && t[j].delivered == t[j].written == t[i].written
  {
    RunInv(t, i);
    EofStays(t, i, j);
    RunInv(t, j);
  }

  lemma {:induction false} EofStays(t: seq<State>, i: nat, j: nat)
    requires Run(t) && i <= j < |t| && !t[i].writeopen && Empty(t[i])
    ensures !t[j].writeopen && Empty(t[j]) && t[j].written == t[i].written
  {
    if i < j {
      hide Inv, Next;
      EofStays(t, i, j - 1);
      RunInv(t, j - 1);
      assert StepAt(t, j - 1);
      ClosedKeeps(t[j - 1], t[j]);
    }
  }

  lemma ClosedKeeps(s: State, s': State)
    requires Inv(s) && Next(s, s') && !s.writeopen && Empty(s)
    ensures !s'.writeopen && Empty(s') && s'.written == s.written
  {
    if p: nat, op :| CanBegin(s, p, op) && s' == Begin(s, p, op) {
    } else {
      var p: nat :| CanStep(s, p) && s' == Step(s, p);
      assert !(Current(s.procs[p]).Some? && Current(s.procs[p]).value.Write?);
    }
  }

  // ---- From a call to its return -----------------------------------------------------

  predicate Answers(op: Op, out: Outcome) {
    match out
    case GotBytes(cap, _, _, _) => op == Read(cap)
    case Wrote(src, from, _) => op.Write? && op.src == src && op.from == from
    case BrokenPipe(src, _, from, _) => op.Write? && op.src == src && op.from == from
    case Closed(writable) => op == Close(writable)
  }

  /** The process is inside call `op`, or has just come back from it. */
  predicate Within(op: Op, pc: Pc) {
    match pc
    case Idle => false
    case Returned(out) => Answers(op, out)
    case Waking(_, _, Finish(out)) => Answers(op, out)
    case _ =>
      var now := Current(pc).value;
      if op.Write? then now.Write? && now.src == op.src && now.from == op.from else now == op
  }

  lemma WakeWithin(s: State, p: nat, op: Op)
    requires p < |s.procs| && s.procs[p].Waking? && Within(op, s.procs[p])
    ensures var s' := WakeStep(s, p, s.procs[p].chan, s.procs[p].i, s.procs[p].after);
            p < |s'.procs| && Within(op, s'.procs[p])
  {
  }

  lemma WriteWithin(s: State, p: nat, src: seq<Byte>, n: nat, from: nat, op: Op)
    requires p < |s.procs| && op.Write? && op.src == src && op.from == from
    ensures p < |WriteStep(s, p, src, n, from).procs| && Within(op, WriteStep(s, p, src, n, from).procs[p])
  {
  }

  lemma WithinLocked(s: State, p: nat, op: Op)
    requires CanStep(s, p) && (s.procs[p].Checking? || s.procs[p].Waking?) && Within(op, s.procs[p])
    ensures p < |Step(s, p).procs| && Within(op, Step(s, p).procs[p])
  {
    hide WakeStep, WriteStep, CopyStep;
    if s.procs[p].Waking? {
      hide Within;
      WakeWithin(s, p, op);
    } else if s.procs[p].op.Write? {
      WriteWithin(s, p, s.procs[p].op.src, s.procs[p].op.n, s.procs[p].op.from, op);
    }
  }

  lemma WithinOwn(s: State, p: nat, op: Op)
    requires CanStep(s, p) && Within(op, s.procs[p])
    ensures p < |Step(s, p).procs| && Within(op, Step(s, p).procs[p])
  {
    hide WakeStep, WriteStep;
    if s.procs[p].Checking? || s.procs[p].Waking? {
      hide Step, Within, CopyStep;
      WithinLocked(s, p, op);
    }
  }

  lemma WakeOnly(s: State, p: nat, q: nat)
    requires p < |s.procs| && q < |s.procs| && q != p && s.procs[q].Waking?
    ensures var s' := WakeStep(s, q, s.procs[q].chan, s.procs[q].i, s.procs[q].after);
            && p < |s'.procs|
            && (s'.procs[p] != s.procs[p] ==>
                  && s.procs[p].Asleep? && s.procs[q].chan == s.procs[p].chan && s.procs[q].i == p
                  && s'.procs[p] == Acquiring(s.procs[p].op))
  {
  }

  lemma WriteOnly(s: State, p: nat, q: nat, src: seq<Byte>, n: nat, from: nat)
    requires p < |s.procs| && q < |s.procs| && q != p
    ensures var s' := WriteStep(s, q, src, n, from); p < |s'.procs| && s'.procs[p] == s.procs[p]
  {
  }

  /** Another process does nothing to p but wake it, on the channel it sleeps on. */
  lemma OnlyWoken(s: State, p: nat, q: nat)
    requires CanStep(s, q) && p < |s.procs| && q != p
    ensures p < |Step(s, q).procs|
    ensures Step(s, q).procs[p] != s.procs[p] ==>
      && s.procs[p].Asleep? && s.procs[q].Waking? && s.procs[q].chan == s.procs[p].chan && s.procs[q].i == p
      && Step(s, q).procs[p] == Acquiring(s.procs[p].op)
  {
    hide WakeStep, WriteStep;
    if s.procs[q].Waking? {
      hide CopyStep;
      WakeOnly(s, p, q);
    } else if s.procs[q].Checking? && s.procs[q].op.Write? {
      hide CopyStep;
      WriteOnly(s, p, q, s.procs[q].op.src, s.procs[q].op.n, s.procs[q].op.from);
    } else if !s.procs[q].Copying? {
      hide CopyStep;
    }
  }

  lemma WithinNext(s: State, s': State, p: nat, op: Op)
    requires Next(s, s') && p < |s.procs| && Within(op, s.procs[p]) && !s.procs[p].Returned?
    ensures p < |s'.procs| && Within(op, s'.procs[p])
  {
    if q: nat, o :| CanBegin(s, q, o) && s' == Begin(s, q, o) {
    } else {
      hide Step;
      var q: nat :| CanStep(s, q) && s' == Step(s, q);
      if q == p { WithinOwn(s, p, op); } else { OnlyWoken(s, p, q); }
    }
  }

  /** A call comes back with an answer to that call: the bytes read for a read, for a write the
      bytes it was given or that the pipe is broken, for a close that the end is closed. */
  lemma {:induction false} CallAnswered(t: seq<State>, i: nat, j: nat, p: nat, op: Op)
    requires Run(t) && i <= j < |t| && p < |t[i].procs| && t[i].procs[p] == Acquiring(op)
    requires forall k :: i <= k < j && p < |t[k].procs| ==> !t[k].procs[p].Returned?
    ensures p < |t[j].procs| && Within(op, t[j].procs[p])
    ensures t[j].procs[p].Returned? ==> Answers(op, t[j].procs[p].out)
  {
    if i < j {
      hide Next, Within;
      CallAnswered(t, i, j - 1, p, op);
      assert StepAt(t, j - 1);
      WithinNext(t[j - 1], t[j], p, op);
      ReturnedWithin(op, t[j].procs[p]);
    }
  }

  lemma ReturnedWithin(op: Op, pc: Pc)
    requires Within(op, pc)
    ensures pc.Returned? ==> Answers(op, pc.out)
  {
  }

  /** A sleeper is woken only by a wakeup on its own channel. */
  lemma WokenOnChannel(t: seq<State>, i: nat, p: nat)
    requires Run(t) && i + 1 < |t| && p < |t[i].procs| && t[i].procs[p].Asleep?
    ensures p < |t[i + 1].procs|
    ensures t[i + 1].procs[p] != t[i].procs[p] ==>
      && t[i + 1].procs[p] == Acquiring(t[i].procs[p].op)
      && exists q :: 0 <= q < |t[i].procs| && t[i].procs[q].Waking? && t[i].procs[q].chan == t[i].procs[p].chan
  {
    assert StepAt(t, i);
    var s, s' := t[i], t[i + 1];
    if q: nat, o :| CanBegin(s, q, o) && s' == Begin(s, q, o) {
    } else {
      hide Step;
      var q: nat :| CanStep(s, q) && s' == Step(s, q);
      OnlyWoken(s, p, q);
    }
  }

  // ---- Going to sleep, and going on -------------------------------------------------

  /** Process p is inside `op` and cannot go on for now: a reader at an empty pipe whose write end
      is open, a writer at a full pipe whose read end is open, or one of them on its way to sleep. */
  predicate Parks(s: State, p: nat, op: Op) {
    p < |s.procs| &&
    match s.procs[p]
    case Checking(o, _) => o == op && !op.Close? && (op.Write? ==> op.n < |op.src|) && Blocked(s, ChanOf(op))
    case Waking(_, _, Sleep(o, chan)) => o == op && chan == ChanOf(op)
    case Entering(o, chan) => o == op && chan == ChanOf(op)
    case Dozing(o, chan) => o == op && chan == ChanOf(op)
    case _ => false
  }

  lemma ParksOwn(s: State, p: nat, op: Op)
    requires CanStep(s, p) && Parks(s, p, op)
    ensures Parks(Step(s, p), p, op) || (p < |Step(s, p).procs| && Step(s, p).procs[p] == Asleep(op, ChanOf(op)))
  {
    hide CopyStep;
  }

  lemma ParksOther(s: State, p: nat, op: Op, q: nat)
    requires Mutex(s) && CanStep(s, q) && q != p && Parks(s, p, op)
    ensures Parks(Step(s, q), p, op)
  {
    assert Holds(s.procs[p]) <==> s.owner == Some(p);
    assert Holds(s.procs[q]) <==> s.owner == Some(q);
    if Holds(s.procs[p]) {
      hide WriteStep, CopyStep, WakeStep;
      assert s.procs[q].Dozing?;
    } else {
      OnlyWoken(s, p, q);
    }
  }

  lemma ParksNext(s: State, s': State, p: nat, op: Op)
    requires Inv(s) && Next(s, s') && Parks(s, p, op)
    ensures Parks(s', p, op) || (p < |s'.procs| && s'.procs[p] == Asleep(op, ChanOf(op)))
  {
    hide Ring, Mutex, NoLostWakeup, Knows, Ends, Calls, Step;
    if q: nat, o :| CanBegin(s, q, o) && s' == Begin(s, q, o) {
    } else {
      hide Parks;
      var q: nat :| CanStep(s, q) && s' == Step(s, q);
      if q == p { ParksOwn(s, p, op); } else { ParksOther(s, p, op, q); }
    }
  }

  lemma RunStep(t: seq<State>, i: nat)
    requires Run(t) && i + 1 < |t|
    ensures Next(t[i], t[i + 1])
  {
    hide Next;
    assert StepAt(t, i);
  }

  /** Who finds the pipe blocked goes to sleep on the channel of its side and does nothing else
      before: it does not return, and it neither takes nor stores a byte. */
  lemma {:induction false} BlockedSleeps(t: seq<State>, i: nat, j: nat, p: nat, op: Op)
    requires Run(t) && i <= j < |t| && Parks(t[i], p, op)
    ensures || Parks(t[j], p, op)
            || exists k :: i < k <= j && p < |t[k].procs| && t[k].procs[p] == Asleep(op, ChanOf(op))
  {
    hide Inv, Next, Parks, Run;
    if i < j {
      BlockedSleeps(t, i, j - 1, p, op);
      if Parks(t[j - 1], p, op) {
        RunInv(t, j - 1);
        RunStep(t, j - 1);
        ParksNext(t[j - 1], t[j], p, op);
      }
    }
  }

  /** When no process can take a step, every process is outside the pipe or asleep, the lock is
      free, and the sleepers wait for something only the other side can do. */
  lemma OnlyBlockedSleep(t: seq<State>, i: nat, p: nat)
    requires Run(t) && i < |t| && p < |t[i].procs| && forall q :: 0 <= q < |t[i].procs| ==> !CanStep(t[i], q)
    ensures t[i].owner == None
    ensures t[i].procs[p].Idle? || t[i].procs[p].Returned? || t[i].procs[p].Asleep?
    ensures t[i].procs[p].Asleep? ==> Blocked(t[i], t[i].procs[p].chan)
  {
    RunInv(t, i);
    var s := t[i];
    if s.owner.Some? {
      assert Holds(s.procs[s.owner.value]) && !CanStep(s, s.owner.value);
      assert s.procs[s.owner.value].Waking? && s.procs[s.procs[s.owner.value].i].Dozing?;
      assert CanStep(s, s.procs[s.owner.value].i);
    }
    assert !CanStep(s, p);
  }

  /** Steps the holder of the lock has still to take before it lets go. */
  function Left(s: State, pc: Pc): nat {
    match pc
    case Checking(Read(cap), _) => cap + |s.procs| + 4
    case Checking(Write(src, n, _), _) => (if n <= |src| then |src| - n else 0) + |s.procs| + 4
    case Checking(Close(_), _) => |s.procs| + 2
    case Copying(cap, got, _) => (if |got| <= cap then cap - |got| else 0) + |s.procs| + 3
    case Waking(_, i, after) => (if i <= |s.procs| then |s.procs| - i else 0) + if after.Sleep? then 2 else 1
    case Entering(_, _) => 1
    case _ => 0
  }

  predicate Nearer(s: State, s': State, p: nat) {
    && p < |s.procs| == |s'.procs| && Left(s', s'.procs[p]) < Left(s, s.procs[p])
    && (s'.owner == None <==> Left(s', s'.procs[p]) == 0)
  }

  lemma WakingNearer(s: State, p: nat)
    requires s.owner == Some(p) && CanStep(s, p) && s.procs[p].Waking?
    ensures Nearer(s, Step(s, p), p)
  {
    hide WriteStep, CopyStep;
  }

  lemma WritingNearer(s: State, p: nat)
    requires s.owner == Some(p) && CanStep(s, p) && s.procs[p].Checking? && s.procs[p].op.Write?
    ensures Nearer(s, Step(s, p), p)
  {
    hide CopyStep, WakeStep;
  }

  lemma CopyingNearer(s: State, p: nat)
    requires s.owner == Some(p) && CanStep(s, p) && s.procs[p].Copying?
    ensures Nearer(s, Step(s, p), p)
  {
    hide WriteStep, WakeStep;
  }

  lemma OthersNearer(s: State, p: nat)
    requires s.owner == Some(p) && CanStep(s, p)
    requires (s.procs[p].Checking? && !s.procs[p].op.Write?) || s.procs[p].Entering?
    ensures Nearer(s, Step(s, p), p)
  {
    hide WriteStep, CopyStep, WakeStep;
  }

  /** Nobody keeps the lock for ever: each step of its holder brings it nearer to letting go, and
      a holder that has to wait for a process lock waits for somebody who can take a step. */
  lemma HolderGoesOn(s: State, p: nat)
    requires Inv(s) && s.owner == Some(p)
    ensures p < |s.procs| && if CanStep(s, p) then Nearer(s, Step(s, p), p)
            else s.procs[p].Waking? && CanStep(s, s.procs[p].i) && s.procs[s.procs[p].i].Dozing?
  {
    hide Ring, NoLostWakeup, Knows, Ends, Calls, Step, Nearer;
    assert Holds(s.procs[p]);
    if CanStep(s, p) {
      if s.procs[p].Waking? { WakingNearer(s, p); }
      else if s.procs[p].Copying? { CopyingNearer(s, p); }
      else if s.procs[p].Checking? && s.procs[p].op.Write? { WritingNearer(s, p); }
      else { OthersNearer(s, p); }
    }
  }
}
