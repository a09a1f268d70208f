/** fork, exit and wait as a transition system over the process table. A step is
    what one process does between two lock operations: loops over the table lock
    one slot at a time, and everybody else may run in between. */
module ExitWait {
  import opened Prelude

  datatype ProcState = Unused | Runnable | Running | Zombie | Sleeping

  /** Where the kernel code of a process stands. `st`: wait was given a status
      pointer. Loop positions are table indices. */
  datatype Pc =
    | NoProc                                      // the slot runs no code
    | User                                        // outside fork, exit and wait
    | ForkScan(i: nat)                            // allocproc looks for an unused slot
    | ExitLock(code: int)                         // wants WAIT_LOCK
    | Reparent(code: int, i: nat, need: bool)     // holds WAIT_LOCK from here ...
    | WakeInit(code: int, i: nat)
    | WakeParent(code: int, i: nat)
    | Mark(code: int)
    | Marked                                      // ... to here; zombie, holds its own lock too
    | DeadHeld                                    // zombie, own lock not yet released by the scheduler
    | Dead
    | WaitLock(st: bool)                          // wants WAIT_LOCK
    | Scan(st: bool, i: nat, have: bool)          // holds WAIT_LOCK
    | Enter(st: bool)                             // in sleep: holds WAIT_LOCK and its own lock
    | Doze(st: bool)                              // WAIT_LOCK released, own lock held
    | Asleep(st: bool)                            // in sleep, after the switch to the scheduler

  datatype Slot = Slot(state: ProcState, pid: nat, parent: Option<nat>, xstate: int, chan: Option<nat>, pc: Pc)

  /** Who reaped whom, and the status it was told. */
  datatype Reap = Reap(reaper: nat, pid: nat, code: int)

  datatype State = State(slots: seq<Slot>, waitLock: Option<nat>,
                         stuck: bool,             // a wait returned without releasing WAIT_LOCK
                         init: nat, nextPid: nat,
                         exits: map<nat, int>,    // status each pid passed to exit
                         reaped: seq<Reap>)

  const FREE := Slot(Unused, 0, None, 0, None, NoProc)

  ghost predicate Boot(s: State) {
    && s.init < |s.slots| && s.waitLock == None && !s.stuck && s.nextPid == 2
    && s.exits == map[] && s.reaped == []
    && forall j :: 0 <= j < |s.slots| ==>
         s.slots[j] == if j == s.init then Slot(Runnable, 1, None, 0, None, User) else FREE
  }

  // ---- Steps ------------------------------------------------------------------

  function Put(s: State, p: nat, x: Slot): State
    requires p < |s.slots|
  {
    s.(slots := s.slots[p := x])
  }

  function Goto(s: State, p: nat, pc: Pc): State
    requires p < |s.slots|
  {
    Put(s, p, s.slots[p].(pc := pc))
  }

  /** The process holds its own lock across steps. */
  predicate HoldsSelf(pc: Pc) { pc.Marked? || pc.DeadHeld? || pc.Enter? || pc.Doze? }

  predicate UnlockedAt(s: State, i: nat) { i < |s.slots| ==> !HoldsSelf(s.slots[i].pc) }

  predicate CanStep(s: State, p: nat) {
    && p < |s.slots| && s.slots[p].state in {Running, Zombie}
    && match s.slots[p].pc
       case NoProc => false
       case User => false
       case Dead => false
       case Asleep(_) => false
       case ForkScan(i) => UnlockedAt(s, i)
       case ExitLock(_) => s.waitLock == None
       case Reparent(_, i, _) => UnlockedAt(s, i)
       case WakeInit(_, i) => UnlockedAt(s, i)
       case WakeParent(_, i) => UnlockedAt(s, i)
       case WaitLock(_) => s.waitLock == None
       case Scan(_, i, _) => UnlockedAt(s, i)
       case _ => true
  }

  /** `ok`: the memory a fork needs is there, or the status pointer of a wait is
      writable. */
  function Step(s: State, p: nat, ok: bool): State
    requires CanStep(s, p)
  {
    var pc := s.slots[p].pc;
    if pc.ForkScan? then ForkStep(s, p, pc.i, ok)
    else if pc.Reparent? then ReparentStep(s, p, pc.code, pc.i, pc.need)
    else if pc.WakeInit? || pc.WakeParent? then WakeStep(s, p)
    else if pc.Scan? then ScanStep(s, p, pc.st, pc.i, pc.have, ok)
    else LockStep(s, p)
  }

  /** allocproc at one slot. The lock of an unused slot is kept until the child is
      runnable or given up, so nobody sees it half made. */
  function ForkStep(s: State, p: nat, i: nat, ok: bool): State
    requires p < |s.slots|
  {
    if i >= |s.slots| then Goto(s, p, User)
    else if s.slots[i].state != Unused then Goto(s, p, ForkScan(i + 1))
    else
      var child := if ok then Slot(Runnable, s.nextPid, Some(p), 0, None, User) else FREE;
      Goto(Put(s, i, child), p, User).(nextPid := s.nextPid + 1)
  }

  /** reparent at one slot. */
  function ReparentStep(s: State, p: nat, code: int, i: nat, need: bool): State
    requires p < |s.slots|
  {
    if i >= |s.slots| then Goto(s, p, if need then WakeInit(code, 0) else WakeParent(code, 0))
    else if s.slots[i].parent == Some(p) then
      Goto(Put(s, i, s.slots[i].(parent := Some(s.init))), p, Reparent(code, i + 1, true))
    else Goto(s, p, Reparent(code, i + 1, need))
  }

  /** The two wakeups of exit, each at one slot. */
  function WakeStep(s: State, p: nat): State
    requires p < |s.slots| && (s.slots[p].pc.WakeInit? || s.slots[p].pc.WakeParent?)
  {
    match s.slots[p].pc
    case WakeInit(code, i) =>
      if i >= |s.slots| then Goto(s, p, WakeParent(code, 0))
      else Goto(WakeAt(s, i, Some(s.init)), p, WakeInit(code, i + 1))
    case WakeParent(code, i) =>
      if i >= |s.slots| then Goto(s, p, Mark(code))
      else Goto(WakeAt(s, i, s.slots[p].parent), p, WakeParent(code, i + 1))
  }

  /** Steps that touch no slot but the process's own. */
  function LockStep(s: State, p: nat): State
    requires CanStep(s, p)
  {
    match s.slots[p].pc
    case ExitLock(code) =>
      Goto(s, p, if p == s.init then WakeParent(code, 0) else Reparent(code, 0, false)).(waitLock := Some(p))
    case Mark(code) =>
      Put(s, p, s.slots[p].(state := Zombie, xstate := code, pc := Marked)).(
        exits := s.exits[s.slots[p].pid := code])
    case Marked => Goto(s, p, DeadHeld).(waitLock := None)
    case DeadHeld => Goto(s, p, Dead)
    case WaitLock(st) => Goto(s, p, Scan(st, 0, false)).(waitLock := Some(p))
    case Enter(st) => Goto(s, p, Doze(st)).(waitLock := None)
    case Doze(st) => Put(s, p, s.slots[p].(state := Sleeping, chan := Some(p), pc := Asleep(st)))
    case _ => s
  }

  /** wakeup, at one slot. */
  function WakeAt(s: State, i: nat, chan: Option<nat>): State
    requires i < |s.slots|
  {
    if s.slots[i].state == Sleeping && s.slots[i].chan == chan then Put(s, i, s.slots[i].(state := Runnable)) else s
  }

  function ScanStep(s: State, p: nat, st: bool, i: nat, have: bool, ok: bool): State
    requires p < |s.slots|
  {
    if i >= |s.slots| then
      if have then Goto(s, p, Enter(st))
      else Goto(s, p, User).(waitLock := None)
    else if s.slots[i].parent != Some(p) then Goto(s, p, Scan(st, i + 1, have))
    else if s.slots[i].state != Zombie then Goto(s, p, Scan(st, i + 1, true))
    else if st && !ok then Goto(s, p, User).(stuck := true)
    else
      var z := s.slots[i];
      Goto(Put(s, i, FREE), p, User).(
        waitLock := None, reaped := s.reaped + [Reap(s.slots[p].pid, z.pid, z.xstate)])
  }

  datatype Call = Fork | Exit(code: int) | Wait(st: bool)

  predicate CanCall(s: State, p: nat) {
    p < |s.slots| && s.slots[p].state == Running && s.slots[p].pc == User
  }

  function Enters(s: State, p: nat, call: Call): State
    requires CanCall(s, p)
  {
    match call
    case Fork => Goto(s, p, ForkScan(0))
    case Exit(code) => Goto(s, p, ExitLock(code))
    case Wait(st) => Goto(s, p, WaitLock(st))
  }

  /** The scheduler resumes a runnable process, which leaves sleep if it was in it. */
  predicate CanDispatch(s: State, p: nat) {
    p < |s.slots| && s.slots[p].state == Runnable
  }

  function Dispatch(s: State, p: nat): State
    requires CanDispatch(s, p)
  {
    var x := s.slots[p];
    Put(s, p, x.(state := Running, chan := None, pc := if x.pc.Asleep? then WaitLock(x.pc.st) else x.pc))
  }

  /** A process that holds no lock can be preempted. */
  predicate CanYield(s: State, p: nat) {
    && p < |s.slots| && s.slots[p].state == Running
    && (s.slots[p].pc in {User} || s.slots[p].pc.ForkScan? || s.slots[p].pc.ExitLock? || s.slots[p].pc.WaitLock?)
  }

  function Yield(s: State, p: nat): State
    requires CanYield(s, p)
  {
    Put(s, p, s.slots[p].(state := Runnable))
  }

  ghost predicate Next(s: State, s': State) {
    || (exists p, ok :: CanStep(s, p) && s' == Step(s, p, ok))
    || (exists p, call :: CanCall(s, p) && s' == Enters(s, p, call))
    || (exists p :: CanDispatch(s, p) && s' == Dispatch(s, p))
    || (exists p :: CanYield(s, p) && s' == Yield(s, p))
  }

  // ---- Invariant --------------------------------------------------------------

  predicate HoldsWait(pc: Pc) {
    pc.Reparent? || pc.WakeInit? || pc.WakeParent? || pc.Mark? || pc.Marked? || pc.Scan? || pc.Enter?
  }

  /** State and code position of one slot agree. */
  predicate SlotOk(j: nat, x: Slot) {
    match x.state
    case Unused => x == FREE
    case Zombie => x.pc.Marked? || x.pc.DeadHeld? || x.pc.Dead?
    case Sleeping => x.pc.Asleep? && x.chan == Some(j)
    case Runnable => x.pc.Asleep? || x.pc.User? || x.pc.ForkScan? || x.pc.ExitLock? || x.pc.WaitLock?
    case Running => !(x.pc.NoProc? || x.pc.Asleep? || x.pc.Marked? || x.pc.DeadHeld? || x.pc.Dead?)
  }

  ghost predicate SlotFine(s: State, j: nat)
    requires j < |s.slots|
  {
    && SlotOk(j, s.slots[j])
    && (HoldsWait(s.slots[j].pc) ==> s.waitLock == Some(j) && !s.stuck)
  }

  ghost predicate Locks(s: State) {
    && (forall j :: 0 <= j < |s.slots| ==> SlotFine(s, j))
    && (s.stuck ==> s.waitLock.Some?)
    && (s.waitLock.Some? && !s.stuck ==> s.waitLock.value < |s.slots| && HoldsWait(s.slots[s.waitLock.value].pc))
  }

  /** A process that will never again look after children. */
  predicate PastReparent(pc: Pc) {
    pc.WakeInit? || pc.WakeParent? || pc.Mark? || pc.Marked? || pc.DeadHeld? || pc.Dead?
  }

  predicate Alive(x: Slot) { x.state != Unused }

  /** Slot q may be the parent of slot j. */
  predicate ParentOk(s: State, j: nat, q: nat) {
    && q < |s.slots| && Alive(s.slots[q])
    && (q != s.init ==>
          && !PastReparent(s.slots[q].pc)
          && (s.slots[q].pc.Reparent? ==> j >= s.slots[q].pc.i))
  }

  ghost predicate ParentFine(s: State, j: nat)
    requires j < |s.slots|
  {
    s.slots[j].parent.Some? ==> ParentOk(s, j, s.slots[j].parent.value)
  }

  ghost predicate Family(s: State) {
    && s.init < |s.slots| && Alive(s.slots[s.init]) && s.slots[s.init].parent == None
    && !s.slots[s.init].pc.Reparent? && !s.slots[s.init].pc.WakeInit?
    && forall j :: 0 <= j < |s.slots| ==> ParentFine(s, j)
  }

  predicate Waiting(x: Slot) { x.pc.Doze? || x.state == Sleeping }

  predicate HasChild(s: State, p: nat) {
    exists c :: 0 <= c < |s.slots| && s.slots[c].parent == Some(p)
  }

  /** The holder of WAIT_LOCK is bound to wake p before it lets go. */
  predicate WillWake(s: State, p: nat) {
    && s.waitLock.Some? && !s.stuck && s.waitLock.value < |s.slots| && p == s.init
    && var pc := s.slots[s.waitLock.value].pc;
       (pc.Reparent? && pc.need) || (pc.WakeInit? && pc.i <= p)
  }

  ghost predicate ZombieNoticed(s: State, c: nat)
    requires c < |s.slots|
  {
    var x := s.slots[c];
    x.state == Zombie && x.parent.Some? && x.parent.value < |s.slots| ==>
      Waiting(s.slots[x.parent.value]) ==> WillWake(s, x.parent.value)
  }

  /** What the holder of WAIT_LOCK knows at each point. */
  ghost predicate HolderKnows(s: State, h: nat)
    requires h < |s.slots|
  {
    var x := s.slots[h];
    match x.pc
    case Scan(_, i, have) =>
      && (have ==> HasChild(s, h))
      && (forall c :: 0 <= c < i && c < |s.slots| && s.slots[c].parent == Some(h) ==>
            have && s.slots[c].state != Zombie)
    case Enter(_) =>
      && HasChild(s, h)
      && (forall c :: 0 <= c < |s.slots| && s.slots[c].parent == Some(h) ==> s.slots[c].state != Zombie)
    case WakeInit(_, i) => s.init < |s.slots| && s.init < i ==> !Waiting(s.slots[s.init])
    case WakeParent(_, i) =>
      x.parent.Some? && x.parent.value < |s.slots| && x.parent.value < i ==> !Waiting(s.slots[x.parent.value])
    case Mark(_) => x.parent.Some? && x.parent.value < |s.slots| ==> !Waiting(s.slots[x.parent.value])
    case Marked => x.parent.Some? && x.parent.value < |s.slots| ==> !Waiting(s.slots[x.parent.value])
    case _ => true
  }

  ghost predicate SleeperFine(s: State, p: nat)
    requires p < |s.slots|
  {
    Waiting(s.slots[p]) ==> HasChild(s, p)
  }

  ghost predicate Wakeups(s: State) {
    && (forall p :: 0 <= p < |s.slots| ==> SleeperFine(s, p))
    && (forall c :: 0 <= c < |s.slots| ==> ZombieNoticed(s, c))
    && (forall h :: 0 <= h < |s.slots| ==> HolderKnows(s, h))
  }

  /** Pid and exit status of the process in slot j. */
  ghost predicate PidFine(s: State, j: nat)
    requires j < |s.slots|
  {
    var x := s.slots[j];
    x.state != Unused ==>
      && x.pid < s.nextPid
      && (x.pid in s.exits <==> x.state == Zombie)
      && (x.state == Zombie ==> s.exits[x.pid] == x.xstate)
      && (forall k :: 0 <= k < |s.reaped| ==> s.reaped[k].pid != x.pid)
  }

  ghost predicate PidsDiffer(s: State, i: nat, j: nat)
    requires i < j < |s.slots|
  {
    s.slots[i].state != Unused && s.slots[j].state != Unused ==> s.slots[i].pid != s.slots[j].pid
  }

  ghost predicate Records(nextPid: nat, exits: map<nat, int>, reaped: seq<Reap>) {
    && (forall pid :: pid in exits ==> pid < nextPid)
    && (forall k :: 0 <= k < |reaped| ==> reaped[k].pid in exits && exits[reaped[k].pid] == reaped[k].code)
    && (forall i, k :: 0 <= i < k < |reaped| ==> reaped[i].pid != reaped[k].pid)
  }

  ghost predicate History(s: State) {
    && (forall j :: 0 <= j < |s.slots| ==> PidFine(s, j))
    && (forall i, j :: 0 <= i < j < |s.slots| ==> PidsDiffer(s, i, j))
    && Records(s.nextPid, s.exits, s.reaped)
  }

  // ---- Every step keeps the locks consistent --------------------------------------

  predicate OwnStep(pc: Pc) {
    pc.ExitLock? || pc.Mark? || pc.Marked? || pc.DeadHeld? || pc.WaitLock? || pc.Enter? || pc.Doze?
  }

  /** Facts about the slots a step looks at. */
  lemma Facts(s: State, p: nat)
    requires Locks(s) && CanStep(s, p)
    ensures p < |s.slots| && s.slots[p].state in {Running, Zombie}
    ensures s.slots[p].pc.ExitLock? || s.slots[p].pc.WaitLock? ==> s.waitLock == None
    ensures var pc := s.slots[p].pc;
            pc.ForkScan? || pc.Reparent? || pc.WakeInit? || pc.WakeParent? || pc.Scan? ==> UnlockedAt(s, pc.i)
    ensures SlotOk(p, s.slots[p]) && (HoldsWait(s.slots[p].pc) ==> s.waitLock == Some(p) && !s.stuck)
    ensures s.waitLock.Some? && !s.stuck ==>
              s.waitLock.value < |s.slots| && SlotOk(s.waitLock.value, s.slots[s.waitLock.value])
  {
    assert SlotFine(s, p);
    if s.waitLock.Some? && !s.stuck {
      assert SlotFine(s, s.waitLock.value);
    }
  }

  lemma FamilyAt(s: State, j: nat)
    requires Family(s) && j < |s.slots|
    ensures ParentFine(s, j)
    ensures s.init < |s.slots| && s.slots[s.init].parent == None && Alive(s.slots[s.init])
    ensures !s.slots[s.init].pc.Reparent? && !s.slots[s.init].pc.WakeInit?
  {
  }

  lemma ZombieAt(s: State, c: nat)
    requires Wakeups(s) && c < |s.slots|
    ensures ZombieNoticed(s, c)
  {
  }

  lemma HolderAt(s: State, h: nat)
    requires Wakeups(s) && h < |s.slots|
    ensures HolderKnows(s, h)
  {
  }

  lemma FactsAt(s: State, i: nat)
    requires Locks(s)
    ensures i < |s.slots| ==> SlotOk(i, s.slots[i]) && (HoldsWait(s.slots[i].pc) ==> s.waitLock == Some(i) && !s.stuck)
  {
    if i < |s.slots| {
      assert SlotFine(s, i);
    }
  }

  lemma LocksFork(s: State, p: nat, ok: bool)
    requires Locks(s) && CanStep(s, p) && s.slots[p].pc.ForkScan?
    ensures Locks(Step(s, p, ok))
  {
    hide ReparentStep, WakeStep, LockStep, ScanStep, CanStep;
    Facts(s, p);
    FactsAt(s, s.slots[p].pc.i);
    var s' := Step(s, p, ok);
    forall j | 0 <= j < |s'.slots| ensures SlotFine(s', j) {
      assert SlotFine(s, j);
    }
  }

  lemma LocksReparent(s: State, p: nat, ok: bool)
    requires Locks(s) && CanStep(s, p) && s.slots[p].pc.Reparent?
    ensures Locks(Step(s, p, ok))
  {
    hide ForkStep, WakeStep, LockStep, ScanStep, CanStep;
    Facts(s, p);
    FactsAt(s, s.slots[p].pc.i);
    var s' := Step(s, p, ok);
    forall j | 0 <= j < |s'.slots| ensures SlotFine(s', j) {
      assert SlotFine(s, j);
    }
  }

  lemma LocksWake(s: State, p: nat, ok: bool)
    requires Locks(s) && CanStep(s, p) && (s.slots[p].pc.WakeInit? || s.slots[p].pc.WakeParent?)
    ensures Locks(Step(s, p, ok))
  {
    hide ForkStep, ReparentStep, LockStep, ScanStep, CanStep;
    Facts(s, p);
    FactsAt(s, s.slots[p].pc.i);
    var s' := Step(s, p, ok);
    forall j | 0 <= j < |s'.slots| ensures SlotFine(s', j) {
      assert SlotFine(s, j);
    }
  }

  lemma LocksScan(s: State, p: nat, ok: bool)
    requires Locks(s) && CanStep(s, p) && s.slots[p].pc.Scan?
    ensures Locks(Step(s, p, ok))
  {
    hide ForkStep, LockStep, ReparentStep, WakeStep, CanStep;
    Facts(s, p);
    FactsAt(s, s.slots[p].pc.i);
    var s' := Step(s, p, ok);
    forall j | 0 <= j < |s'.slots| ensures SlotFine(s', j) {
      assert SlotFine(s, j);
    }
  }

  lemma LocksLock(s: State, p: nat, ok: bool)
    requires Locks(s) && CanStep(s, p) && OwnStep(s.slots[p].pc)
    ensures Locks(Step(s, p, ok))
  {
    hide ForkStep, ScanStep, ReparentStep, WakeStep, CanStep;
    Facts(s, p);
    var s' := Step(s, p, ok);
    forall j | 0 <= j < |s'.slots| ensures SlotFine(s', j) {
      assert SlotFine(s, j);
    }
  }

  lemma FamilyFork(s: State, p: nat, ok: bool)
    requires Locks(s) && Family(s) && CanStep(s, p) && s.slots[p].pc.ForkScan?
    ensures Family(Step(s, p, ok))
  {
    hide ReparentStep, WakeStep, LockStep, ScanStep, Locks, CanStep;
    Facts(s, p);
    FactsAt(s, s.slots[p].pc.i);
    var s' := Step(s, p, ok);
    assert ParentFine(s, p);
    forall j | 0 <= j < |s'.slots| ensures ParentFine(s', j) {
      assert ParentFine(s, j);
    }
  }

  lemma FamilyReparent(s: State, p: nat, ok: bool)
    requires Locks(s) && Family(s) && CanStep(s, p) && s.slots[p].pc.Reparent?
    ensures Family(Step(s, p, ok))
  {
    hide ForkStep, WakeStep, LockStep, ScanStep, Locks, CanStep;
    Facts(s, p);
    FactsAt(s, s.slots[p].pc.i);
    var s' := Step(s, p, ok);
    assert ParentFine(s, p);
    forall j | 0 <= j < |s'.slots| ensures ParentFine(s', j) {
      assert ParentFine(s, j);
    }
  }

  lemma ParentWake(s: State, p: nat, ok: bool, j: nat)
    requires Locks(s) && Family(s) && CanStep(s, p) && (s.slots[p].pc.WakeInit? || s.slots[p].pc.WakeParent?)
    requires j < |s.slots|
    ensures |Step(s, p, ok).slots| == |s.slots| && ParentFine(Step(s, p, ok), j)
  {
    hide ForkStep, ReparentStep, LockStep, ScanStep, Locks, CanStep, Family;
    Facts(s, p);
    FactsAt(s, s.slots[p].pc.i);
    FamilyAt(s, p);
    FamilyAt(s, j);
  }

  lemma FamilyWake(s: State, p: nat, ok: bool)
    requires Locks(s) && Family(s) && CanStep(s, p) && (s.slots[p].pc.WakeInit? || s.slots[p].pc.WakeParent?)
    ensures Family(Step(s, p, ok))
  {
    hide ForkStep, ReparentStep, LockStep, ScanStep, Locks, CanStep, ParentFine;
    Facts(s, p);
    FactsAt(s, s.slots[p].pc.i);
    var s' := Step(s, p, ok);
    forall j | 0 <= j < |s'.slots| ensures ParentFine(s', j) {
      ParentWake(s, p, ok, j);
    }
  }

  lemma ParentScan(s: State, p: nat, ok: bool, j: nat)
    requires Locks(s) && Family(s) && CanStep(s, p) && s.slots[p].pc.Scan? && j < |s.slots|
    ensures |Step(s, p, ok).slots| == |s.slots| && ParentFine(Step(s, p, ok), j)
  {
    hide ForkStep, LockStep, ReparentStep, WakeStep, Locks, CanStep, Family;
    Facts(s, p);
    FactsAt(s, s.slots[p].pc.i);
    FamilyAt(s, p);
    FamilyAt(s, j);
  }

  lemma FamilyScan(s: State, p: nat, ok: bool)
    requires Locks(s) && Family(s) && CanStep(s, p) && s.slots[p].pc.Scan?
    ensures Family(Step(s, p, ok))
  {
    hide ForkStep, LockStep, ReparentStep, WakeStep, Locks, CanStep, ParentFine;
    Facts(s, p);
    FactsAt(s, s.slots[p].pc.i);
    var s' := Step(s, p, ok);
    forall j | 0 <= j < |s'.slots| ensures ParentFine(s', j) {
      ParentScan(s, p, ok, j);
    }
  }

  lemma FamilyLock(s: State, p: nat, ok: bool)
    requires Locks(s) && Family(s) && CanStep(s, p) && OwnStep(s.slots[p].pc)
    ensures Family(Step(s, p, ok))
  {
    hide ForkStep, ScanStep, ReparentStep, WakeStep, Locks, CanStep;
    Facts(s, p);
    var s' := Step(s, p, ok);
    assert ParentFine(s, p);
    forall j | 0 <= j < |s'.slots| ensures ParentFine(s', j) {
      assert ParentFine(s, j);
    }
  }

  lemma ChildKept(s: State, s': State, p: nat)
    requires HasChild(s, p) && |s'.slots| == |s.slots|
    requires forall c :: 0 <= c < |s.slots| && s.slots[c].parent == Some(p) ==> s'.slots[c].parent == Some(p)
    ensures HasChild(s', p)
  {
    var c :| 0 <= c < |s.slots| && s.slots[c].parent == Some(p);
    assert s'.slots[c].parent == Some(p);
  }

  lemma SleepersFork(s: State, p: nat, ok: bool, q: nat)
    requires Locks(s) && Family(s) && Wakeups(s) && CanStep(s, p) && s.slots[p].pc.ForkScan? && q < |s.slots|
    ensures SleeperFine(Step(s, p, ok), q)
  {
    hide ReparentStep, WakeStep, LockStep, ScanStep, ZombieNoticed, CanStep;
    Facts(s, p);
    FactsAt(s, s.slots[p].pc.i);
    var s' := Step(s, p, ok);
    assert SleeperFine(s, q) && HolderKnows(s, p);
    if Waiting(s'.slots[q]) {
      ChildKept(s, s', q);
    }
  }

  lemma ZombiesFork(s: State, p: nat, ok: bool, c: nat)
    requires Locks(s) && Family(s) && Wakeups(s) && CanStep(s, p) && s.slots[p].pc.ForkScan? && c < |s.slots|
    ensures ZombieNoticed(Step(s, p, ok), c)
  {
    hide ReparentStep, WakeStep, LockStep, ScanStep, SleeperFine, Locks, Family, Wakeups, HolderKnows, HasChild,
      CanStep;
    Facts(s, p);
    if s.slots[c].parent.Some? { FactsAt(s, s.slots[c].parent.value); }
    FactsAt(s, s.init);
    FactsAt(s, s.slots[p].pc.i);
    FactsAt(s, c);
    FamilyAt(s, c);
    ZombieAt(s, c);
  }

  lemma HolderFrame(s: State, s': State, h: nat)
    requires h < |s.slots| == |s'.slots| && s'.init == s.init && s'.slots[h] == s.slots[h] && HolderKnows(s, h)
    requires forall c :: 0 <= c < |s.slots| ==> (s'.slots[c].parent == Some(h) <==> s.slots[c].parent == Some(h))
    requires forall c :: 0 <= c < |s.slots| && s'.slots[c].state == Zombie ==> s.slots[c].state == Zombie
    requires forall j :: 0 <= j < |s.slots| && Waiting(s'.slots[j]) ==> Waiting(s.slots[j])
    ensures HolderKnows(s', h)
  {
    if HasChild(s, h) {
      ChildKept(s, s', h);
    }
  }

  lemma HoldersFork(s: State, p: nat, ok: bool, h: nat)
    requires Locks(s) && Family(s) && Wakeups(s) && CanStep(s, p) && s.slots[p].pc.ForkScan? && h < |s.slots|
    ensures HolderKnows(Step(s, p, ok), h)
  {
    hide ReparentStep, WakeStep, LockStep, ScanStep, SleeperFine, ZombieNoticed, CanStep, Locks, Family, HasChild,
      Wakeups;
    Facts(s, p);
    var i, s' := s.slots[p].pc.i, Step(s, p, ok);
    FactsAt(s, i);
    if h != p && s'.slots[h] == s.slots[h] {
      HolderAt(s, h);
      assert HolderKnows(s', h) by {
        hide HolderKnows;
        HolderFrame(s, s', h);
      }
    }
  }

  lemma SleepersReparent(s: State, p: nat, ok: bool, q: nat)
    requires Locks(s) && Family(s) && Wakeups(s) && CanStep(s, p) && s.slots[p].pc.Reparent? && q < |s.slots|
    ensures SleeperFine(Step(s, p, ok), q)
  {
    hide ForkStep, WakeStep, LockStep, ScanStep, ZombieNoticed, CanStep;
    Facts(s, p);
    FactsAt(s, s.slots[p].pc.i);
    var s' := Step(s, p, ok);
    assert SleeperFine(s, q) && HolderKnows(s, p);
    if Waiting(s'.slots[q]) {
      ChildKept(s, s', q);
    }
  }

  lemma SleepersWake(s: State, p: nat, ok: bool, q: nat)
    requires Locks(s) && Family(s) && Wakeups(s) && CanStep(s, p)
    requires (s.slots[p].pc.WakeInit? || s.slots[p].pc.WakeParent?) && q < |s.slots|
    ensures SleeperFine(Step(s, p, ok), q)
  {
    hide ForkStep, ReparentStep, LockStep, ScanStep, ZombieNoticed, CanStep;
    Facts(s, p);
    FactsAt(s, s.slots[p].pc.i);
    var s' := Step(s, p, ok);
    assert SleeperFine(s, q) && HolderKnows(s, p);
    if Waiting(s'.slots[q]) {
      ChildKept(s, s', q);
    }
  }

  lemma ZombiesReparent(s: State, p: nat, ok: bool, c: nat)
    requires Locks(s) && Family(s) && Wakeups(s) && CanStep(s, p) && s.slots[p].pc.Reparent? && c < |s.slots|
    ensures ZombieNoticed(Step(s, p, ok), c)
  {
    hide ForkStep, WakeStep, LockStep, ScanStep, SleeperFine, Locks, Family, Wakeups, CanStep;
    Facts(s, p);
    if s.slots[c].parent.Some? { FactsAt(s, s.slots[c].parent.value); }
    FactsAt(s, s.init);
    FactsAt(s, s.slots[p].pc.i);
    FactsAt(s, c);
    FamilyAt(s, c);
    ZombieAt(s, c);
    HolderAt(s, p);
  }

  lemma ZombiesWake(s: State, p: nat, ok: bool, c: nat)
    requires Locks(s) && Family(s) && Wakeups(s) && CanStep(s, p)
    requires (s.slots[p].pc.WakeInit? || s.slots[p].pc.WakeParent?) && c < |s.slots|
    ensures ZombieNoticed(Step(s, p, ok), c)
  {
    hide ForkStep, ReparentStep, LockStep, ScanStep, SleeperFine, Locks, Family, Wakeups, CanStep;
    Facts(s, p);
    if s.slots[c].parent.Some? { FactsAt(s, s.slots[c].parent.value); }
    FactsAt(s, s.init);
    FactsAt(s, s.slots[p].pc.i);
    FactsAt(s, c);
    FamilyAt(s, c);
    ZombieAt(s, c);
    HolderAt(s, p);
  }

  lemma HoldersReparent(s: State, p: nat, ok: bool, h: nat)
    requires Locks(s) && Family(s) && Wakeups(s) && CanStep(s, p) && s.slots[p].pc.Reparent? && h < |s.slots|
    ensures HolderKnows(Step(s, p, ok), h)
  {
    hide ForkStep, WakeStep, LockStep, ScanStep, SleeperFine, ZombieNoticed, CanStep;
    Facts(s, p);
    FactsAt(s, s.slots[p].pc.i);
    var s' := Step(s, p, ok);
    assert SlotFine(s, h) && HolderKnows(s, h);
    if HasChild(s, h) && (s'.slots[h].pc.Scan? || s'.slots[h].pc.Enter?) {
      ChildKept(s, s', h);
    }
  }

  lemma HoldersWake(s: State, p: nat, ok: bool, h: nat)
    requires Locks(s) && Family(s) && Wakeups(s) && CanStep(s, p)
    requires (s.slots[p].pc.WakeInit? || s.slots[p].pc.WakeParent?) && h < |s.slots|
    ensures HolderKnows(Step(s, p, ok), h)
  {
    hide ForkStep, ReparentStep, LockStep, ScanStep, SleeperFine, ZombieNoticed, CanStep;
    Facts(s, p);
    FactsAt(s, s.slots[p].pc.i);
    var s' := Step(s, p, ok);
    assert SlotFine(s, h) && HolderKnows(s, h);
    if HasChild(s, h) && (s'.slots[h].pc.Scan? || s'.slots[h].pc.Enter?) {
      ChildKept(s, s', h);
    }
  }

  lemma SleepersScan(s: State, p: nat, ok: bool, q: nat)
    requires Locks(s) && Family(s) && Wakeups(s) && CanStep(s, p) && s.slots[p].pc.Scan? && q < |s.slots|
    ensures SleeperFine(Step(s, p, ok), q)
  {
    hide ForkStep, LockStep, ReparentStep, WakeStep, ZombieNoticed, CanStep;
    Facts(s, p);
    FactsAt(s, s.slots[p].pc.i);
    var s' := Step(s, p, ok);
    assert SleeperFine(s, q) && HolderKnows(s, p);
    if Waiting(s'.slots[q]) {
      ChildKept(s, s', q);
    }
  }

  /** The scan leaves nobody waiting who was not. */
  lemma ScanWaits(s: State, p: nat, ok: bool, q: nat)
    requires Locks(s) && CanStep(s, p) && s.slots[p].pc.Scan? && q < |s.slots|
    ensures |Step(s, p, ok).slots| == |s.slots| && (Waiting(Step(s, p, ok).slots[q]) ==> Waiting(s.slots[q]))
  {
    hide ForkStep, LockStep, ReparentStep, WakeStep, Locks, CanStep;
    Facts(s, p);
    FactsAt(s, s.slots[p].pc.i);
  }

  lemma ScanZombies(s: State, p: nat, ok: bool, c: nat)
    requires Locks(s) && CanStep(s, p) && s.slots[p].pc.Scan? && c < |s.slots|
    ensures var x, y := s.slots[c], Step(s, p, ok).slots[c];
            y.state == Zombie ==> x.state == Zombie && y.parent == x.parent
  {
    hide ForkStep, LockStep, ReparentStep, WakeStep, Locks, CanStep;
    Facts(s, p);
  }

  lemma ZombiesScan(s: State, p: nat, ok: bool, c: nat)
    requires Locks(s) && Family(s) && Wakeups(s) && CanStep(s, p) && s.slots[p].pc.Scan? && c < |s.slots|
    ensures |Step(s, p, ok).slots| == |s.slots| && ZombieNoticed(Step(s, p, ok), c)
  {
    hide Step, Locks, Family, Wakeups, CanStep;
    Facts(s, p);
    ZombieAt(s, c);
    ScanZombies(s, p, ok, c);
    ScanWaits(s, p, ok, c);
    var x := s.slots[c];
    if x.parent.Some? && x.parent.value < |s.slots| {
      ScanWaits(s, p, ok, x.parent.value);
    }
  }

  lemma HoldersScan(s: State, p: nat, ok: bool, h: nat)
    requires Locks(s) && Family(s) && Wakeups(s) && CanStep(s, p) && s.slots[p].pc.Scan? && h < |s.slots|
    ensures HolderKnows(Step(s, p, ok), h)
  {
    hide ForkStep, LockStep, ReparentStep, WakeStep, SleeperFine, ZombieNoticed, CanStep, Locks, Family, ParentOk;
    Facts(s, p);
    FactsAt(s, s.slots[p].pc.i);
    var s' := Step(s, p, ok);
    FactsAt(s, h);
    HolderAt(s, h);
    if HasChild(s, h) && (s'.slots[h].pc.Scan? || s'.slots[h].pc.Enter?) {
      ChildKept(s, s', h);
    }
  }

  lemma SleepersLock(s: State, p: nat, ok: bool, q: nat)
    requires Locks(s) && Family(s) && Wakeups(s) && CanStep(s, p) && OwnStep(s.slots[p].pc) && q < |s.slots|
    ensures SleeperFine(Step(s, p, ok), q)
  {
    hide ForkStep, ScanStep, ReparentStep, WakeStep, ZombieNoticed, CanStep;
    Facts(s, p);
    var s' := Step(s, p, ok);
    assert SleeperFine(s, q) && HolderKnows(s, p);
    if Waiting(s'.slots[q]) {
      ChildKept(s, s', q);
    }
  }

  lemma ZombiesLock(s: State, p: nat, ok: bool, c: nat)
    requires Locks(s) && Family(s) && Wakeups(s) && CanStep(s, p) && OwnStep(s.slots[p].pc) && c < |s.slots|
    ensures ZombieNoticed(Step(s, p, ok), c)
  {
    hide ForkStep, ScanStep, ReparentStep, WakeStep, SleeperFine, Locks, Family, Wakeups, CanStep;
    Facts(s, p);
    if s.slots[c].parent.Some? { FactsAt(s, s.slots[c].parent.value); }
    FactsAt(s, s.init);
    FactsAt(s, c);
    FamilyAt(s, c);
    ZombieAt(s, c);
    HolderAt(s, p);
  }

  lemma HoldersLock(s: State, p: nat, ok: bool, h: nat)
    requires Locks(s) && Family(s) && Wakeups(s) && CanStep(s, p) && OwnStep(s.slots[p].pc) && h < |s.slots|
    ensures HolderKnows(Step(s, p, ok), h)
  {
    hide ForkStep, ScanStep, ReparentStep, WakeStep, SleeperFine, ZombieNoticed, CanStep;
    Facts(s, p);
    var s' := Step(s, p, ok);
    assert SlotFine(s, h) && HolderKnows(s, h);
    if HasChild(s, h) && (s'.slots[h].pc.Scan? || s'.slots[h].pc.Enter?) {
      ChildKept(s, s', h);
    }
  }

  lemma WakeupsStep(s: State, p: nat, ok: bool)
    requires Locks(s) && Family(s) && Wakeups(s) && CanStep(s, p)
    ensures Wakeups(Step(s, p, ok))
  {
    hide Locks, Family, SleeperFine, ZombieNoticed, HolderKnows, Step;
    var s' := Step(s, p, ok);
    var pc := s.slots[p].pc;
    SameTable(s, p, ok);
    forall j | 0 <= j < |s'.slots|
      ensures SleeperFine(s', j) && ZombieNoticed(s', j) && HolderKnows(s', j)
    {
      if pc.ForkScan? {
        SleepersFork(s, p, ok, j); ZombiesFork(s, p, ok, j); HoldersFork(s, p, ok, j);
      } else if pc.Reparent? {
        SleepersReparent(s, p, ok, j); ZombiesReparent(s, p, ok, j); HoldersReparent(s, p, ok, j);
      } else if pc.WakeInit? || pc.WakeParent? {
        SleepersWake(s, p, ok, j); ZombiesWake(s, p, ok, j); HoldersWake(s, p, ok, j);
      } else if pc.Scan? {
        SleepersScan(s, p, ok, j); ZombiesScan(s, p, ok, j); HoldersScan(s, p, ok, j);
      } else {
        SleepersLock(s, p, ok, j); ZombiesLock(s, p, ok, j); HoldersLock(s, p, ok, j);
      }
    }
  }

  lemma SameTable(s: State, p: nat, ok: bool)
    requires CanStep(s, p)
    ensures |Step(s, p, ok).slots| == |s.slots|
  {
  }

  // ---- Pids and exit statuses ------------------------------------------------------

  /** What History sees of a slot. */
  predicate SamePid(x: Slot, y: Slot) {
    x.pid == y.pid && x.xstate == y.xstate && (x.state == Unused <==> y.state == Unused)
    && (x.state == Zombie <==> y.state == Zombie)
  }

  lemma HistorySame(s: State, s': State)
    requires History(s) && |s'.slots| == |s.slots|
    requires forall j :: 0 <= j < |s.slots| ==> SamePid(s.slots[j], s'.slots[j])
    requires s.nextPid == s'.nextPid && s.exits == s'.exits && s.reaped == s'.reaped
    ensures History(s')
  {
    forall j | 0 <= j < |s'.slots| ensures PidFine(s', j) {
      assert PidFine(s, j);
    }
    forall i, j | 0 <= i < j < |s'.slots| ensures PidsDiffer(s', i, j) {
      assert PidsDiffer(s, i, j);
    }
  }

  /** A new process, or none after all, in an unused slot; either way a pid is spent. */
  lemma HistoryFork(s: State, p: nat, ok: bool)
    requires Locks(s) && History(s) && CanStep(s, p) && s.slots[p].pc.ForkScan?
    ensures History(Step(s, p, ok))
  {
    hide ReparentStep, WakeStep, LockStep, ScanStep, Locks, CanStep;
    Facts(s, p);
    FactsAt(s, s.slots[p].pc.i);
    var s' := Step(s, p, ok);
    forall j | 0 <= j < |s'.slots| ensures PidFine(s', j) {
      assert PidFine(s, j);
    }
    forall i, j | 0 <= i < j < |s'.slots| ensures PidsDiffer(s', i, j) {
      assert PidsDiffer(s, i, j) && PidFine(s, i) && PidFine(s, j);
    }
  }

  lemma HistoryMark(s: State, p: nat, ok: bool)
    requires Locks(s) && History(s) && CanStep(s, p) && s.slots[p].pc.Mark?
    ensures History(Step(s, p, ok))
  {
    hide ReparentStep, WakeStep, ForkStep, ScanStep, Locks, CanStep;
    Facts(s, p);
    var s' := Step(s, p, ok);
    assert PidFine(s, p);
    forall j | 0 <= j < |s'.slots| ensures PidFine(s', j) {
      assert PidFine(s, j);
      assert (j < p ==> PidsDiffer(s, j, p)) && (p < j ==> PidsDiffer(s, p, j));
    }
    forall i, j | 0 <= i < j < |s'.slots| ensures PidsDiffer(s', i, j) {
      assert PidsDiffer(s, i, j);
    }
  }

  lemma HistoryScan(s: State, p: nat, ok: bool)
    requires Locks(s) && History(s) && CanStep(s, p) && s.slots[p].pc.Scan?
    ensures History(Step(s, p, ok))
  {
    hide ReparentStep, WakeStep, ForkStep, LockStep, Locks, CanStep;
    Facts(s, p);
    var s', i := Step(s, p, ok), s.slots[p].pc.i;
    if s'.reaped == s.reaped {
      HistorySame(s, s');
    } else {
      assert PidFine(s, i);
      forall j | 0 <= j < |s'.slots| ensures PidFine(s', j) {
        assert PidFine(s, j);
        assert (j < i ==> PidsDiffer(s, j, i)) && (i < j ==> PidsDiffer(s, i, j));
      }
      forall k, j | 0 <= k < j < |s'.slots| ensures PidsDiffer(s', k, j) {
        assert PidsDiffer(s, k, j);
      }
    }
  }

  lemma HistoryStep(s: State, p: nat, ok: bool)
    requires Locks(s) && History(s) && CanStep(s, p)
    ensures History(Step(s, p, ok))
  {
    hide Locks, History;
    Facts(s, p);
    var pc := s.slots[p].pc;
    if pc.ForkScan? {
      HistoryFork(s, p, ok);
    } else if pc.Mark? {
      HistoryMark(s, p, ok);
    } else if pc.Scan? {
      HistoryScan(s, p, ok);
    } else {
      HistorySame(s, Step(s, p, ok));
    }
  }

  // ---- Calls and scheduling ----------------------------------------------------------

  /** Positions where a process holds no lock and owes nothing. */
  predicate Simple(x: Slot) {
    && (x.state == Running || x.state == Runnable)
    && (x.pc.User? || x.pc.ForkScan? || x.pc.ExitLock? || x.pc.WaitLock? || (x.pc.Asleep? && x.state == Runnable))
  }

  ghost predicate Moves(s: State, s': State, p: nat) {
    && p < |s.slots| == |s'.slots|
    && s' == Put(s, p, s'.slots[p]) && Simple(s.slots[p]) && Simple(s'.slots[p])
    && s'.slots[p].parent == s.slots[p].parent && s'.slots[p].pid == s.slots[p].pid
    && s'.slots[p].xstate == s.slots[p].xstate
  }

  lemma LocksMove(s: State, s': State, p: nat)
    requires Locks(s) && Moves(s, s', p)
    ensures Locks(s')
  {
    forall j | 0 <= j < |s'.slots| ensures SlotFine(s', j) {
      assert SlotFine(s, j);
    }
  }

  lemma FamilyMove(s: State, s': State, p: nat)
    requires Family(s) && Moves(s, s', p)
    ensures Family(s')
  {
    forall j | 0 <= j < |s'.slots| ensures ParentFine(s', j) {
      assert ParentFine(s, j);
    }
  }

  lemma WakeupsMove(s: State, s': State, p: nat)
    requires Locks(s) && Wakeups(s) && Moves(s, s', p)
    ensures Wakeups(s')
  {
    assert forall j :: 0 <= j < |s.slots| ==> s'.slots[j].parent == s.slots[j].parent;
    forall j | 0 <= j < |s'.slots|
      ensures SleeperFine(s', j)
    {
      assert SleeperFine(s, j);
      if Waiting(s'.slots[j]) {
        ChildKept(s, s', j);
      }
    }
    forall j | 0 <= j < |s'.slots|
      ensures ZombieNoticed(s', j)
    {
      assert ZombieNoticed(s, j);
    }
    forall j | 0 <= j < |s'.slots|
      ensures HolderKnows(s', j)
    {
      assert HolderKnows(s, j);
      if HasChild(s, j) {
        ChildKept(s, s', j);
      }
    }
  }

  ghost predicate Inv(s: State) {
    Locks(s) && Family(s) && Wakeups(s) && History(s)
  }

  lemma MoveKeeps(s: State, s': State, p: nat)
    requires Inv(s) && Moves(s, s', p)
    ensures Inv(s')
  {
    hide Locks, Family, Wakeups, History;
    LocksMove(s, s', p);
    FamilyMove(s, s', p);
    WakeupsMove(s, s', p);
    HistorySame(s, s');
  }

  lemma StepKeeps(s: State, p: nat, ok: bool)
    requires Inv(s) && CanStep(s, p)
    ensures Inv(Step(s, p, ok))
  {
    hide Locks, Family, Wakeups, History, Step;
    var pc := s.slots[p].pc;
    WakeupsStep(s, p, ok);
    HistoryStep(s, p, ok);
    if pc.ForkScan? {
      LocksFork(s, p, ok); FamilyFork(s, p, ok);
    } else if pc.Reparent? {
      LocksReparent(s, p, ok); FamilyReparent(s, p, ok);
    } else if pc.WakeInit? || pc.WakeParent? {
      LocksWake(s, p, ok); FamilyWake(s, p, ok);
    } else if pc.Scan? {
      LocksScan(s, p, ok); FamilyScan(s, p, ok);
    } else {
      LocksLock(s, p, ok); FamilyLock(s, p, ok);
    }
  }

  lemma NextKeeps(s: State, s': State)
    requires Inv(s) && Next(s, s')
    ensures Inv(s')
  {
    hide Family, Wakeups, History, Step, CanStep;
    if p: nat, ok :| CanStep(s, p) && s' == Step(s, p, ok) {
      StepKeeps(s, p, ok);
    } else if p: nat, call :| CanCall(s, p) && s' == Enters(s, p, call) {
      MoveKeeps(s, s', p);
    } else if p: nat :| CanDispatch(s, p) && s' == Dispatch(s, p) {
      assert SlotFine(s, p);
      MoveKeeps(s, s', p);
    } else {
      var p: nat :| CanYield(s, p) && s' == Yield(s, p);
      MoveKeeps(s, s', p);
    }
  }

  lemma BootInv(s: State)
    requires Boot(s)
    ensures Inv(s)
  {
  }

  ghost predicate StepAt(t: seq<State>, i: nat)
    requires i + 1 < |t|
  {
    Next(t[i], t[i + 1])
  }

  ghost predicate Run(t: seq<State>) {
    |t| > 0 && Boot(t[0]) && forall i :: 0 <= i < |t| - 1 ==> StepAt(t, i)
  }

  lemma {:induction false} RunInv(t: seq<State>, i: nat)
    requires Run(t) && i < |t|
    ensures Inv(t[i])
  {
    hide Inv, Next, Boot;
    if i == 0 {
      BootInv(t[0]);
    } else {
      RunInv(t, i - 1);
      assert StepAt(t, i - 1);
      NextKeeps(t[i - 1], t[i]);
    }
  }

  // ---- What every run guarantees -------------------------------------------------------

  /** Whenever WAIT_LOCK is free, a process asleep in wait has a child and none of
      its children is a zombie. */
  lemma NoLostWakeup(t: seq<State>, i: nat, p: nat)
    requires Run(t) && i < |t| && t[i].waitLock == None && p < |t[i].slots| && t[i].slots[p].state == Sleeping
    ensures HasChild(t[i], p)
    ensures forall c :: 0 <= c < |t[i].slots| && t[i].slots[c].parent == Some(p) ==> t[i].slots[c].state != Zombie
  {
    RunInv(t, i);
    assert SleeperFine(t[i], p);
    forall c | 0 <= c < |t[i].slots| && t[i].slots[c].parent == Some(p)
      ensures t[i].slots[c].state != Zombie
    {
      assert ZombieNoticed(t[i], c);
    }
  }

  /** A parent pointer never names a freed slot; it names a process that can still
      collect its children, or init. */
  lemma ParentsLive(t: seq<State>, i: nat, j: nat)
    requires Run(t) && i < |t| && j < |t[i].slots| && t[i].slots[j].parent.Some?
    ensures var q := t[i].slots[j].parent.value;
            q < |t[i].slots| && t[i].slots[q].state != Unused && (t[i].slots[q].state == Zombie ==> q == t[i].init)
  {
    RunInv(t, i);
    assert ParentFine(t[i], j);
    assert SlotFine(t[i], t[i].slots[j].parent.value);
  }

  /** No pid is reaped twice, each with the status it passed to exit, and every
      zombie still holds that status. */
  lemma ReapedOnce(t: seq<State>, i: nat)
    requires Run(t) && i < |t|
    ensures forall k, l :: 0 <= k < l < |t[i].reaped| ==> t[i].reaped[k].pid != t[i].reaped[l].pid
    ensures forall k :: 0 <= k < |t[i].reaped| ==>
              t[i].reaped[k].pid in t[i].exits && t[i].exits[t[i].reaped[k].pid] == t[i].reaped[k].code
    ensures forall j :: 0 <= j < |t[i].slots| && t[i].slots[j].state == Zombie ==>
              t[i].slots[j].pid in t[i].exits && t[i].exits[t[i].slots[j].pid] == t[i].slots[j].xstate
  {
    RunInv(t, i);
    forall j | 0 <= j < |t[i].slots| && t[i].slots[j].state == Zombie
      ensures t[i].slots[j].pid in t[i].exits && t[i].exits[t[i].slots[j].pid] == t[i].slots[j].xstate
    {
      assert PidFine(t[i], j);
    }
  }

  /** In every run, only the current parent reaps, and only a zombie: the slot is freed and
      the record names both and the status. */
  lemma ReapedByParent(t: seq<State>, i: nat) returns (p: nat, c: nat)
    requires Run(t) && i + 1 < |t| && t[i + 1].reaped != t[i].reaped
    ensures p < |t[i].slots| && c < |t[i].slots| && p != c
    ensures t[i].slots[c].parent == Some(p) && t[i].slots[c].state == Zombie && t[i].slots[p].state == Running
    ensures |t[i + 1].slots| == |t[i].slots| && t[i + 1].slots[c] == FREE
    ensures t[i + 1].reaped == t[i].reaped + [Reap(t[i].slots[p].pid, t[i].slots[c].pid, t[i].slots[c].xstate)]
  {
    hide Family, Wakeups, History, CanStep, Boot;
    var s, s' := t[i], t[i + 1];
    RunInv(t, i);
    assert StepAt(t, i);
    var q: nat, ok :| CanStep(s, q) && s' == Step(s, q, ok);
    Facts(s, q);
    p, c := q, s.slots[q].pc.i;
  }

  /** A wait gives WAIT_LOCK back when it returns to its caller, unless it found a
      zombie child and could not write the status: exactly then it keeps the lock. */
  lemma WaitReleases(s: State, p: nat, ok: bool)
    requires Inv(s) && CanStep(s, p) && s.slots[p].pc.Scan? && Step(s, p, ok).slots[p].pc.User?
    ensures var Scan(st, i, _) := s.slots[p].pc;
            Step(s, p, ok).waitLock == Some(p) <==>
              st && !ok && i < |s.slots| && s.slots[i].parent == Some(p) && s.slots[i].state == Zombie
  {
    assert SlotFine(s, p);
  }

  // ---- Runs that lose WAIT_LOCK ---------------------------------------------------------

  /** A wait that found a zombie child could not write its status. */
  ghost predicate CopyFails(s: State, s': State) {
    exists p: nat :: CanStep(s, p) && AtZombie(s, p) && s' == Step(s, p, false)
  }

  ghost predicate AtZombie(s: State, p: nat)
    requires p < |s.slots|
  {
    && s.slots[p].pc.Scan? && s.slots[p].pc.st && s.slots[p].pc.i < |s.slots|
    && s.slots[s.slots[p].pc.i].parent == Some(p) && s.slots[s.slots[p].pc.i].state == Zombie
  }

  ghost predicate CopyFailedAt(t: seq<State>, k: nat)
    requires k + 1 < |t|
  {
    CopyFails(t[k], t[k + 1])
  }

  /** WAIT_LOCK is held by a process that is not in the code that releases it. */
  ghost predicate LockLost(s: State) {
    s.waitLock.Some? && (s.waitLock.value < |s.slots| ==> !HoldsWait(s.slots[s.waitLock.value].pc))
  }

  lemma StuckIsLost(s: State)
    requires Inv(s)
    ensures LockLost(s) <==> s.stuck
  {
    hide Family, Wakeups, History;
    if s.waitLock.Some? && s.waitLock.value < |s.slots| {
      assert SlotFine(s, s.waitLock.value);
    }
  }

  /** A step loses the lock only by a failing copy, and once lost it stays with the same process
      while nobody exits or is reaped. */
  lemma StuckStep(s: State, s': State)
    requires Inv(s) && Next(s, s')
    ensures s'.stuck <==> s.stuck || CopyFails(s, s')
    ensures s.stuck ==> s'.waitLock == s.waitLock && s'.exits == s.exits && s'.reaped == s.reaped
  {
    hide Family, Wakeups, History;
    if p: nat, ok :| CanStep(s, p) && s' == Step(s, p, ok) {
      Facts(s, p);
      if s'.stuck && !s.stuck {
        assert AtZombie(s, p) && !ok;
      }
    }
    if p: nat :| CanStep(s, p) && AtZombie(s, p) && s' == Step(s, p, false) {
      Facts(s, p);
    }
  }

  /** In every run, WAIT_LOCK is lost exactly if some wait met a status pointer it could not
      write. */
  lemma {:induction false} LostExactly(t: seq<State>, i: nat)
    requires Run(t) && i < |t|
    ensures LockLost(t[i]) <==> exists k :: 0 <= k < i && CopyFailedAt(t, k)
  {
    hide Inv, Next, Boot, LockLost, CopyFails;
    RunInv(t, i);
    StuckIsLost(t[i]);
    if i == 0 {
      BootFree(t[0]);
    } else {
      RunInv(t, i - 1);
      StuckIsLost(t[i - 1]);
      assert StepAt(t, i - 1);
      StuckStep(t[i - 1], t[i]);
      LostExactly(t, i - 1);
      assert CopyFailedAt(t, i - 1) <==> CopyFails(t[i - 1], t[i]);
    }
  }

  lemma BootFree(s: State)
    requires Boot(s)
    ensures !s.stuck
  {
  }

  /** Once the lock is lost, no process exits or is reaped ever again. */
  lemma {:induction false} LostForever(t: seq<State>, i: nat, j: nat)
    requires Run(t) && i <= j < |t| && LockLost(t[i])
    ensures LockLost(t[j]) && t[j].waitLock == t[i].waitLock && t[j].exits == t[i].exits && t[j].reaped == t[i].reaped
    decreases j
  {
    hide Inv, Next, Boot, LockLost, CopyFails;
    if i < j {
      LostForever(t, i, j - 1);
      RunInv(t, j - 1);
      RunInv(t, j);
      assert StepAt(t, j - 1);
      StuckIsLost(t[j - 1]);
      StuckIsLost(t[j]);
      StuckStep(t[j - 1], t[j]);
    }
  }

  /** One step after another leads from s to s'. */
  ghost predicate Leads(s: State, s': State) { exists t :: Path(t, s, s') }

  ghost predicate Path(t: seq<State>, s: State, s': State) {
    |t| > 0 && t[0] == s && t[|t| - 1] == s' && forall i :: 0 <= i < |t| - 1 ==> StepAt(t, i)
  }

  lemma LeadsStep(s: State, s1: State, s2: State)
    requires Leads(s, s1) && Next(s1, s2)
    ensures Leads(s, s2)
  {
    hide Next;
    var t :| Path(t, s, s1);
    var t' := t + [s2];
    forall i | 0 <= i < |t'| - 1 ensures StepAt(t', i) {
      if i < |t| - 1 { assert StepAt(t, i); }
    }
    assert Path(t', s, s2);
  }

  /** Process p runs on to the next lock operation. */
  lemma Goes(s: State, s1: State, p: nat, ok: bool)
    requires Leads(s, s1) && CanStep(s1, p)
    ensures Leads(s, Step(s1, p, ok))
  {
    hide Step, CanStep, Leads;
    assert Next(s1, Step(s1, p, ok));
    LeadsStep(s, s1, Step(s1, p, ok));
  }

  lemma Calls(s: State, s1: State, p: nat, call: Call)
    requires Leads(s, s1) && CanCall(s1, p)
    ensures Leads(s, Enters(s1, p, call))
  {
    hide Leads, Enters;
    assert Next(s1, Enters(s1, p, call));
    LeadsStep(s, s1, Enters(s1, p, call));
  }

  lemma Runs(s: State, s1: State, p: nat)
    requires Leads(s, s1) && CanDispatch(s1, p)
    ensures Leads(s, Dispatch(s1, p))
  {
    hide Leads, Dispatch;
    assert Next(s1, Dispatch(s1, p));
    LeadsStep(s, s1, Dispatch(s1, p));
  }

  /** Init in slot 0 and its only child in slot 1 of a table of n slots. */
  function Family2(n: nat, a: Slot, b: Slot, lock: Option<nat>, exits: map<nat, int>): State
    requires n >= 2
  {
    State([a, b] + seq(n - 2, _ => FREE), lock, false, 0, 3, exits, [])
  }

  function InitAt(pc: Pc): Slot { Slot(Running, 1, None, 0, None, pc) }

  function ChildAt(state: ProcState, code: int, pc: Pc): Slot { Slot(state, 2, Some(0), code, None, pc) }

  /** The child looks at every slot for children of its own and finds none. */
  lemma {:induction false} ReparentAll(s: State, n: nat, code: int, i: nat)
    requires n >= 2 && i <= n
    requires Leads(s, Family2(n, InitAt(User), ChildAt(Running, 0, Reparent(code, i, false)), Some(1), map[]))
    ensures Leads(s, Family2(n, InitAt(User), ChildAt(Running, 0, WakeParent(code, 0)), Some(1), map[]))
    decreases n - i
  {
    hide Leads;
    var s1 := Family2(n, InitAt(User), ChildAt(Running, 0, Reparent(code, i, false)), Some(1), map[]);
    Goes(s, s1, 1, true);
    if i < n {
      assert Step(s1, 1, true) == Family2(n, InitAt(User), ChildAt(Running, 0, Reparent(code, i + 1, false)), Some(1),
        map[]);
      ReparentAll(s, n, code, i + 1);
    } else {
      assert Step(s1, 1, true) == Family2(n, InitAt(User), ChildAt(Running, 0, WakeParent(code, 0)), Some(1), map[]);
    }
  }

  /** It looks for a parent asleep and finds none. */
  lemma {:induction false} WakeAll(s: State, n: nat, code: int, i: nat)
    requires n >= 2 && i <= n
    requires Leads(s, Family2(n, InitAt(User), ChildAt(Running, 0, WakeParent(code, i)), Some(1), map[]))
    ensures Leads(s, Family2(n, InitAt(User), ChildAt(Running, 0, Mark(code)), Some(1), map[]))
    decreases n - i
  {
    hide Leads;
    var s1 := Family2(n, InitAt(User), ChildAt(Running, 0, WakeParent(code, i)), Some(1), map[]);
    Goes(s, s1, 1, true);
    if i < n {
      assert Step(s1, 1, true) == Family2(n, InitAt(User), ChildAt(Running, 0, WakeParent(code, i + 1)), Some(1),
        map[]);
      WakeAll(s, n, code, i + 1);
    } else {
      assert Step(s1, 1, true) == Family2(n, InitAt(User), ChildAt(Running, 0, Mark(code)), Some(1), map[]);
    }
  }

  function BootState(n: nat): State
    requires n >= 2
  {
    State([Slot(Runnable, 1, None, 0, None, User)] + seq(n - 1, _ => FREE), None, false, 0, 2, map[], [])
  }

  /** Init forks, and the child gets to exit. */
  lemma ChildExits(n: nat, code: int)
    requires n >= 2
    ensures Leads(BootState(n), Family2(n, InitAt(User), ChildAt(Running, 0, Reparent(code, 0, false)), Some(1), map[]))
  {
    hide Leads;
    var s := BootState(n);
    Starts(s);
    Runs(s, s, 0);
    var s1 := Dispatch(s, 0);
    Calls(s, s1, 0, Fork);
    var s2 := Enters(s1, 0, Fork);
    Goes(s, s2, 0, true);
    var s3 := Step(s2, 0, true);
    Goes(s, s3, 0, true);
    var s4 := Step(s3, 0, true);
    assert s4 == Family2(n, InitAt(User), ChildAt(Runnable, 0, User), None, map[]);
    Runs(s, s4, 1);
    var s5 := Dispatch(s4, 1);
    assert s5 == Family2(n, InitAt(User), ChildAt(Running, 0, User), None, map[]);
    Calls(s, s5, 1, Exit(code));
    var s6 := Enters(s5, 1, Exit(code));
    assert s6 == Family2(n, InitAt(User), ChildAt(Running, 0, ExitLock(code)), None, map[]);
    Goes(s, s6, 1, true);
    assert Step(s6, 1, true) == Family2(n, InitAt(User), ChildAt(Running, 0, Reparent(code, 0, false)), Some(1), map[]);
  }

  lemma Starts(s: State)
    ensures Leads(s, s)
  {
    assert Path([s], s, s);
  }

  /** In a table of any size: init forks, the child exits, and init waits for it with a status
      pointer it may not write. Init is back in user code and holds WAIT_LOCK. */
  lemma LosingRun(n: nat, code: int) returns (t: seq<State>)
    requires n >= 2
    ensures Run(t) && |t[0].slots| == n
    ensures var s := t[|t| - 1];
      |s.slots| == n && s.slots[0].state == Running && s.slots[0].pc == User && s.waitLock == Some(0)
  {
    hide Leads;
    var s, dead := BootState(n), map[2 := code];
    ChildExits(n, code);
    ReparentAll(s, n, code, 0);
    WakeAll(s, n, code, 0);
    var s1 := Family2(n, InitAt(User), ChildAt(Running, 0, Mark(code)), Some(1), map[]);
    Goes(s, s1, 1, true);
    var s2 := Family2(n, InitAt(User), ChildAt(Zombie, code, Marked), Some(1), dead);
    assert Step(s1, 1, true) == s2;
    Goes(s, s2, 1, true);
    var s3 := Family2(n, InitAt(User), ChildAt(Zombie, code, DeadHeld), None, dead);
    assert Step(s2, 1, true) == s3;
    Goes(s, s3, 1, true);
    var s4 := Family2(n, InitAt(User), ChildAt(Zombie, code, Dead), None, dead);
    assert Step(s3, 1, true) == s4;
    t := WaitFails(n, code);
  }

  lemma WaitFails(n: nat, code: int) returns (t: seq<State>)
    requires n >= 2 && Leads(BootState(n), Family2(n, InitAt(User), ChildAt(Zombie, code, Dead), None, map[2 := code]))
    ensures Run(t) && |t[0].slots| == n
    ensures var s := t[|t| - 1];
      |s.slots| == n && s.slots[0].state == Running && s.slots[0].pc == User && s.waitLock == Some(0)
  {
    hide Leads;
    var s, dead, child := BootState(n), map[2 := code], ChildAt(Zombie, code, Dead);
    var s1 := Family2(n, InitAt(User), child, None, dead);
    Calls(s, s1, 0, Wait(true));
    var s2 := Family2(n, InitAt(WaitLock(true)), child, None, dead);
    assert Enters(s1, 0, Wait(true)) == s2;
    Goes(s, s2, 0, true);
    var s3 := Family2(n, InitAt(Scan(true, 0, false)), child, Some(0), dead);
    assert Step(s2, 0, true) == s3;
    Goes(s, s3, 0, true);
    var s4 := Family2(n, InitAt(Scan(true, 1, false)), child, Some(0), dead);
    assert Step(s3, 0, true) == s4;
    Goes(s, s4, 0, false);
    t := AsRun(s, Step(s4, 0, false));
  }

  lemma AsRun(s: State, s': State) returns (t: seq<State>)
    requires Boot(s) && Leads(s, s')
    ensures Run(t) && t[0] == s && t[|t| - 1] == s'
  {
    hide Boot, Next;
    t :| Path(t, s, s');
  }
}
