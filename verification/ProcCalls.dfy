/** What one call of fork, exit or wait does, followed through every run in which other processes
    make calls of their own. */
module ProcCalls {
  import opened Prelude
  import opened ExitWait

  // ---- What a step does to one slot ----------------------------------------------------

  /** What a step of process q can do to the slot of another process: give an unused slot to a
      child, hand a child over to init, wake it, or reap it. */
  ghost predicate Touched(s: State, q: nat, p: nat, y: Slot)
    requires q < |s.slots| && p < |s.slots|
  {
    var x, pc := s.slots[p], s.slots[q].pc;
    || y == x
    || (pc == ForkScan(p) && x == FREE && y == Slot(Runnable, s.nextPid, Some(q), 0, None, User))
    || (pc.Reparent? && pc.i == p && x.parent == Some(q) && y == x.(parent := Some(s.init)))
    || (pc.WakeInit? && x.state == Sleeping && x.chan == Some(s.init) && y == x.(state := Runnable))
    || (pc.WakeParent? && x.state == Sleeping && x.chan == s.slots[q].parent && y == x.(state := Runnable))
    || (pc.Scan? && pc.i == p && x.parent == Some(q) && x.state == Zombie && y == FREE)
  }

  lemma OtherSlot(s: State, q: nat, ok: bool, p: nat)
    requires Locks(s) && CanStep(s, q) && p < |s.slots| && p != q
    ensures q < |s.slots| == |Step(s, q, ok).slots| && Touched(s, q, p, Step(s, q, ok).slots[p])
  {
    hide Locks, CanStep;
    Facts(s, q);
    FactsAt(s, p);
    if s.slots[q].pc.ForkScan? {
      hide ReparentStep, WakeStep, LockStep, ScanStep;
    } else if s.slots[q].pc.Reparent? {
      hide ForkStep, WakeStep, LockStep, ScanStep;
    } else if s.slots[q].pc.Scan? {
      hide ForkStep, WakeStep, LockStep, ReparentStep;
    } else if s.slots[q].pc.WakeInit? || s.slots[q].pc.WakeParent? {
      hide ForkStep, ScanStep, LockStep, ReparentStep;
    } else {
      hide ForkStep, ScanStep, WakeStep, ReparentStep;
    }
  }

  /** Moves other than steps change one slot, and of that only state, channel and code position. */
  ghost predicate Moved(s: State, s': State, p: nat) {
    && p < |s.slots| == |s'.slots| && s' == Put(s, p, s'.slots[p])
    && (|| (CanCall(s, p) && exists call :: s' == Enters(s, p, call))
        || (CanDispatch(s, p) && s' == Dispatch(s, p))
        || (CanYield(s, p) && s' == Yield(s, p)))
  }

  lemma StepOrMove(s: State, s': State) returns (p: nat, ok: bool, moved: bool)
    requires Next(s, s')
    ensures if moved then Moved(s, s', p) else CanStep(s, p) && s' == Step(s, p, ok)
  {
    hide CanStep, Step;
    if q: nat, b :| CanStep(s, q) && s' == Step(s, q, b) {
      p, ok, moved := q, b, false;
    } else {
      ok, moved := true, true;
      if q: nat, call :| CanCall(s, q) && s' == Enters(s, q, call) {
        p := q;
      } else if q: nat :| CanDispatch(s, q) && s' == Dispatch(s, q) {
        p := q;
      } else {
        var q: nat :| CanYield(s, q) && s' == Yield(s, q);
        p := q;
      }
    }
  }

  // ---- wait ------------------------------------------------------------------------------

  predicate InWait(pc: Pc) { pc.WaitLock? || pc.Scan? || pc.Enter? || pc.Doze? || pc.Asleep? }

  /** Why a wait comes back: it reaped a child, it has none, or it could not write the status. */
  ghost predicate WaitEnds(s: State, s': State, p: nat)
    requires p < |s.slots| == |s'.slots| && InWait(s.slots[p].pc)
  {
    || (s'.waitLock == None && exists c :: 0 <= c < |s.slots| && Reaps(s, s', p, c))
    || (!HasChild(s, p) && s' == Goto(s, p, User).(waitLock := None))
    || (s.slots[p].pc.st && CopyFails(s, s') && s'.reaped == s.reaped)
  }

  ghost predicate Reaps(s: State, s': State, p: nat, c: nat)
    requires p < |s.slots| == |s'.slots| && c < |s.slots|
  {
    && s.slots[c].parent == Some(p) && s.slots[c].state == Zombie
    && s'.slots == s.slots[c := FREE][p := s.slots[p].(pc := User)]
    && s'.reaped == s.reaped + [Reap(s.slots[p].pid, s.slots[c].pid, s.slots[c].xstate)]
  }

  lemma WaitOwn(s: State, p: nat, ok: bool)
    requires Inv(s) && CanStep(s, p) && InWait(s.slots[p].pc)
    ensures p < |s.slots| == |Step(s, p, ok).slots|
    ensures var pc := Step(s, p, ok).slots[p].pc;
            if pc.User? then WaitEnds(s, Step(s, p, ok), p) else InWait(pc) && pc.st == s.slots[p].pc.st
  {
    hide Locks, Family, Wakeups, History, CanStep, ForkStep, ReparentStep, WakeStep;
    Facts(s, p);
    HolderAt(s, p);
    var pc, s' := s.slots[p].pc, Step(s, p, ok);
    if s'.slots[p].pc.User? && pc.i < |s.slots| {
      if pc.st && !ok {
        assert AtZombie(s, p);
      } else {
        assert Reaps(s, s', p, pc.i);
      }
    }
  }

  /** One step of anybody, while p is inside wait. */
  lemma WaitNext(s: State, s': State, p: nat)
    requires Inv(s) && Next(s, s') && p < |s.slots| && InWait(s.slots[p].pc)
    ensures |s'.slots| == |s.slots|
    ensures var pc := s'.slots[p].pc;
            if pc.User? then WaitEnds(s, s', p) else InWait(pc) && pc.st == s.slots[p].pc.st
  {
    var q, ok, moved := StepOrMove(s, s');
    if !moved {
      hide Step, CanStep, WaitEnds, Inv, Next;
      assert Locks(s) by { assert Inv(s); }
      FactsAt(s, p);
      if q == p { WaitOwn(s, p, ok); } else { OtherSlot(s, q, ok, p); }
    } else {
      hide WaitEnds, Inv, Next;
    }
  }

  /** A call of wait, however the others interleave: until it comes back it stays inside wait, and
      it comes back for one of the three reasons. In particular it does not come back empty-handed
      while it has a child and a status it can write. */
  lemma {:induction false} WaitAnswered(t: seq<State>, i: nat, j: nat, p: nat, st: bool)
    requires Run(t) && i < j < |t| && CanCall(t[i], p) && t[i + 1] == Enters(t[i], p, Wait(st))
    requires forall k :: i < k < j && p < |t[k].slots| ==> !t[k].slots[p].pc.User?
    ensures p < |t[j].slots|
    ensures if t[j].slots[p].pc.User? then
              && j > i + 1 && p < |t[j - 1].slots| == |t[j].slots| && InWait(t[j - 1].slots[p].pc)
              && t[j - 1].slots[p].pc.st == st && WaitEnds(t[j - 1], t[j], p)
            else InWait(t[j].slots[p].pc) && t[j].slots[p].pc.st == st
  {
    hide Inv, Next, Boot, WaitEnds;
    if j > i + 1 {
      WaitAnswered(t, i, j - 1, p, st);
      RunInv(t, j - 1);
      assert StepAt(t, j - 1);
      WaitNext(t[j - 1], t[j], p);
    }
  }

  /** Process p has looked at the whole table, found a child but no zombie, and is on its way to
      sleep. */
  predicate Parks(s: State, p: nat, st: bool) {
    && p < |s.slots| && s.slots[p].state == Running
    && match s.slots[p].pc
       case Scan(b, i, have) => b == st && i >= |s.slots| && have
       case Enter(b) => b == st
       case Doze(b) => b == st
       case _ => false
  }

  predicate SleepsInWait(s: State, p: nat, st: bool) {
    p < |s.slots| && s.slots[p].state == Sleeping && s.slots[p].chan == Some(p) && s.slots[p].pc == Asleep(st)
  }

  lemma ParksNext(s: State, s': State, p: nat, st: bool)
    requires Inv(s) && Next(s, s') && Parks(s, p, st)
    ensures Parks(s', p, st) || SleepsInWait(s', p, st)
  {
    var q, ok, moved := StepOrMove(s, s');
    if !moved {
      hide CanStep, Inv, Next;
      assert Locks(s) by { assert Inv(s); }
      FactsAt(s, p);
      if q == p {
        hide ForkStep, ReparentStep, WakeStep;
      } else {
        hide Step;
        OtherSlot(s, q, ok, p);
      }
    } else {
      hide Inv, Next;
    }
  }

  /** A wait whose scan met a child and no zombie falls asleep on its own channel, and does nothing
      else before. */
  lemma {:induction false} WaitSleeps(t: seq<State>, i: nat, j: nat, p: nat, st: bool)
    requires Run(t) && i <= j < |t| && Parks(t[i], p, st)
    ensures Parks(t[j], p, st) || exists k :: i < k <= j && SleepsInWait(t[k], p, st)
  {
    if i < j {
      hide Inv, Next, Boot, Parks, SleepsInWait;
      WaitSleeps(t, i, j - 1, p, st);
      RunInv(t, j - 1);
      assert StepAt(t, j - 1);
      if Parks(t[j - 1], p, st) {
        ParksNext(t[j - 1], t[j], p, st);
      }
    }
  }

  /** A scan that has passed the last slot knows whether there is a child. */
  lemma ScanKnows(t: seq<State>, i: nat, p: nat)
    requires Run(t) && i < |t| && p < |t[i].slots| && t[i].slots[p].pc.Scan? && t[i].slots[p].pc.i >= |t[i].slots|
    ensures HasChild(t[i], p) <==> Parks(t[i], p, t[i].slots[p].pc.st)
    ensures forall c :: 0 <= c < |t[i].slots| && t[i].slots[c].parent == Some(p) ==> t[i].slots[c].state != Zombie
  {
    hide Family, History, Boot, Next;
    RunInv(t, i);
    FactsAt(t[i], p);
    HolderAt(t[i], p);
  }

  /** A process asleep in wait is woken only by the exit of one of its children, or, if it is
      init, by an exit that left it children. */
  lemma WokenByExit(t: seq<State>, i: nat, p: nat)
    requires Run(t) && i + 1 < |t| && p < |t[i].slots| && t[i].slots[p].state == Sleeping
    ensures p < |t[i + 1].slots|
    ensures t[i + 1].slots[p].state != Sleeping ==>
      && t[i + 1].slots[p] == t[i].slots[p].(state := Runnable)
      && exists q :: 0 <= q < |t[i].slots| &&
           ((t[i].slots[q].pc.WakeParent? && t[i].slots[q].parent == Some(p))
            || (t[i].slots[q].pc.WakeInit? && p == t[i].init))
  {
    hide Boot;
    RunInv(t, i);
    assert StepAt(t, i);
    var s, s' := t[i], t[i + 1];
    var q, ok, moved := StepOrMove(s, s');
    if !moved {
      hide Step, CanStep, Next, Family, Wakeups, History, Inv;
      assert Locks(s) by { assert Inv(s); }
      FactsAt(s, p);
      Facts(s, q);
      if q != p { OtherSlot(s, q, ok, p); }
    } else {
      hide Inv, Next;
    }
  }

  // ---- exit ------------------------------------------------------------------------------

  predicate Exiting(pc: Pc, code: int) {
    match pc
    case ExitLock(c) => c == code
    case Reparent(c, _, _) => c == code
    case WakeInit(c, _) => c == code
    case WakeParent(c, _) => c == code
    case Mark(c) => c == code
    case _ => false
  }

  /** The process in slot x called exit(code) and has not been reaped. */
  predicate Exited(x: Slot, code: int) {
    if x.state == Zombie then x.xstate == code else Exiting(x.pc, code)
  }

  lemma ExitOwn(s: State, p: nat, ok: bool, code: int)
    requires Inv(s) && CanStep(s, p) && Exited(s.slots[p], code)
    ensures p < |s.slots| == |Step(s, p, ok).slots|
    ensures Exited(Step(s, p, ok).slots[p], code) && Step(s, p, ok).slots[p].pid == s.slots[p].pid
  {
    hide Locks, Family, Wakeups, History, CanStep, ForkStep, ScanStep;
    Facts(s, p);
  }

  lemma ExitNext(s: State, s': State, p: nat, code: int)
    requires Inv(s) && Next(s, s') && p < |s.slots| && Exited(s.slots[p], code)
    ensures |s'.slots| == |s.slots|
    ensures s'.slots[p] == FREE || (Exited(s'.slots[p], code) && s'.slots[p].pid == s.slots[p].pid)
  {
    var q, ok, moved := StepOrMove(s, s');
    if !moved {
      hide Step, CanStep, Inv, Next;
      assert Locks(s) by { assert Inv(s); }
      FactsAt(s, p);
      if q == p { ExitOwn(s, p, ok, code); } else { OtherSlot(s, q, ok, p); }
    } else {
      hide Next;
    }
  }

  /** exit does not return: until its parent reaps it, the process is on its way to being a
      zombie or is one, and the status it leaves is the one it gave. A zombie has no children,
      unless it is init. */
  lemma {:induction false} ExitAnswered(t: seq<State>, i: nat, j: nat, p: nat, code: int)
    requires Run(t) && i < j < |t| && CanCall(t[i], p) && t[i + 1] == Enters(t[i], p, Exit(code))
    requires forall k :: i < k <= j && p < |t[k].slots| ==> t[k].slots[p] != FREE
    ensures p < |t[j].slots| && Exited(t[j].slots[p], code) && t[j].slots[p].pid == t[i].slots[p].pid
    ensures t[j].slots[p].state == Zombie ==>
      && t[j].slots[p].pid in t[j].exits && t[j].exits[t[j].slots[p].pid] == code
      && (p != t[j].init ==> !HasChild(t[j], p))
  {
    hide Inv, Next, Boot, Exited;
    if j > i + 1 {
      ExitAnswered(t, i, j - 1, p, code);
      RunInv(t, j - 1);
      assert StepAt(t, j - 1);
      ExitNext(t[j - 1], t[j], p, code);
    } else {
      CallsExit(t[i], p, code);
    }
    RunInv(t, j);
    ZombieLeaves(t[j], p, code);
  }

  lemma CallsExit(s: State, p: nat, code: int)
    requires CanCall(s, p)
    ensures var s' := Enters(s, p, Exit(code));
            p < |s'.slots| && Exited(s'.slots[p], code) && s'.slots[p].pid == s.slots[p].pid
  {
  }

  lemma ZombieLeaves(s: State, p: nat, code: int)
    requires Inv(s) && p < |s.slots| && Exited(s.slots[p], code)
    ensures s.slots[p].state == Zombie ==>
      && s.slots[p].pid in s.exits && s.exits[s.slots[p].pid] == code && (p != s.init ==> !HasChild(s, p))
  {
    hide Wakeups;
    assert PidFine(s, p) && SlotFine(s, p);
    if s.slots[p].state == Zombie && p != s.init {
      forall c | 0 <= c < |s.slots| ensures s.slots[c].parent != Some(p) {
        assert ParentFine(s, c);
      }
    }
  }

  /** Who the parent of a process is changes only so: a fork makes the forking process the parent
      of its child, an exit hands its children to init, and a reaped slot has no parent. */
  lemma ParentChanges(t: seq<State>, i: nat, c: nat)
    requires Run(t) && i + 1 < |t| && c < |t[i].slots|
    ensures c < |t[i + 1].slots|
    ensures var x, y := t[i].slots[c], t[i + 1].slots[c];
      x.parent != y.parent ==>
        || (x == FREE && y.parent.Some? && y.parent.value < |t[i].slots| && y.pid == t[i].nextPid
            && t[i].slots[y.parent.value].pc == ForkScan(c))
        || (x.parent.Some? && x.parent.value < |t[i].slots| && y.parent == Some(t[i].init)
            && t[i].slots[x.parent.value].pc.Reparent?)
        || (x.state == Zombie && y == FREE)
  {
    hide Boot;
    RunInv(t, i);
    assert StepAt(t, i);
    var s, s' := t[i], t[i + 1];
    var q, ok, moved := StepOrMove(s, s');
    if !moved {
      hide CanStep, Next, Family, Wakeups, History, Inv;
      assert Locks(s) by { assert Inv(s); }
      Facts(s, q);
      if q != c {
        hide Step;
        OtherSlot(s, q, ok, c);
      } else {
        FactsAt(s, q);
        OwnParent(s, q, ok);
      }
    } else {
      hide Inv, Next;
    }
  }

  lemma OwnParent(s: State, p: nat, ok: bool)
    requires Inv(s) && CanStep(s, p)
    ensures p < |s.slots| == |Step(s, p, ok).slots|
    ensures var x, y := s.slots[p], Step(s, p, ok).slots[p];
            y.parent == x.parent || (x.pc.Reparent? && x.parent == Some(p) && y.parent == Some(s.init))
  {
    hide Locks, Wakeups, History, CanStep;
    Facts(s, p);
    FactsAt(s, p);
    FamilyAt(s, p);
  }

  // ---- fork ------------------------------------------------------------------------------

  /** No process and no record has the pid. */
  ghost predicate NewPid(s: State, pid: nat) {
    && pid !in s.exits
    && (forall j :: 0 <= j < |s.slots| && s.slots[j].state != Unused ==> s.slots[j].pid != pid)
    && (forall k :: 0 <= k < |s.reaped| ==> s.reaped[k].pid != pid)
  }

  ghost predicate Begets(s: State, s': State, p: nat, c: nat)
    requires p < |s.slots| && c < |s.slots|
  {
    && s.slots[c] == FREE && NewPid(s, s.nextPid)
    && s' == Goto(Put(s, c, Slot(Runnable, s.nextPid, Some(p), 0, None, User)), p, User).(nextPid := s.nextPid + 1)
  }

  /** How a fork comes back: with a new, runnable child in an unused slot, whose pid nobody ever
      had; or without one, for want of memory (which costs a pid) or of a slot. */
  ghost predicate ForkEnds(s: State, s': State, p: nat)
    requires p < |s.slots| && s.slots[p].pc.ForkScan?
  {
    || (exists c :: 0 <= c < |s.slots| && Begets(s, s', p, c))
    || s' == Goto(s, p, User).(nextPid := s.nextPid + 1)
    || (s' == Goto(s, p, User) && s.slots[p].pc.i >= |s.slots|)
  }

  lemma PidIsNew(s: State)
    requires History(s)
    ensures NewPid(s, s.nextPid)
  {
    forall j | 0 <= j < |s.slots| && s.slots[j].state != Unused
      ensures s.slots[j].pid != s.nextPid
    {
      assert PidFine(s, j);
    }
  }

  lemma ForkOwn(s: State, p: nat, ok: bool)
    requires Inv(s) && CanStep(s, p) && s.slots[p].pc.ForkScan?
    ensures p < |s.slots| == |Step(s, p, ok).slots|
    ensures var i, s' := s.slots[p].pc.i, Step(s, p, ok);
            if s'.slots[p].pc.User? then ForkEnds(s, s', p)
            else i < |s.slots| && s.slots[i].state != Unused && s'.slots[p].pc == ForkScan(i + 1)
  {
    hide Locks, Family, Wakeups, History, CanStep, LockStep, ReparentStep, WakeStep, ScanStep, NewPid;
    Facts(s, p);
    var i := s.slots[p].pc.i;
    FactsAt(s, i);
    PidIsNew(s);
    if i < |s.slots| && s.slots[i].state == Unused {
      if ok {
        assert Begets(s, Step(s, p, ok), p, i);
      } else {
        assert s.slots[i := FREE] == s.slots;
      }
    }
  }

  /** A fork that comes to an unused slot and finds the memory makes the child there. */
  lemma ForkTakes(s: State, p: nat)
    requires Inv(s) && CanStep(s, p) && s.slots[p].pc.ForkScan?
    requires s.slots[p].pc.i < |s.slots| && s.slots[s.slots[p].pc.i].state == Unused
    ensures Begets(s, Step(s, p, true), p, s.slots[p].pc.i)
  {
    hide Locks, Family, Wakeups, History, CanStep, LockStep, ReparentStep, WakeStep, ScanStep, NewPid;
    Facts(s, p);
    FactsAt(s, s.slots[p].pc.i);
    PidIsNew(s);
  }

  lemma ForkNext(s: State, s': State, p: nat)
    requires Inv(s) && Next(s, s') && p < |s.slots| && s.slots[p].pc.ForkScan?
    ensures |s'.slots| == |s.slots|
    ensures var i, pc := s.slots[p].pc.i, s'.slots[p].pc;
            if pc.User? then ForkEnds(s, s', p)
            else pc == ForkScan(i) || (pc == ForkScan(i + 1) && i < |s.slots| && s.slots[i].state != Unused)
  {
    var q, ok, moved := StepOrMove(s, s');
    if !moved {
      hide Step, CanStep, ForkEnds, Inv, Next;
      assert Locks(s) by { assert Inv(s); }
      FactsAt(s, p);
      if q == p { ForkOwn(s, p, ok); } else { OtherSlot(s, q, ok, p); }
    } else {
      hide ForkEnds, Inv, Next;
    }
  }

  ghost predicate SeenUsed(t: seq<State>, lo: nat, hi: nat, p: nat, c: nat)
    requires hi <= |t|
  {
    exists k :: lo < k < hi && UsedAt(t[k], p, c)
  }

  ghost predicate UsedAt(s: State, p: nat, c: nat) {
    p < |s.slots| && c < |s.slots| && s.slots[p].pc == ForkScan(c) && s.slots[c].state != Unused
  }

  lemma UsedMore(t: seq<State>, lo: nat, mid: nat, hi: nat, p: nat, n: nat)
    requires mid <= hi <= |t|
    requires forall c :: 0 <= c < n ==> SeenUsed(t, lo, mid, p, c)
    ensures forall c :: 0 <= c < n ==> SeenUsed(t, lo, hi, p, c)
  {
    hide UsedAt;
    forall c | 0 <= c < n ensures SeenUsed(t, lo, hi, p, c) {
      assert SeenUsed(t, lo, mid, p, c);
    }
  }

  /** A call of fork, however the others interleave: until it comes back it looks for a slot, and
      every slot it has passed was in use when it looked. So it fails for want of a slot only if
      each slot was in use at some time during the call. */
  lemma {:induction false} ForkAnswered(t: seq<State>, i: nat, j: nat, p: nat)
    requires Run(t) && i < j < |t| && CanCall(t[i], p) && t[i + 1] == Enters(t[i], p, Fork)
    requires forall k :: i < k < j && p < |t[k].slots| ==> !t[k].slots[p].pc.User?
    ensures p < |t[j].slots|
    ensures if t[j].slots[p].pc.User? then
              && j > i + 1 && p < |t[j - 1].slots| && t[j - 1].slots[p].pc.ForkScan?
              && ForkEnds(t[j - 1], t[j], p)
              && (t[j].nextPid == t[j - 1].nextPid ==> forall c :: 0 <= c < |t[j].slots| ==> SeenUsed(t, i, j, p, c))
            else
              && t[j].slots[p].pc.ForkScan?
              && forall c :: 0 <= c < t[j].slots[p].pc.i ==> SeenUsed(t, i, j, p, c)
  {
    hide Inv, Next, Boot, SeenUsed;
    if j > i + 1 {
      ForkAnswered(t, i, j - 1, p);
      RunInv(t, j - 1);
      assert StepAt(t, j - 1);
      ForkNext(t[j - 1], t[j], p);
      UsedMore(t, i, j - 1, j, p, t[j - 1].slots[p].pc.i);
      if t[j].slots[p].pc == ForkScan(t[j - 1].slots[p].pc.i + 1) {
        assert UsedAt(t[j - 1], p, t[j - 1].slots[p].pc.i);
        UsedNow(t, i, j, p, t[j - 1].slots[p].pc.i);
      }
    }
  }

  lemma UsedNow(t: seq<State>, lo: nat, hi: nat, p: nat, c: nat)
    requires lo + 1 < hi <= |t| && UsedAt(t[hi - 1], p, c)
    ensures SeenUsed(t, lo, hi, p, c)
  {
    hide UsedAt;
  }

  // ---- Going on ---------------------------------------------------------------------------

  /** When WAIT_LOCK is not lost and no process can take a step or be dispatched, all are in user
      code, dead or asleep in wait, and the sleepers have a child and no zombie among their
      children. */
  lemma OnlyParentsSleep(t: seq<State>, i: nat, p: nat)
    requires Run(t) && i < |t| && !LockLost(t[i]) && p < |t[i].slots|
    requires forall q :: 0 <= q < |t[i].slots| ==> !CanStep(t[i], q) && !CanDispatch(t[i], q)
    ensures t[i].waitLock == None
    ensures var x := t[i].slots[p];
      || x.state == Unused || (x.state == Running && x.pc == User) || (x.state == Zombie && x.pc == Dead)
      || (x.state == Sleeping && HasChild(t[i], p)
          && forall c :: 0 <= c < |t[i].slots| && t[i].slots[c].parent == Some(p) ==> t[i].slots[c].state != Zombie)
  {
    hide Boot, Next, Family, Wakeups, History, LockLost;
    RunInv(t, i);
    var s := t[i];
    StuckIsLost(s);
    NobodyLocked(s);
    if s.waitLock.Some? {
      HolderCan(s);
      assert false;
    }
    FactsAt(s, p);
    assert !CanStep(s, p) && !CanDispatch(s, p);
    if s.slots[p].state == Sleeping {
      NoLostWakeup(t, i, p);
    }
  }

  lemma HolderCan(s: State)
    requires Locks(s) && s.waitLock.Some? && !s.stuck && forall q: nat :: UnlockedAt(s, q)
    ensures s.waitLock.value < |s.slots| && CanStep(s, s.waitLock.value)
  {
    FactsAt(s, s.waitLock.value);
    var pc := s.slots[s.waitLock.value].pc;
    if pc.Reparent? || pc.WakeInit? || pc.WakeParent? || pc.Scan? {
      assert UnlockedAt(s, pc.i);
    }
  }

  /** Who holds its own process lock can always take a step. */
  lemma NobodyLocked(s: State)
    requires Locks(s) && forall q :: 0 <= q < |s.slots| ==> !CanStep(s, q)
    ensures forall q: nat :: UnlockedAt(s, q)
  {
    forall q: nat ensures UnlockedAt(s, q) {
      if q < |s.slots| {
        FactsAt(s, q);
        assert !CanStep(s, q);
      }
    }
  }

  function Rest(s: State, i: nat): nat { if i <= |s.slots| then |s.slots| - i else 0 }

  /** Steps process p has still to take before it is out of the loop it is in and of those that
      follow without a wait. */
  function Left(s: State, pc: Pc): nat {
    match pc
    case ForkScan(i) => Rest(s, i) + 1
    case ExitLock(_) => 3 * |s.slots| + 9
    case Reparent(_, i, _) => Rest(s, i) + 2 * |s.slots| + 8
    case WakeInit(_, i) => Rest(s, i) + |s.slots| + 6
    case WakeParent(_, i) => Rest(s, i) + 4
    case Mark(_) => 3
    case Marked => 2
    case DeadHeld => 1
    case WaitLock(_) => |s.slots| + 4
    case Scan(_, i, _) => Rest(s, i) + 3
    case Enter(_) => 2
    case Doze(_) => 1
    case _ => 0
  }

  /** No loop runs for ever: each step a process takes brings it nearer to user code, death or
      sleep. */
  lemma StepNearer(s: State, p: nat, ok: bool)
    requires Locks(s) && CanStep(s, p)
    ensures p < |s.slots| == |Step(s, p, ok).slots|
    ensures Left(Step(s, p, ok), Step(s, p, ok).slots[p].pc) < Left(s, s.slots[p].pc)
  {
    hide Locks;
    Facts(s, p);
    FactsAt(s, p);
  }
}
