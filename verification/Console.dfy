/** The console's input: line editing in a ring buffer with three indices, and what
    readers get of it over every interleaving of keys and reads. */
module Console {
  import opened Prelude
  import opened FsLayout

  const INPUT_BUF := 128
  const BACKSPACE: Byte := 0x08
  const DELETE: Byte := 0x7F
  const EOF: Byte := 0x04
  const NL: Byte := 10
  const CR: Byte := 13

  predicate Erases(b: Byte) { b == BACKSPACE || b == DELETE }

  function Normal(b: Byte): Byte { if b == CR then NL else b }

  // ---- Line editing -------------------------------------------------------------------

  /** What typing a line leaves: an erase takes back the last byte that is left. */
  function Edited(line: seq<Byte>): seq<Byte> {
    if line == [] then []
    else
      var s, b := Edited(line[..|line| - 1]), line[|line| - 1];
      if !Erases(b) then s + [b] else if s == [] then [] else s[..|s| - 1]
  }

  /** The same seen from the end: a byte is kept unless an erase after it is still to be
      paid for; d erases are. */
  function Kept(line: seq<Byte>, d: nat): seq<Byte> {
    if line == [] then []
    else
      var rest, b := line[..|line| - 1], line[|line| - 1];
      if Erases(b) then Kept(rest, d + 1) else if d > 0 then Kept(rest, d - 1) else Kept(rest, 0) + [b]
  }

  function DropLast(s: seq<Byte>, d: nat): seq<Byte> { if d <= |s| then s[..|s| - d] else [] }

  /** Editing as one types and matching erases from the end come to the same. */
  lemma {:induction false} EditedIsKept(line: seq<Byte>, d: nat)
    ensures Kept(line, d) == DropLast(Edited(line), d)
  {
    if line != [] {
      var rest, b := line[..|line| - 1], line[|line| - 1];
      if Erases(b) {
        EditedIsKept(rest, d + 1);
      } else if d > 0 {
        EditedIsKept(rest, d - 1);
      } else {
        EditedIsKept(rest, 0);
      }
    }
  }

  // ---- The ring buffer ----------------------------------------------------------------

  /** input_putc on the log of all bytes that are in the buffer or were read: bytes below
      r are read, below w committed, the rest is the line being edited. */
  function Putc(log: seq<Byte>, r: nat, w: nat, key: Byte): (res: (seq<Byte>, nat, bool))
    requires r <= w <= |log| <= r + INPUT_BUF
    ensures r <= res.1 <= |res.0| <= r + INPUT_BUF && w <= res.1
    ensures res.0[..w] == log[..w]
    ensures res.2 <==> res.1 > w
  {
    var b := Normal(key);
    if Erases(b) then (if |log| > w then log[..|log| - 1] else log, w, false)
    else if |log| - r >= INPUT_BUF then (log, w, false)
    else
      var log' := log + [b];
      if b == EOF || b == NL || |log'| - r == INPUT_BUF then (log', |log'|, true) else (log', w, false)
  }

  class Input {
    const buf: array<Byte>
    var r: nat
    var w: nat
    var e: nat
    ghost var log: seq<Byte>

    ghost predicate Valid()
      reads this, buf
    {
      && buf.Length == INPUT_BUF && r <= w <= e <= r + INPUT_BUF && |log| == e
      && (e == r + INPUT_BUF ==> w == e)
      && forall i :: r <= i < e ==> buf[i % INPUT_BUF] == log[i]
    }

    constructor ()
      ensures Valid() && fresh(buf) && r == w == 0 && log == []
    {
      buf := new Byte[INPUT_BUF](_ => 0);
      r, w, e := 0, 0, 0;
      log := [];
    }

    predicate Available()
      reads this
    {
      r != w
    }

    /** One key. A carriage return counts as a newline. Backspace and delete take back a byte of the
        line being typed. With a full buffer the key is lost. Otherwise it is stored, and a
        newline, an end-of-file mark or a buffer that is full then commits everything typed. The
        result says whether something became readable. */
    method InputPutc(key: Byte) returns (wake: bool)
      requires Valid()
      modifies `w, `e, `log, buf
      ensures Valid() && (log, w, wake) == Putc(old(log), r, old(w), key)
      ensures key == 8 || key == 127 ==>
        !wake && w == old(w) && log == if |old(log)| > old(w) then old(log)[..|old(log)| - 1] else old(log)
      ensures key != 8 && key != 127 && |old(log)| == r + INPUT_BUF ==> !wake && w == old(w) && log == old(log)
      ensures key != 8 && key != 127 && |old(log)| < r + INPUT_BUF ==>
        && log == old(log) + [if key == 13 then 10 else key]
        && (wake <==> key == 13 || key == 10 || key == 4 || |log| == r + INPUT_BUF)
        && w == if wake then |log| else old(w)
    {
      var b := Normal(key);
      if Erases(b) {
        if e != w {
          e := e - 1;
          log := log[..|log| - 1];
        }
        return false;
      }
      if e - r >= INPUT_BUF {
        return false;
      }
      assert forall i :: r <= i < e ==> i % INPUT_BUF != e % INPUT_BUF by { Slots(r, e); }
      buf[e % INPUT_BUF] := b;
      e := e + 1;
      log := log + [b];
      if b == EOF {
        w := e;
        return true;
      }
      if b == NL || e - r == INPUT_BUF {
        w := e;
        return true;
      }
      return false;
    }

    /** The next committed byte. */
    method InputGetc() returns (c: Byte)
      requires Valid() && Available()
      modifies `r
      ensures Valid() && r == old(r) + 1 <= w && c == log[old(r)]
    {
      c := buf[r % INPUT_BUF];
      r := r + 1;
    }
  }

  /** Why read stops after `got`: enough bytes, the end of a line, or an end-of-file mark
      next. */
  ghost predicate Stops(got: seq<Byte>, want: nat, log: seq<Byte>, next: nat, w: nat) {
    || |got| == want || (got != [] && got[|got| - 1] == NL)
    || (next < w <= |log| && log[next] == EOF)
  }

  /** What read's loop makes of the committed bytes log[r..w]: the bytes it then has, whether it
      returns, and where the next read goes on. */
  function Reading(log: seq<Byte>, r: nat, w: nat, want: nat, got: seq<Byte>): (seq<Byte>, bool, nat)
    requires r <= w <= |log|
    decreases w - r
  {
    if r == w then (got, false, r)
    else if log[r] == EOF then (got, true, if got == [] then r + 1 else r)
    else if log[r] == NL || |got| + 1 == want then (got + [log[r]], true, r + 1)
    else Reading(log, r + 1, w, want, got + [log[r]])
  }

  lemma ReadingNext(log: seq<Byte>, r: nat, w: nat, want: nat, got: seq<Byte>)
    requires r < w <= |log|
    ensures Reading(log, r, w, want, got) ==
            if log[r] == EOF then (got, true, if got == [] then r + 1 else r)
            else if log[r] == NL || |got| + 1 == want then (got + [log[r]], true, r + 1)
            else Reading(log, r + 1, w, want, got + [log[r]])
  {
  }

  lemma ReadingEnd(log: seq<Byte>, r: nat, w: nat, want: nat, got: seq<Byte>)
    requires r <= w <= |log|
    ensures r == w ==> Reading(log, r, w, want, got) == (got, false, r)
  {
  }

  /** read's loop from one sleep to the next: it takes committed bytes in order until it
      stops or none are left. An end-of-file mark is used up only by a read that returns
      nothing. */
  method ReadSome(inp: Input, want: nat, got: seq<Byte>) returns (got': seq<Byte>, done: bool)
    requires inp.Valid() && |got| < want && NL !in got && EOF !in got
    modifies inp`r
    ensures inp.Valid() && got <= got' && |got'| <= want && EOF !in got'
    ensures var k := |got'| - |got|;
            && old(inp.r) + k <= inp.w && got' == got + inp.log[old(inp.r)..old(inp.r) + k]
            && (done <==> Stops(got', want, inp.log, old(inp.r) + k, inp.w))
            && (!done ==> inp.r == inp.w == old(inp.r) + k)
            && (done ==> inp.r == old(inp.r) + k + if got' == [] then 1 else 0)
    ensures inp.w <= |inp.log| && (got', done, inp.r) == Reading(inp.log, old(inp.r), inp.w, want, got)
  {
    hide Reading;
    got', done := got, false;
    ghost var r0 := inp.r;
    while |got'| < want && inp.Available()
      invariant inp.Valid() && got <= got' && |got'| <= want && EOF !in got' && !done
      invariant inp.r == r0 + |got'| - |got| && got' == got + inp.log[r0..inp.r]
      invariant NL !in got' || (got' != [] && got'[|got'| - 1] == NL && |got'| == want)
      invariant if |got'| < want then Reading(inp.log, r0, inp.w, want, got) == Reading(inp.log, inp.r, inp.w, want,
        got')
                else Reading(inp.log, r0, inp.w, want, got) == (got', true, inp.r)
      decreases want - |got'|
    {
      ReadingNext(inp.log, inp.r, inp.w, want, got');
      var c := inp.InputGetc();
      if c == EOF {
        if |got'| > 0 {
          inp.r := inp.r - 1;
        }
        done := true;
        return;
      }
      got' := got' + [c];
      if c == NL {
        done := true;
        return;
      }
    }
    ReadingEnd(inp.log, inp.r, inp.w, want, got');
    done := |got'| == want;
    if got' != [] { assert got'[|got'| - 1] in got'; }
  }

  /** Positions less than a buffer apart have slots of their own. */
  lemma Slots(r: nat, e: nat)
    requires r <= e < r + INPUT_BUF
    ensures forall i :: r <= i < e ==> i % INPUT_BUF != e % INPUT_BUF
  {
  }

  // ---- Keys, reads and wakeups in any order ---------------------------------------------

  /** A call of read: how much it wants and has, whether it sleeps, has returned, and at which
      end-of-file mark of the log, -1 if at none. */
  datatype Reader = Reader(want: nat, got: seq<Byte>, asleep: bool, done: bool, eof: int)

  /** `lines` are the keys of committed lines, `line` those since; `out` is all that
      readers got, in order; `wake` says that the interrupt handler has released the lock
      and will wake the readers. */
  datatype State = State(log: seq<Byte>, r: nat, w: nat, lines: seq<seq<Byte>>, line: seq<Byte>, out: seq<Byte>,
                         readers: seq<Reader>, wake: bool)

  /** A key arrives; a call begins; call i goes on holding the lock; readers are woken. */
  datatype Event = Key(b: Byte) | Begin(want: nat) | Go(i: nat) | Wake

  predicate Shape(s: State) {
    s.r <= s.w <= |s.log| <= s.r + INPUT_BUF && (|s.log| == s.r + INPUT_BUF ==> s.w == |s.log|)
  }

  predicate Can(s: State, ev: Event) {
    match ev
    case Go(i) => i < |s.readers| && !s.readers[i].asleep && !s.readers[i].done
    case Wake => s.wake
    case _ => true
  }

  function OnKey(s: State, key: Byte): State
    requires Shape(s)
  {
    var (log, w, wake) := Putc(s.log, s.r, s.w, key);
    var line := if !Erases(Normal(key)) && |s.log| - s.r >= INPUT_BUF then s.line else s.line + [Normal(key)];
    if wake then s.(log := log, w := w, wake := true, lines := s.lines + [line], line := [])
    else s.(log := log, line := line)
  }

  /** One turn of read's loop. */
  function OnGo(s: State, i: nat): State
    requires Shape(s) && i < |s.readers|
  {
    var x := s.readers[i];
    if s.r == s.w then s.(readers := s.readers[i := x.(asleep := true)])
    else
      var c := s.log[s.r];
      if c == EOF then s.(r := if |x.got| > 0 then s.r else s.r + 1,
        readers := s.readers[i := x.(done := true, eof := s.r)])
      else
        var y := x.(got := x.got + [c]);
        s.(r := s.r + 1, out := s.out + [c], readers := s.readers[i := y.(done := c == NL || |y.got| == y.want)])
  }

  function Awake(readers: seq<Reader>): (a: seq<Reader>)
    ensures |a| == |readers| && forall i :: 0 <= i < |a| ==> a[i] == readers[i].(asleep := false)
  {
    seq(|readers|, (i: nat) requires i < |readers| => readers[i].(asleep := false))
  }

  function Next(s: State, ev: Event): State
    requires Shape(s) && Can(s, ev)
  {
    match ev
    case Key(b) => OnKey(s, b)
    case Begin(want) => s.(readers := s.readers + [Reader(want, [], false, want == 0, -1)])
    case Go(i) => OnGo(s, i)
    case Wake => s.(readers := Awake(s.readers), wake := false)
  }

  // ---- What holds over every run ------------------------------------------------------------

  function Cooked(lines: seq<seq<Byte>>): seq<Byte> {
    if lines == [] then [] else Cooked(lines[..|lines| - 1]) + Edited(lines[|lines| - 1])
  }

  /** A stream without its end-of-file marks. */
  function Sans(s: seq<Byte>): seq<Byte> {
    if s == [] then [] else Sans(s[..|s| - 1]) + if s[|s| - 1] == EOF then [] else [s[|s| - 1]]
  }

  lemma {:induction false} SansAppend(a: seq<Byte>, b: seq<Byte>)
    ensures Sans(a + b) == Sans(a) + Sans(b)
  {
    if b == [] {
      assert a + b == a;
    } else {
      assert (a + b)[..|a + b| - 1] == a + b[..|b| - 1];
      SansAppend(a, b[..|b| - 1]);
    }
  }

  /** A reader's bytes: no end-of-file mark, at most one line; and why it returned. */
  ghost predicate ReaderOk(x: Reader) {
    && |x.got| <= x.want && EOF !in x.got && (x.asleep ==> !x.done)
    && (forall k :: 0 <= k < |x.got| - 1 ==> x.got[k] != NL)
    && (!x.done ==> |x.got| < x.want && NL !in x.got)
    && (x.done ==> |x.got| == x.want || (x.got != [] && x.got[|x.got| - 1] == NL) || x.eof >= 0)
  }

  /** The mark at which a reader returned is there, among the committed bytes. */
  ghost predicate MarkOk(s: State, x: Reader) {
    -1 <= x.eof && (x.eof >= 0 ==> x.eof < s.w <= |s.log| && s.log[x.eof] == EOF)
  }

  /** A newline or an end-of-file mark ends a line, and there is no carriage return. */
  ghost predicate LineOk(line: seq<Byte>) {
    line != [] && CR !in line && NL !in line[..|line| - 1] && EOF !in line[..|line| - 1]
  }

  ghost predicate TypedOk(s: State) {
    && CR !in s.line && NL !in s.line && EOF !in s.line
    && forall k :: 0 <= k < |s.lines| ==> LineOk(s.lines[k])
  }

  ghost predicate Inv(s: State) {
    && TypedOk(s) && Shape(s) && s.log[..s.w] == Cooked(s.lines) && s.log[s.w..] == Edited(s.line)
    && s.out == Sans(s.log[..s.r])
    && (forall i :: 0 <= i < |s.readers| ==> ReaderOk(s.readers[i]) && MarkOk(s, s.readers[i]))
    && (forall i :: 0 <= i < |s.readers| && s.readers[i].asleep && s.r < s.w ==> s.wake)
  }

  lemma EditedNext(line: seq<Byte>, b: Byte)
    ensures Edited(line + [b]) == if !Erases(b) then Edited(line) + [b] else DropLast(Edited(line), 1)
  {
    assert (line + [b])[..|line|] == line;
    if Erases(b) && Edited(line) == [] {
      assert DropLast(Edited(line), 1) == [];
    }
  }

  lemma CookedNext(lines: seq<seq<Byte>>, line: seq<Byte>)
    ensures Cooked(lines + [line]) == Cooked(lines) + Edited(line)
  {
    assert (lines + [line])[..|lines|] == lines;
  }

  lemma StoreText(log: seq<Byte>, w: nat, b: Byte)
    requires w <= |log|
    ensures (log + [b])[..w] == log[..w] && (log + [b])[w..] == log[w..] + [b]
    ensures (log + [b])[..|log| + 1] == log[..w] + (log[w..] + [b]) && (log + [b])[|log| + 1..] == []
  {
    assert log == log[..w] + log[w..];
  }

  lemma EraseText(log: seq<Byte>, w: nat)
    requires w <= |log|
    ensures |log| > w ==> log[..|log| - 1][..w] == log[..w] && log[..|log| - 1][w..] == DropLast(log[w..], 1)
    ensures |log| == w ==> log[w..] == DropLast(log[w..], 1)
  {
  }

  /** Keys and what they leave in the log. */
  lemma KeyText(s: State, key: Byte)
    requires Shape(s) && s.log[..s.w] == Cooked(s.lines) && s.log[s.w..] == Edited(s.line)
    ensures var t := OnKey(s, key);
            Shape(t) && t.log[..t.w] == Cooked(t.lines) && t.log[t.w..] == Edited(t.line)
  {
    var b := Normal(key);
    assert Edited([]) == [];
    EditedNext(s.line, b);
    CookedNext(s.lines, s.line + [b]);
    StoreText(s.log, s.w, b);
    EraseText(s.log, s.w);
    hide Edited, Cooked, Erases, Normal, DropLast;
    KeyCases(s, key);
  }

  lemma KeyCases(s: State, key: Byte)
    requires Shape(s)
    ensures var t, b := OnKey(s, key), Normal(key);
            && Shape(t)
            && if Erases(b) then
                 && t.w == s.w && t.lines == s.lines && t.line == s.line + [b]
                 && t.log == if |s.log| > s.w then s.log[..|s.log| - 1] else s.log
               else if |s.log| == s.r + INPUT_BUF then t == s
               else
                 && t.log == s.log + [b]
                 && if t.w == s.w then t.lines == s.lines && t.line == s.line + [b]
                    else t.w == |s.log| + 1 && t.lines == s.lines + [s.line + [b]] && t.line == []
  {
    hide Erases, Normal;
  }

  lemma KeyTyped(s: State, key: Byte)
    requires TypedOk(s) && Shape(s)
    ensures TypedOk(OnKey(s, key))
  {
    var line := s.line + [Normal(key)];
    assert line[..|line| - 1] == s.line;
  }

  lemma KeyKeeps(s: State, key: Byte)
    requires Inv(s)
    ensures Inv(OnKey(s, key))
  {
    hide Sans, Cooked, Edited, ReaderOk, TypedOk;
    KeyTyped(s, key);
    KeyText(s, key);
    assert OnKey(s, key).log[..s.r] == s.log[..s.r];
    forall i | 0 <= i < |s.readers| ensures ReaderOk(s.readers[i]) && MarkOk(OnKey(s, key), s.readers[i]) {
      assert MarkOk(s, s.readers[i]);
    }
  }

  /** One more byte read. */
  lemma SansNext(log: seq<Byte>, r: nat)
    requires r < |log|
    ensures Sans(log[..r + 1]) == Sans(log[..r]) + if log[r] == EOF then [] else [log[r]]
  {
    assert log[..r + 1][..r] == log[..r];
  }

  lemma TurnOk(x: Reader, c: Byte)
    requires ReaderOk(x) && !x.asleep && !x.done && c != EOF
    ensures var y := x.(got := x.got + [c]); ReaderOk(y.(done := c == NL || |y.got| == y.want))
  {
  }

  lemma GoKeeps(s: State, i: nat)
    requires Inv(s) && i < |s.readers| && !s.readers[i].asleep && !s.readers[i].done
    ensures Inv(OnGo(s, i))
  {
    hide Sans, Cooked, Edited;
    var t := OnGo(s, i);
    assert ReaderOk(s.readers[i]);
    if s.r < s.w {
      SansNext(s.log, s.r);
      if s.log[s.r] != EOF { TurnOk(s.readers[i], s.log[s.r]); }
    }
    assert ReaderOk(t.readers[i]) && MarkOk(t, t.readers[i]);
    forall j | 0 <= j < |t.readers| ensures ReaderOk(t.readers[j]) && MarkOk(t, t.readers[j]) {
      assert ReaderOk(s.readers[j]) && MarkOk(s, s.readers[j]);
    }
  }

  lemma NextKeeps(s: State, ev: Event)
    requires Inv(s) && Can(s, ev)
    ensures Inv(Next(s, ev))
  {
    match ev
    case Key(b) => KeyKeeps(s, b);
    case Go(i) => GoKeeps(s, i);
    case Begin(want) =>
    case Wake =>
      forall i | 0 <= i < |s.readers|
        ensures ReaderOk(Awake(s.readers)[i]) && MarkOk(Next(s, ev), Awake(s.readers)[i])
      {
        assert ReaderOk(s.readers[i]) && MarkOk(s, s.readers[i]);
      }
  }

  const START := State([], 0, 0, [], [], [], [], false)

  /** The state after a list of events, each of which could happen. */
  ghost predicate Run(evs: seq<Event>, s: State) {
    if evs == [] then s == START
    else exists s0 :: Run(evs[..|evs| - 1], s0) && Shape(s0) && Can(s0, evs[|evs| - 1]) && s == Next(s0, evs[|evs| - 1])
  }

  lemma {:induction false} RunInv(evs: seq<Event>, s: State)
    requires Run(evs, s)
    ensures Inv(s)
    decreases |evs|
  {
    if evs != [] {
      var s0 :| Run(evs[..|evs| - 1], s0) && Shape(s0) && Can(s0, evs[|evs| - 1]) && s == Next(s0, evs[|evs| - 1]);
      RunInv(evs[..|evs| - 1], s0);
      NextKeeps(s0, evs[|evs| - 1]);
    }
  }

  /** All bytes of the lines that no later erase takes back. */
  function KeptAll(lines: seq<seq<Byte>>): seq<Byte> {
    if lines == [] then [] else KeptAll(lines[..|lines| - 1]) + Kept(lines[|lines| - 1], 0)
  }

  lemma {:induction false} CookedIsKept(lines: seq<seq<Byte>>)
    ensures Cooked(lines) == KeptAll(lines)
  {
    if lines != [] {
      CookedIsKept(lines[..|lines| - 1]);
      EditedIsKept(lines[|lines| - 1], 0);
    }
  }

  /** What readers were given, and what is committed and unread, are the bytes typed in
      committed lines that were not erased, without end-of-file marks. */
  lemma {:induction false} Delivered(evs: seq<Event>, s: State)
    requires Run(evs, s)
    ensures s.r <= s.w <= |s.log| && s.out + Sans(s.log[s.r..s.w]) == Sans(KeptAll(s.lines))
  {
    hide Cooked, KeptAll, Edited, ReaderOk, Run, Sans;
    RunInv(evs, s);
    CookedIsKept(s.lines);
    SansAppend(s.log[..s.r], s.log[s.r..s.w]);
    assert s.log[..s.w] == s.log[..s.r] + s.log[s.r..s.w];
  }

  /** Lines are committed at once and one by one: nothing that waits to be committed has a newline
      or an end-of-file mark in it, and a committed line has one at most at its end. */
  lemma {:induction false} LineByLine(evs: seq<Event>, s: State)
    requires Run(evs, s)
    ensures CR !in s.line && NL !in s.line && EOF !in s.line
    ensures forall k :: 0 <= k < |s.lines| ==>
      var l := s.lines[k]; l != [] && CR !in l && NL !in l[..|l| - 1] && EOF !in l[..|l| - 1]
  {
    hide Run;
    RunInv(evs, s);
    forall k | 0 <= k < |s.lines| ensures LineOk(s.lines[k]) {
      assert LineOk(s.lines[k]);
    }
  }

  /** A full buffer can be read, so input never gets stuck. */
  lemma {:induction false} FullIsReadable(evs: seq<Event>, s: State)
    requires Run(evs, s) && |s.log| == s.r + INPUT_BUF
    ensures s.r < s.w == |s.log|
  {
    RunInv(evs, s);
  }

  /** Nobody sleeps while there is something to read and no wakeup is on its way. */
  lemma {:induction false} NoLostWakeup(evs: seq<Event>, s: State, i: nat)
    requires Run(evs, s) && i < |s.readers| && s.readers[i].asleep && s.r < s.w
    ensures s.wake
  {
    RunInv(evs, s);
  }

  /** A read that returned has at most one line, no end-of-file mark, and stopped because
      it was full, at the end of a line, or at an end-of-file mark that was typed. */
  lemma {:induction false} ReadReturns(evs: seq<Event>, s: State, i: nat)
    requires Run(evs, s) && i < |s.readers| && s.readers[i].done
    ensures var x := s.readers[i];
            && |x.got| <= x.want && EOF !in x.got && (forall k :: 0 <= k < |x.got| - 1 ==> x.got[k] != NL)
            && (|| |x.got| == x.want || (x.got != [] && x.got[|x.got| - 1] == NL)
                || (0 <= x.eof < |Cooked(s.lines)| && Cooked(s.lines)[x.eof] == EOF))
  {
    hide Cooked, Run;
    RunInv(evs, s);
    assert ReaderOk(s.readers[i]) && MarkOk(s, s.readers[i]);
  }

  /** A call of read that goes on until it sleeps or returns. */
  function Turns(s: State, i: nat): State
    requires Shape(s) && i < |s.readers|
    decreases if Can(s, Go(i)) then s.w - s.r + 1 else 0
  {
    if Can(s, Go(i)) then Turns(OnGo(s, i), i) else s
  }

  /** The turns of the transition system are read's loop. */
  lemma {:induction false} TurnsRead(s: State, i: nat)
    requires Shape(s) && i < |s.readers| && Can(s, Go(i)) && ReaderOk(s.readers[i])
    ensures var x, t := s.readers[i], Turns(s, i);
            && |t.readers| == |s.readers| && t.readers[i].asleep == !t.readers[i].done
            && (t.readers[i].got, t.readers[i].done, t.r) == Reading(s.log, s.r, s.w, x.want, x.got)
            && t.log == s.log && t.w == s.w
    decreases s.w - s.r
  {
    var x, s1 := s.readers[i], OnGo(s, i);
    if Can(s1, Go(i)) {
      TurnOk(x, s.log[s.r]);
      TurnsRead(s1, i);
    } else {
      assert Turns(s, i) == Turns(s1, i) == s1;
    }
  }
}
