/** exec's arguments: copied from the old address space, laid out on the new stack, and
    found there again by the program. */
module Argv {
  import opened Prelude
  import opened FsLayout
  import opened Sv39
  import opened PhysPages
  import opened PageTables
  import opened UserSpace
  import opened UserCopy

  const MAXARG := 16
  const MAXARGLEN := 128
  const WORD := 8

  // ---- Words in memory ------------------------------------------------------------------

  function Pow256(n: nat): nat { if n == 0 then 1 else 256 * Pow256(n - 1) }

  function Le(x: nat, n: nat): (b: seq<Byte>)
    ensures |b| == n
  {
    if n == 0 then [] else [LeByte(x, 0)] + Le(x / 256, n - 1)
  }

  function Value(b: seq<Byte>): nat { if b == [] then 0 else var b0: int := b[0]; b0 + 256 * Value(b[1..]) }

  /** A word read back is the word written. */
  lemma {:induction false} WordRoundTrip(x: nat, n: nat)
    requires x < Pow256(n)
    ensures Value(Le(x, n)) == x
  {
    if n > 0 {
      WordRoundTrip(x / 256, n - 1);
      assert Le(x, n)[1..] == Le(x / 256, n - 1);
      LowByte(x);
    }
  }

  lemma LowByte(x: nat)
    ensures LeByte(x, 0) as int == x % 256
  {
  }

  lemma WordSize()
    ensures Pow256(WORD) == 0x1_0000_0000_0000_0000
  {
    assert Pow256(1) == 256;
    assert Pow256(2) == 0x1_0000;
    assert Pow256(4) == 256 * Pow256(3) == 0x1_0000_0000;
    assert Pow256(6) == 256 * Pow256(5) == 0x1_0000_0000_0000;
    assert Pow256(8) == 256 * Pow256(7);
  }

  // ---- What argv looks like to a program ----------------------------------------------------

  ghost predicate Arg(s: seq<Byte>) { |s| < MAXARGLEN && 0 !in s }

  ghost predicate Args(args: seq<seq<Byte>>) { |args| <= MAXARG && forall i :: 0 <= i < |args| ==> Arg(args[i]) }

  /** The word at va is x. */
  ghost predicate WordAt(mem: Memory, sp: Space, va: nat, x: nat) { Shows(mem, sp, va, Le(x, WORD), R) }

  /** The eight bytes of a pointer in memory, the lowest first. */
  lemma WordBytes(x: nat)
    requires x < 0x1_0000_0000_0000_0000
    ensures var b: seq<int> := Le(x, WORD);
            x == b[0] + 0x100 * b[1] + 0x1_0000 * b[2] + 0x100_0000 * b[3] + 0x1_0000_0000 * b[4]
                 + 0x100_0000_0000 * b[5] + 0x1_0000_0000_0000 * b[6] + 0x100_0000_0000_0000 * b[7]
  {
    var b := Le(x, WORD);
    assert Pow256(4) == 0x1_0000_0000;
    assert Pow256(8) == 0x1_0000_0000_0000_0000;
    WordRoundTrip(x, WORD);
    hide Le, Pow256;
    assert b[7..][1..] == [] && b[6..][1..] == b[7..] && b[5..][1..] == b[6..] && b[4..][1..] == b[5..];
    assert b[3..][1..] == b[4..] && b[2..][1..] == b[3..] && b[1..][1..] == b[2..] && b[0..] == b;
    assert Value(b[7..]) == b[7] && Value(b[6..]) == b[6] + 256 * Value(b[7..]);
    assert Value(b[5..]) == b[5] + 256 * Value(b[6..]) && Value(b[4..]) == b[4] + 256 * Value(b[5..]);
    assert Value(b[3..]) == b[3] + 256 * Value(b[4..]) && Value(b[2..]) == b[2] + 256 * Value(b[3..]);
    assert Value(b[1..]) == b[1] + 256 * Value(b[2..]) && Value(b) == b[0] + 256 * Value(b[1..]);
  }

  /** Argument i: a pointer that is not null, to the string. */
  ghost predicate ArgAt(mem: Memory, sp: Space, argv: nat, i: nat, ptr: nat, s: seq<Byte>) {
    ptr != 0 && WordAt(mem, sp, argv + WORD * i, ptr) && StringAt(mem, sp, ptr, MAXARGLEN, s)
  }

  /** argv: the pointers to all arguments and a null pointer after them. */
  ghost predicate ArgvAt(mem: Memory, sp: Space, argv: nat, ptrs: seq<nat>, args: seq<seq<Byte>>) {
    && |ptrs| == |args| && WordAt(mem, sp, argv + WORD * |args|, 0)
    && forall i :: 0 <= i < |args| ==> ArgAt(mem, sp, argv, i, ptrs[i], args[i])
  }

  lemma {:induction false} ShownBytes(mem: Memory, sp: Space, va: nat, a: seq<Byte>, b: seq<Byte>)
    requires Shows(mem, sp, va, a, R) && Shows(mem, sp, va, b, R) && |a| == |b|
    ensures a == b
  {
    hide Peek;
    forall i | 0 <= i < |a| ensures a[i] == b[i] {
      assert Peek(mem, sp, va + i, R) == Some(a[i]) && Peek(mem, sp, va + i, R) == Some(b[i]);
    }
  }

  /** The arguments at an address are determined by memory: a program that follows the
      pointers finds these and no others. */
  lemma ArgsUnique(mem: Memory, sp: Space, argv: nat, ptrs: seq<nat>, args: seq<seq<Byte>>, ptrs': seq<nat>,
                   args': seq<seq<Byte>>)
    requires ArgvAt(mem, sp, argv, ptrs, args) && ArgvAt(mem, sp, argv, ptrs', args') && Words(ptrs) && Words(ptrs')
    ensures args == args'
  {
    hide StringAt, Shows;
    if |args| < |args'| {
      NotAfterNull(mem, sp, argv, ptrs, args, ptrs', args');
    } else if |args'| < |args| {
      NotAfterNull(mem, sp, argv, ptrs', args', ptrs, args);
    }
    forall i | 0 <= i < |args| ensures args[i] == args'[i] {
      assert ArgAt(mem, sp, argv, i, ptrs[i], args[i]) && ArgAt(mem, sp, argv, i, ptrs'[i], args'[i]);
      SameWord(mem, sp, argv + WORD * i, ptrs[i], ptrs'[i]);
      StringUnique(mem, sp, ptrs[i], MAXARGLEN, args[i], args'[i]);
    }
  }

  lemma SameWord(mem: Memory, sp: Space, va: nat, x: nat, y: nat)
    requires WordAt(mem, sp, va, x) && WordAt(mem, sp, va, y) && x < Pow256(WORD) && y < Pow256(WORD)
    ensures x == y
  {
    ShownBytes(mem, sp, va, Le(x, WORD), Le(y, WORD));
    WordRoundTrip(x, WORD);
    WordRoundTrip(y, WORD);
  }

  /** Pointers that are words. */
  ghost predicate Words(ptrs: seq<nat>) { forall i :: 0 <= i < |ptrs| ==> ptrs[i] < Pow256(WORD) }

  /** The first arguments at argv. */
  ghost predicate ArgsFrom(mem: Memory, sp: Space, argv: nat, ptrs: seq<nat>, args: seq<seq<Byte>>) {
    |ptrs| == |args| && forall i :: 0 <= i < |args| ==> ArgAt(mem, sp, argv, i, ptrs[i], args[i])
  }

  /** The null pointer ends the array: no more arguments than that are there. */
  lemma NotAfterNull(mem: Memory, sp: Space, argv: nat, ptrs: seq<nat>, args: seq<seq<Byte>>, ptrs': seq<nat>,
                     args': seq<seq<Byte>>)
    requires ArgvAt(mem, sp, argv, ptrs, args) && ArgsFrom(mem, sp, argv, ptrs', args') && Words(ptrs')
    ensures |args'| <= |args|
  {
    hide StringAt, Shows;
    forall i | 0 <= i < |args'| ensures !WordAt(mem, sp, argv + WORD * i, 0) {
      assert ArgAt(mem, sp, argv, i, ptrs'[i], args'[i]);
      if WordAt(mem, sp, argv + WORD * i, 0) { SameWord(mem, sp, argv + WORD * i, ptrs'[i], 0); }
    }
  }

  // ---- push_argv ------------------------------------------------------------------------------

  /** What is seen somewhere stays seen when something is written elsewhere. */
  lemma ShowsKept(mem: Memory, mem': Memory, sp: Space, va: nat, bytes: seq<Byte>, va': nat, bytes': seq<Byte>)
    requires Shows(mem, sp, va, bytes, R) && Poked(mem, mem', sp, va', bytes')
    requires va + |bytes| <= va' || va' + |bytes'| <= va
    ensures Shows(mem', sp, va, bytes, R)
  {
    hide Peek;
  }

  lemma AllowedKept(mem: Memory, mem': Memory, sp: Space, va: nat, n: nat, perm: bv10, va': nat, bytes': seq<Byte>)
    requires Allowed(mem, sp, va, n, perm) && Poked(mem, mem', sp, va', bytes')
    ensures Allowed(mem', sp, va, n, perm)
  {
    hide Peek;
  }

  lemma AllowedPart(mem: Memory, sp: Space, va: nat, n: nat, perm: bv10, va': nat, n': nat)
    requires Allowed(mem, sp, va, n, perm) && va <= va' && va' + n' <= va + n
    ensures Allowed(mem, sp, va', n', perm)
  {
    hide Peek;
  }

  lemma PokedShows(mem: Memory, mem': Memory, sp: Space, va: nat, bytes: seq<Byte>)
    requires Allowed(mem, sp, va, |bytes|, R) && Poked(mem, mem', sp, va, bytes)
    ensures Shows(mem', sp, va, bytes, R)
  {
    hide Peek;
  }

  /** The page [bottom, bottom + PGSIZE) can be read and written. */
  ghost predicate Stack(mem: Memory, sp: Space, bottom: nat) {
    Allowed(mem, sp, bottom, PGSIZE, R) && Allowed(mem, sp, bottom, PGSIZE, W)
  }

  /** copyout into the stack page always succeeds. */
  method Push(m: Machine, root: nat, bottom: nat, va: nat, bytes: seq<Byte>) returns (ok: bool)
    requires Valid(m) && root in m.spaces && Stack(m.mem, m.spaces[root], bottom)
    requires bottom <= va && va + |bytes| <= bottom + PGSIZE
    modifies m
    ensures Valid(m) && ok && m.own == old(m.own) && m.spaces == old(m.spaces)
    ensures Stack(m.mem, m.spaces[root], bottom) && Shows(m.mem, m.spaces[root], va, bytes, R)
    ensures Poked(old(m.mem), m.mem, m.spaces[root], va, bytes)
  {
    hide Valid, Allowed, Poked, Shows;
    ghost var mem, sp := m.mem, m.spaces[root];
    AllowedPart(mem, sp, bottom, PGSIZE, R, va, |bytes|);
    AllowedPart(mem, sp, bottom, PGSIZE, W, va, |bytes|);
    ghost var k;
    ok, k := Copyout(m, root, va, bytes);
    assert bytes[..k] == bytes;
    PokedShows(mem, m.mem, sp, va, bytes);
    AllowedKept(mem, m.mem, sp, bottom, PGSIZE, R, va, bytes);
    AllowedKept(mem, m.mem, sp, bottom, PGSIZE, W, va, bytes);
  }

  /** Bytes that strings with their NULs take. */
  function Total(args: seq<seq<Byte>>): nat { if args == [] then 0 else |args[0]| + 1 + Total(args[1..]) }

  lemma {:induction false} TotalBound(args: seq<seq<Byte>>)
    requires forall i :: 0 <= i < |args| ==> Arg(args[i])
    ensures Total(args) <= MAXARGLEN * |args|
  {
    if args != [] {
      assert Arg(args[0]);
      assert forall i :: 0 <= i < |args[1..]| ==> args[1..][i] == args[i + 1];
      TotalBound(args[1..]);
    }
  }

  /** String j is where its pointer says, at or above `low`. */
  ghost predicate Pushed(mem: Memory, sp: Space, ptr: nat, s: seq<Byte>, low: nat, top: nat) {
    low <= ptr && ptr + |s| + 1 <= top && Shows(mem, sp, ptr, s + [0], R)
  }

  lemma PushedKept(mem: Memory, mem': Memory, sp: Space, ptr: nat, s: seq<Byte>, low: nat, top: nat, va: nat,
                   bytes: seq<Byte>, low': nat)
    requires Pushed(mem, sp, ptr, s, low, top) && Poked(mem, mem', sp, va, bytes) && va + |bytes| <= low && low' <= low
    ensures Pushed(mem', sp, ptr, s, low', top)
  {
    hide Poked, Shows;
    ShowsKept(mem, mem', sp, ptr, s + [0], va, bytes);
  }

  /** From number i on the strings lie one above the other, at or above `low`. */
  ghost predicate Apart(ptrs: seq<nat>, args: seq<seq<Byte>>, i: nat, low: nat) {
    && |ptrs| == |args|
    && (forall j :: i <= j < |args| ==> low <= ptrs[j])
    && (forall j, k :: i <= j < k < |args| ==> ptrs[j] + |args[j]| + 1 <= ptrs[k])
  }

  lemma ApartMore(ptrs: seq<nat>, args: seq<seq<Byte>>, i: nat, low: nat, ptr: nat)
    requires Apart(ptrs, args, i + 1, low) && i < |args| && ptr + |args[i]| + 1 == low
    ensures Apart(ptrs[i := ptr], args, i, ptr)
  {
  }

  /** The strings, last first, downwards from the top of the stack. */
  method PushStrings(m: Machine, root: nat, top: nat, args: seq<seq<Byte>>) returns (ok: bool, low: nat, ptrs: seq<nat>)
    requires Valid(m) && root in m.spaces && top >= PGSIZE && Stack(m.mem, m.spaces[root], top - PGSIZE) && Args(args)
    modifies m
    ensures Valid(m) && ok && m.own == old(m.own) && m.spaces == old(m.spaces)
    ensures Stack(m.mem, m.spaces[root], top - PGSIZE)
    ensures low <= top && low + MAXARGLEN * MAXARG >= top && |ptrs| == |args|
    ensures forall j :: 0 <= j < |args| ==> Pushed(m.mem, m.spaces[root], ptrs[j], args[j], low, top)
    ensures Apart(ptrs, args, 0, low)
  {
    hide Valid, Stack, Poked, Pushed, Shows, Apart;
    var sp: nat, i: nat := top, |args|;
    ghost var space := m.spaces[root];
    ptrs := seq(|args|, _ => 0);
    assert Apart(ptrs, args, |args|, top) by { ApartNone(ptrs, args, top); }
    TotalBound(args);
    while i > 0
      invariant 0 <= i <= |args| && |ptrs| == |args| && Valid(m) && m.own == old(m.own) && m.spaces == old(m.spaces)
      invariant Stack(m.mem, space, top - PGSIZE) && sp + Total(args[i..]) == top
      invariant forall j :: i <= j < |args| ==> Pushed(m.mem, space, ptrs[j], args[j], sp, top)
      invariant Apart(ptrs, args, i, sp)
    {
      i := i - 1;
      assert Arg(args[i]);
      assert args[i..] == [args[i]] + args[i + 1..];
      TotalPart(args, i);
      var len := |args[i]| + 1;
      ghost var mem, low1 := m.mem, sp;
      sp := sp - len;
      ok := Push(m, root, top - PGSIZE, sp, args[i] + [0]);
      ApartMore(ptrs, args, i, low1, sp);
      ptrs := ptrs[i := sp];
      forall j | i <= j < |args| ensures Pushed(m.mem, space, ptrs[j], args[j], sp, top) {
        if j > i {
          PushedKept(mem, m.mem, space, ptrs[j], args[j], low1, top, sp, args[i] + [0], sp);
        } else {
          PushedNew(m.mem, space, sp, args[i], top);
        }
      }
    }
    assert args[0..] == args;
    return true, sp, ptrs;
  }

  lemma ApartNone(ptrs: seq<nat>, args: seq<seq<Byte>>, low: nat)
    requires |ptrs| == |args|
    ensures Apart(ptrs, args, |args|, low)
  {
  }

  lemma PushedNew(mem: Memory, sp: Space, ptr: nat, s: seq<Byte>, top: nat)
    requires Shows(mem, sp, ptr, s + [0], R) && ptr + |s| + 1 <= top
    ensures Pushed(mem, sp, ptr, s, ptr, top)
  {
  }

  lemma TotalPart(args: seq<seq<Byte>>, i: nat)
    requires Args(args) && i < |args|
    ensures Total(args[i..]) <= MAXARGLEN * MAXARG && Total(args[i..]) == |args[i]| + 1 + Total(args[i + 1..])
  {
    assert args[i..][1..] == args[i + 1..];
    assert forall j :: 0 <= j < |args[i..]| ==> args[i..][j] == args[i + j];
    TotalBound(args[i..]);
  }

  function AlignDown16(x: nat): (y: nat)
    ensures y <= x < y + 16 && y % 16 == 0
  {
    x - x % 16
  }

  /** push_argv never fails: sp is 16-byte aligned inside the page, argv is at sp, and a
      program finds there the arguments, null-terminated, none overlapping another. */
  method PushArgv(m: Machine, root: nat, top: nat, args: seq<seq<Byte>>) returns (r: Option<(nat, nat)>,
                  ghost ptrs: seq<nat>)
    requires Valid(m) && root in m.spaces && PGSIZE <= top <= MAXVA && Stack(m.mem, m.spaces[root], top - PGSIZE)
    requires Args(args)
    modifies m
    ensures Valid(m) && m.own == old(m.own) && m.spaces == old(m.spaces) && r.Some?
    ensures var (sp, argv) := r.value;
            && sp == argv && sp % 16 == 0 && top - PGSIZE < sp <= top && |ptrs| == |args|
            && ArgvAt(m.mem, m.spaces[root], argv, ptrs, args) && Words(ptrs)
            && (forall i :: 0 <= i < |args| ==> argv + WORD * (|args| + 1) <= ptrs[i] && ptrs[i] + |args[i]| + 1 <= top)
            && forall i, j :: 0 <= i < j < |args| ==> ptrs[i] + |args[i]| + 1 <= ptrs[j]
  {
    hide Valid, Stack, Poked, Pushed, Shows, WordAt, ArgvAt, Apart;
    ghost var space := m.spaces[root];
    var ok, low, ps := PushStrings(m, root, top, args);
    ptrs := ps;
    var bytes := (|args| + 1) * WORD;
    var sp := AlignDown16(low - bytes);
    var n := |args|;
    var i := 0;
    while i <= n
      invariant 0 <= i <= n + 1 && Valid(m) && m.own == old(m.own) && m.spaces == old(m.spaces)
      invariant Stack(m.mem, space, top - PGSIZE)
      invariant forall j :: 0 <= j < n ==> Pushed(m.mem, space, ps[j], args[j], low, top)
      invariant forall j :: 0 <= j < i ==> Slot(m.mem, space, sp, j, ps)
    {
      ghost var mem := m.mem;
      var word := Le(WordOf(ps, i), WORD);
      ok := Push(m, root, top - PGSIZE, sp + WORD * i, word);
      forall j | 0 <= j < n ensures Pushed(m.mem, space, ps[j], args[j], low, top) {
        PushedKept(mem, m.mem, space, ps[j], args[j], low, top, sp + WORD * i, word, low);
      }
      forall j | 0 <= j < i + 1 ensures Slot(m.mem, space, sp, j, ps) {
        if j < i {
          SlotKept(mem, m.mem, space, sp, j, ps, i, word);
        } else {
          SlotNew(m.mem, space, sp, i, ps);
        }
      }
      i := i + 1;
    }
    AllThere(m.mem, space, sp, ps, args, low, top);
    NoOverlap(ps, args, low);
    WordSize();
    return Some((sp, sp)), ptrs;
  }

  lemma NoOverlap(ptrs: seq<nat>, args: seq<seq<Byte>>, low: nat)
    requires Apart(ptrs, args, 0, low)
    ensures |ptrs| == |args| && forall i, j :: 0 <= i < j < |args| ==> ptrs[i] + |args[i]| + 1 <= ptrs[j]
  {
  }

  /** Entry j of the array. */
  ghost predicate Slot(mem: Memory, sp: Space, argv: nat, j: nat, ptrs: seq<nat>) {
    WordAt(mem, sp, argv + WORD * j, WordOf(ptrs, j))
  }

  function WordOf(ptrs: seq<nat>, j: nat): nat { if j < |ptrs| then ptrs[j] else 0 }

  lemma SlotKept(mem: Memory, mem': Memory, sp: Space, argv: nat, j: nat, ptrs: seq<nat>, i: nat, word: seq<Byte>)
    requires Slot(mem, sp, argv, j, ptrs) && Poked(mem, mem', sp, argv + WORD * i, word) && j < i
    ensures Slot(mem', sp, argv, j, ptrs)
  {
    hide Poked, Shows;
    ShowsKept(mem, mem', sp, argv + WORD * j, Le(WordOf(ptrs, j), WORD), argv + WORD * i, word);
  }

  lemma SlotNew(mem: Memory, sp: Space, argv: nat, i: nat, ptrs: seq<nat>)
    requires Shows(mem, sp, argv + WORD * i, Le(WordOf(ptrs, i), WORD), R)
    ensures Slot(mem, sp, argv, i, ptrs)
  {
  }

  lemma AllThere(mem: Memory, sp: Space, argv: nat, ptrs: seq<nat>, args: seq<seq<Byte>>, low: nat, top: nat)
    requires |ptrs| == |args| && Args(args) && argv + WORD * (|args| + 1) <= low
    requires forall j :: 0 <= j < |args| ==> Pushed(mem, sp, ptrs[j], args[j], low, top)
    requires forall j :: 0 <= j < |args| + 1 ==> Slot(mem, sp, argv, j, ptrs)
    ensures ArgvAt(mem, sp, argv, ptrs, args)
    ensures forall i :: 0 <= i < |args| ==> argv + WORD * (|args| + 1) <= ptrs[i] && ptrs[i] + |args[i]| + 1 <= top
  {
    hide Shows;
    assert Slot(mem, sp, argv, |args|, ptrs);
    forall i | 0 <= i < |args|
      ensures ArgAt(mem, sp, argv, i, ptrs[i], args[i])
      ensures argv + WORD * (|args| + 1) <= ptrs[i] && ptrs[i] + |args[i]| + 1 <= top
    {
      assert Slot(mem, sp, argv, i, ptrs) && Pushed(mem, sp, ptrs[i], args[i], low, top) && Arg(args[i]);
    }
  }

  // ---- copy_argv ------------------------------------------------------------------------------

  /** copy_argv: the arguments at argv, or None; at least one and at most MAXARG. */
  method CopyArgv(m: Machine, root: nat, argv: nat) returns (r: Option<seq<seq<Byte>>>, ghost ptrs: seq<nat>)
    requires Valid(m) && root in m.spaces
    modifies m
    ensures Valid(m) && Same(m)
    ensures r.Some? ==>
      0 < |r.value| && Args(r.value) && Words(ptrs) && ArgvAt(m.mem, m.spaces[root], argv, ptrs, r.value)
    ensures r.None? ==> argv == 0 || NoArgv(m.mem, m.spaces[root], argv)
  {
    hide Valid, Shows, StringAt, Allowed, NoArgv;
    var args := [];
    ptrs := [];
    if argv == 0 {
      return None, [];
    }
    ghost var sp, mem := m.spaces[root], m.mem;
    while true
      invariant Valid(m) && Same(m) && Args(args) && ArgsFrom(mem, sp, argv, ptrs, args) && Words(ptrs)
      decreases MAXARG - |args|
    {
      var w := Copyin(m, root, WORD, argv + WORD * |args|);
      if w.None? {
        NoWord(mem, sp, argv, ptrs, args);
        return None, [];
      }
      var va := Value(w.value);
      LeValue(w.value);
      ValueBound(w.value);
      assert WordAt(mem, sp, argv + WORD * |args|, va);
      if va == 0 {
        if args == [] {
          AtOnceNull(mem, sp, argv);
          return None, [];
        }
        return Some(args), ptrs;
      }
      if |args| >= MAXARG {
        OneMore(mem, sp, argv, ptrs, args, va);
        return None, [];
      }
      var s := Copyinstr(m, root, MAXARGLEN, va);
      if s.None? {
        OneMore(mem, sp, argv, ptrs, args, va);
        return None, [];
      }
      ShowsString(mem, sp, va, MAXARGLEN, s.value);
      args, ptrs := args + [s.value], ptrs + [va];
    }
    return None, [];
  }

  /** No array of arguments that exec would take is at argv. */
  ghost predicate NoArgv(mem: Memory, sp: Space, argv: nat) {
    forall ptrs, args :: Args(args) && args != [] && Words(ptrs) ==> !ArgvAt(mem, sp, argv, ptrs, args)
  }

  /** A word that cannot be read. */
  lemma NoWord(mem: Memory, sp: Space, argv: nat, ptrs: seq<nat>, args: seq<seq<Byte>>)
    requires ArgsFrom(mem, sp, argv, ptrs, args) && Words(ptrs) && !Allowed(mem, sp, argv + WORD * |args|, WORD, R)
    ensures NoArgv(mem, sp, argv)
  {
    hide StringAt, Shows, Allowed;
    forall ptrs', args' | Args(args') && args' != [] && Words(ptrs') ensures !ArgvAt(mem, sp, argv, ptrs', args') {
      if ArgvAt(mem, sp, argv, ptrs', args') {
        NotAfterNull(mem, sp, argv, ptrs', args', ptrs, args);
        WordThere(mem, sp, argv, ptrs', args', |args|);
      }
    }
  }

  lemma WordThere(mem: Memory, sp: Space, argv: nat, ptrs: seq<nat>, args: seq<seq<Byte>>, n: nat)
    requires ArgvAt(mem, sp, argv, ptrs, args) && n <= |args|
    ensures Allowed(mem, sp, argv + WORD * n, WORD, R)
  {
    hide Shows, StringAt, Allowed;
    if n < |args| {
      assert ArgAt(mem, sp, argv, n, ptrs[n], args[n]);
      ShowsAllowed(mem, sp, argv + WORD * n, Le(ptrs[n], WORD), R);
    } else {
      ShowsAllowed(mem, sp, argv + WORD * n, Le(0, WORD), R);
    }
  }

  lemma AtOnceNull(mem: Memory, sp: Space, argv: nat)
    requires WordAt(mem, sp, argv, 0)
    ensures NoArgv(mem, sp, argv)
  {
    hide StringAt, Shows;
    forall ptrs, args | Args(args) && args != [] && Words(ptrs) ensures !ArgvAt(mem, sp, argv, ptrs, args) {
      if ArgvAt(mem, sp, argv, ptrs, args) {
        FirstArg(mem, sp, argv, ptrs, args);
        SameWord(mem, sp, argv, ptrs[0], 0);
      }
    }
  }

  lemma FirstArg(mem: Memory, sp: Space, argv: nat, ptrs: seq<nat>, args: seq<seq<Byte>>)
    requires ArgvAt(mem, sp, argv, ptrs, args) && args != []
    ensures ptrs != [] && ptrs[0] != 0 && WordAt(mem, sp, argv, ptrs[0])
  {
    hide Shows, StringAt;
    assert ArgAt(mem, sp, argv, 0, ptrs[0], args[0]);
  }

  /** There is one more pointer, but no room for it or no string. */
  lemma OneMore(mem: Memory, sp: Space, argv: nat, ptrs: seq<nat>, args: seq<seq<Byte>>, va: nat)
    requires ArgsFrom(mem, sp, argv, ptrs, args) && Words(ptrs) && 0 < va < Pow256(WORD)
    requires WordAt(mem, sp, argv + WORD * |args|, va)
    requires |args| >= MAXARG || forall s :: !StringAt(mem, sp, va, MAXARGLEN, s)
    ensures NoArgv(mem, sp, argv)
  {
    hide StringAt, Shows;
    forall ptrs', args' | Args(args') && args' != [] && Words(ptrs') ensures !ArgvAt(mem, sp, argv, ptrs', args') {
      if ArgvAt(mem, sp, argv, ptrs', args') {
        NotAfterNull(mem, sp, argv, ptrs', args', ptrs, args);
        NextArg(mem, sp, argv, ptrs', args', |args|, va);
      }
    }
  }

  lemma NextArg(mem: Memory, sp: Space, argv: nat, ptrs: seq<nat>, args: seq<seq<Byte>>, n: nat, va: nat)
    requires ArgvAt(mem, sp, argv, ptrs, args) && Words(ptrs) && n <= |args|
    requires WordAt(mem, sp, argv + WORD * n, va) && 0 < va < Pow256(WORD)
    ensures n < |args| && StringAt(mem, sp, va, MAXARGLEN, args[n])
  {
    hide Shows, StringAt;
    if n == |args| {
      WordSize();
      SameWord(mem, sp, argv + WORD * n, va, 0);
    } else {
      assert ArgAt(mem, sp, argv, n, ptrs[n], args[n]);
      SameWord(mem, sp, argv + WORD * n, va, ptrs[n]);
    }
  }

  lemma {:induction false} ValueBound(b: seq<Byte>)
    ensures Value(b) < Pow256(|b|)
  {
    if b != [] {
      ValueBound(b[1..]);
    }
  }

  /** Bytes are the word of their value. */
  lemma {:induction false} LeValue(b: seq<Byte>)
    ensures Le(Value(b), |b|) == b
  {
    if b != [] {
      LeValue(b[1..]);
      var b0: int := b[0];
      ValueSplit(b0, Value(b[1..]));
      LowByte(Value(b));
    }
  }

  lemma ValueSplit(lo: nat, hi: nat)
    requires lo < 256
    ensures (lo + 256 * hi) % 256 == lo && (lo + 256 * hi) / 256 == hi
  {
  }

  /** exec's arguments end to end: what the old address space had at argv is what the new
      program finds at the address it is given. */
  method ExecArgs(m: Machine, src: nat, dst: nat, top: nat, argv: nat)
    returns (r: Option<(nat, nat)>, ghost args: seq<seq<Byte>>, ghost old_: seq<nat>, ghost new_: seq<nat>)
    requires Valid(m) && src in m.spaces && dst in m.spaces && PGSIZE <= top <= MAXVA
    requires Stack(m.mem, m.spaces[dst], top - PGSIZE)
    modifies m
    ensures Valid(m) && m.own == old(m.own) && m.spaces == old(m.spaces)
    ensures r.None? ==> m.mem == old(m.mem) && (argv == 0 || NoArgv(m.mem, m.spaces[src], argv))
    ensures r.Some? ==>
      && args != [] && Args(args) && Words(old_) && Words(new_)
      && ArgvAt(old(m.mem), m.spaces[src], argv, old_, args) && ArgvAt(m.mem, m.spaces[dst], r.value.1, new_, args)
      && r.value.0 == r.value.1 && r.value.0 % 16 == 0 && top - PGSIZE < r.value.0 <= top && |new_| == |args|
      && (forall i :: 0 <= i < |args| ==>
            r.value.1 + WORD * (|args| + 1) <= new_[i] && new_[i] + |args[i]| + 1 <= top)
      && forall i, j :: 0 <= i < j < |args| ==> new_[i] + |args[i]| + 1 <= new_[j]
  {
    hide Valid, ArgvAt, Stack, NoArgv, Words, Args;
    args, new_ := [], [];
    var copied;
    copied, old_ := CopyArgv(m, src, argv);
    if copied.None? {
      r := None;
      return;
    }
    args := copied.value;
    r, new_ := PushArgv(m, dst, top, copied.value);
  }
}
