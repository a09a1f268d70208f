/** copyin, copyinstr and copyout: bytes at user addresses, and why one address space
    never sees what is written into another. */
module UserCopy {
  import opened Prelude
  import opened FsLayout
  import opened Sv39
  import opened PhysPages
  import opened PageTables
  import opened UserSpace

  const MAXVA := MAXVPN * PGSIZE

  /** The byte a user with permission `perm` sees at address x. */
  ghost function Peek(mem: Memory, sp: Space, x: nat, perm: bv10): Option<Byte> {
    var e := UserEntry(sp, x / PGSIZE, perm);
    if e.Some? && e.value.ppn in mem && mem[e.value.ppn].Data? && x % PGSIZE < |mem[e.value.ppn].bytes|
    then Some(mem[e.value.ppn].bytes[x % PGSIZE]) else None
  }

  /** What Peek sees: the byte at that address, if its page grants the permission. */
  lemma PeekIs(m: Machine, root: nat, x: nat, perm: bv10)
    requires Valid(m) && root in m.spaces
    ensures var flat := m.spaces[root].flat;
            var f := if Grants(flat, x / PGSIZE, perm) then flat[PlaceOf(x / PGSIZE)].ppn else 0;
            if Grants(flat, x / PGSIZE, perm) then
              && f in m.mem && m.mem[f].Data? && |m.mem[f].bytes| == PGSIZE
              && Peek(m.mem, m.spaces[root], x, perm) == Some(m.mem[f].bytes[x % PGSIZE])
            else Peek(m.mem, m.spaces[root], x, perm) == None
  {
    hide UserEntry, Grants, PlaceOf, Valid;
    EntryGrants(m.spaces[root], x / PGSIZE, perm);
    if UserEntry(m.spaces[root], x / PGSIZE, perm).Some? {
      EntryPage(m, root, x / PGSIZE, perm);
    }
  }

  /** The flags of the page at x let the user read, or write: U with R, U with W. */
  ghost predicate MayRead(sp: Space, x: nat) { Grants(sp.flat, x / PGSIZE, 0x12) }

  ghost predicate MayWrite(sp: Space, x: nat) { Grants(sp.flat, x / PGSIZE, 0x14) }

  ghost predicate MayUse(sp: Space, x: nat) { Grants(sp.flat, x / PGSIZE, 0x10) }

  /** The byte of the page at x. */
  ghost function ByteAt(mem: Memory, sp: Space, x: nat): (b: int) {
    var q := PlaceOf(x / PGSIZE);
    if q in sp.flat && sp.flat[q].ppn in mem && mem[sp.flat[q].ppn].Data? && x % PGSIZE < |mem[sp.flat[q].ppn].bytes|
    then mem[sp.flat[q].ppn].bytes[x % PGSIZE] else -1
  }

  lemma GrantsBoth(flat: map<Place, Pte>, vpn: nat)
    ensures Grants(flat, vpn, 0x12) <==> Grants(flat, vpn, R)
    ensures Grants(flat, vpn, 0x14) <==> Grants(flat, vpn, W)
  {
    hide PlaceOf;
  }

  lemma PeekMay(m: Machine, root: nat, x: nat)
    requires Valid(m) && root in m.spaces
    ensures var sp := m.spaces[root];
            && (MayRead(sp, x) <==> Peek(m.mem, sp, x, R).Some?) && (MayWrite(sp, x) <==> Peek(m.mem, sp, x, W).Some?)
            && (MayRead(sp, x) ==> Peek(m.mem, sp, x, R).value == ByteAt(m.mem, sp, x))
            && (MayWrite(sp, x) ==> Peek(m.mem, sp, x, W).value == ByteAt(m.mem, sp, x))
  {
    hide Valid, Grants, Peek, PlaceOf;
    GrantsBoth(m.spaces[root].flat, x / PGSIZE);
    PeekIs(m, root, x, R);
    PeekIs(m, root, x, W);
    GrantsIn(m.spaces[root].flat, x / PGSIZE, R);
    GrantsIn(m.spaces[root].flat, x / PGSIZE, W);
  }

  lemma PeekUse(m: Machine, root: nat, x: nat)
    requires Valid(m) && root in m.spaces
    ensures var sp := m.spaces[root];
            && (MayUse(sp, x) <==> Peek(m.mem, sp, x, 0x10).Some?)
            && (MayUse(sp, x) ==> Peek(m.mem, sp, x, 0x10).value == ByteAt(m.mem, sp, x))
  {
    hide Valid, Grants, Peek, PlaceOf;
    PeekIs(m, root, x, 0x10);
    GrantsIn(m.spaces[root].flat, x / PGSIZE, 0x10);
  }

  lemma GrantsIn(flat: map<Place, Pte>, vpn: nat, perm: bv10)
    ensures Grants(flat, vpn, perm) ==> PlaceOf(vpn) in flat
  {
    hide PlaceOf;
  }

  lemma GrantsAll(flat: map<Place, Pte>, vpn: nat)
    requires vpn < MAXVPN && PlaceOf(vpn) in flat && flat[PlaceOf(vpn)].flags == 0xD7
    ensures Grants(flat, vpn, 0x12) && Grants(flat, vpn, 0x14)
  {
    hide PlaceOf;
  }

  /** The user may read and write a page that the heap grew by, and finds zeros there. */
  lemma ZerosSeen(mem: Memory, sp: Space, x: nat)
    requires x / PGSIZE < MAXVPN && ZeroPage(mem, sp.flat, x / PGSIZE)
    ensures MayRead(sp, x) && MayWrite(sp, x) && ByteAt(mem, sp, x) == 0
  {
    hide PlaceOf, Grants;
    GrantsAll(sp.flat, x / PGSIZE);
  }

  lemma AllowedMay(m: Machine, root: nat, va: nat, n: nat)
    requires Valid(m) && root in m.spaces
    ensures var sp := m.spaces[root];
            && (Allowed(m.mem, sp, va, n, R) <==> forall x :: va <= x < va + n ==> MayRead(sp, x))
            && (Allowed(m.mem, sp, va, n, W) <==> forall x :: va <= x < va + n ==> MayWrite(sp, x))
  {
    hide Valid, Peek, MayRead, MayWrite;
    forall x: nat ensures MayRead(m.spaces[root], x) <==> Peek(m.mem, m.spaces[root], x, R).Some? {
      PeekMay(m, root, x);
    }
    forall x: nat ensures MayWrite(m.spaces[root], x) <==> Peek(m.mem, m.spaces[root], x, W).Some? {
      PeekMay(m, root, x);
    }
  }

  lemma ShowsMay(m: Machine, root: nat, va: nat, bytes: seq<Byte>)
    requires Valid(m) && root in m.spaces
    ensures var sp := m.spaces[root];
            Shows(m.mem, sp, va, bytes, R) <==>
              forall x :: va <= x < va + |bytes| ==> MayRead(sp, x) && ByteAt(m.mem, sp, x) == bytes[x - va]
  {
    hide Valid, Peek, MayRead, MayWrite, ByteAt;
    forall x: nat
      ensures MayRead(m.spaces[root], x) <==> Peek(m.mem, m.spaces[root], x, R).Some?
      ensures MayRead(m.spaces[root], x) ==>
        Peek(m.mem, m.spaces[root], x, R).value == ByteAt(m.mem, m.spaces[root], x)
    {
      PeekMay(m, root, x);
    }
  }

  lemma PageOf(x: nat, i: nat)
    requires x % PGSIZE + i < PGSIZE
    ensures (x + i) / PGSIZE == x / PGSIZE && (x + i) % PGSIZE == x % PGSIZE + i
  {
  }

  lemma InPage(x: nat, n: nat, y: nat)
    requires x % PGSIZE + n <= PGSIZE && x <= y < x + n
    ensures y / PGSIZE == x / PGSIZE && y % PGSIZE == x % PGSIZE + (y - x)
  {
    PageOf(x, y - x);
  }

  lemma OffsetIn(x: nat, y: nat)
    requires x / PGSIZE == y / PGSIZE
    ensures y - x == y % PGSIZE - x % PGSIZE
  {
  }

  /** An address below MAXVA is in a page below MAXVPN. */
  lemma BelowMax(x: nat)
    ensures x < MAXVA <==> x / PGSIZE < MAXVPN
  {
  }

  /** The user entry found for a page, with its frame. */
  lemma EntryPage(m: Machine, root: nat, vpn: nat, perm: bv10)
    requires Valid(m) && root in m.spaces && UserEntry(m.spaces[root], vpn, perm).Some?
    ensures var pte := UserEntry(m.spaces[root], vpn, perm).value;
            && pte.ppn in m.mem && pte.ppn in m.own && m.own[pte.ppn] == Of(root, PlaceOf(vpn)) && vpn < MAXVPN
            && m.mem[pte.ppn].Data? && |m.mem[pte.ppn].bytes| == PGSIZE
  {
    hide PlaceOf;
    UserPage(m, root, vpn);
  }

  lemma PeekIn(m: Machine, root: nat, x: nat, perm: bv10)
    requires Valid(m) && root in m.spaces
    ensures Peek(m.mem, m.spaces[root], x, perm).Some? <==> UserEntry(m.spaces[root], x / PGSIZE, perm).Some?
  {
    hide UserEntry;
    if UserEntry(m.spaces[root], x / PGSIZE, perm).Some? {
      EntryPage(m, root, x / PGSIZE, perm);
    }
  }

  function Least(a: nat, b: nat): nat { if a <= b then a else b }

  /** Every address of [va, va + n) is a user address with permission `perm`. */
  ghost predicate Allowed(mem: Memory, sp: Space, va: nat, n: nat, perm: bv10) {
    forall x :: va <= x < va + n ==> Peek(mem, sp, x, perm).Some?
  }

  /** A user with permission `perm` sees `bytes` from va on. */
  ghost predicate Shows(mem: Memory, sp: Space, va: nat, bytes: seq<Byte>, perm: bv10) {
    forall x :: va <= x < va + |bytes| ==> Peek(mem, sp, x, perm) == Some(bytes[x - va])
  }

  lemma NotAllowed(mem: Memory, sp: Space, va: nat, n: nat, perm: bv10, x: nat)
    requires va <= x < va + n && Peek(mem, sp, x, perm).None?
    ensures !Allowed(mem, sp, va, n, perm)
  {
  }

  lemma ShowsAllowed(mem: Memory, sp: Space, va: nat, bytes: seq<Byte>, perm: bv10)
    requires Shows(mem, sp, va, bytes, perm)
    ensures Allowed(mem, sp, va, |bytes|, perm)
  {
  }

  lemma ShowsMore(mem: Memory, sp: Space, va: nat, bytes: seq<Byte>, k: nat, perm: bv10)
    requires Shows(mem, sp, va, bytes, perm) && var x := va + |bytes|;
      x % PGSIZE + k <= PGSIZE && UserEntry(sp, x / PGSIZE, perm).Some?
    requires var f := UserEntry(sp, (va + |bytes|) / PGSIZE, perm).value.ppn;
      f in mem && mem[f].Data? && |mem[f].bytes| == PGSIZE
    ensures var x := va + |bytes|;
            var f := UserEntry(sp, x / PGSIZE, perm).value.ppn;
            Shows(mem, sp, va, bytes + mem[f].bytes[x % PGSIZE..x % PGSIZE + k], perm)
  {
    hide UserEntry, Peek;
    var x := va + |bytes|;
    forall y | x <= y < x + k
      ensures Peek(mem, sp, y, perm) == Some(mem[UserEntry(sp, x / PGSIZE, perm).value.ppn].bytes[x % PGSIZE + (y - x)])
    {
      PeekAt(mem, sp, x, y - x, perm);
    }
  }

  /** Nothing but what the walk may have cached changed: nothing at all. */
  twostate predicate Same(m: Machine)
    reads m
  {
    m.mem == old(m.mem) && m.own == old(m.own) && m.spaces == old(m.spaces) && m.free == old(m.free) &&
      m.head == old(m.head)
  }

  /** copyin: all the bytes, or None exactly when the user may not read some of the pages. */
  method Copyin(m: Machine, root: nat, n: nat, va: nat) returns (r: Option<seq<Byte>>)
    requires Valid(m) && root in m.spaces
    modifies m
    ensures Valid(m) && Same(m)
    ensures r.Some? <==> forall x :: va <= x < va + n ==> MayRead(m.spaces[root], x)
    ensures r.Some? ==> |r.value| == n && forall x :: va <= x < va + n ==>
      ByteAt(m.mem, m.spaces[root], x) == r.value[x - va]
    ensures r.Some? <==> Allowed(m.mem, m.spaces[root], va, n, R)
    ensures r.Some? ==> Shows(m.mem, m.spaces[root], va, r.value, R)
  {
    hide Valid, Peek, UserEntry, Grants, MayRead, MayWrite, ByteAt, Allowed, Shows;
    AllowedMay(m, root, va, n);
    var dst := [];
    assert Shows(m.mem, m.spaces[root], va, dst, R) by { NothingShown(m.mem, m.spaces[root], va, R); }
    while |dst| < n
      invariant |dst| <= n && Valid(m) && Same(m) && Shows(m.mem, m.spaces[root], va, dst, R)
      decreases n - |dst|
    {
      var x := va + |dst|;
      PeekIn(m, root, x, R);
      BelowMax(x);
      if x >= MAXVA {
        NoEntry(m.spaces[root], x / PGSIZE, R);
        NotAllowed(m.mem, m.spaces[root], va, n, R, x);
        return None;
      }
      var off := x % PGSIZE;
      var k := Least(PGSIZE - off, n - |dst|);
      var e := WalkUserPerm(m, root, x / PGSIZE, R);
      if e.None? {
        NotAllowed(m.mem, m.spaces[root], va, n, R, x);
        return None;
      }
      EntryPage(m, root, x / PGSIZE, R);
      ShowsMore(m.mem, m.spaces[root], va, dst, k, R);
      dst := dst + m.mem[e.value.ppn].bytes[off..off + k];
    }
    ShowsAllowed(m.mem, m.spaces[root], va, dst, R);
    ShowsMay(m, root, va, dst);
    return Some(dst);
  }

  lemma NothingShown(mem: Memory, sp: Space, va: nat, perm: bv10)
    ensures Shows(mem, sp, va, [], perm)
  {
  }

  lemma NoEntry(sp: Space, vpn: nat, perm: bv10)
    requires vpn >= MAXVPN
    ensures UserEntry(sp, vpn, perm) == None
  {
  }

  lemma PeekAt(mem: Memory, sp: Space, x: nat, i: nat, perm: bv10)
    requires x % PGSIZE + i < PGSIZE && UserEntry(sp, x / PGSIZE, perm).Some?
    requires var f := UserEntry(sp, x / PGSIZE, perm).value.ppn; f in mem && mem[f].Data? && |mem[f].bytes| == PGSIZE
    ensures Peek(mem, sp, x + i, perm) == Some(mem[UserEntry(sp, x / PGSIZE, perm).value.ppn].bytes[x % PGSIZE + i])
  {
    hide UserEntry;
    PageOf(x, i);
  }

  // ---- copyinstr ------------------------------------------------------------------------------

  /** A NUL-terminated string at va that fits into n bytes. */
  ghost predicate StringAt(mem: Memory, sp: Space, va: nat, n: nat, s: seq<Byte>) {
    |s| < n && 0 !in s && Shows(mem, sp, va, s + [0], R)
  }

  /** A string that is there is at least as long as any NUL-free prefix that is seen. */
  lemma NotShorter(mem: Memory, sp: Space, va: nat, n: nat, seen: seq<Byte>, t: seq<Byte>)
    requires Shows(mem, sp, va, seen, R) && 0 !in seen && StringAt(mem, sp, va, n, t)
    ensures |seen| <= |t| && Peek(mem, sp, va + |seen|, R).Some?
  {
    hide Peek;
    assert Peek(mem, sp, va + |t|, R) == Some((t + [0])[|t|]);
    forall x | va <= x < va + |seen| ensures Peek(mem, sp, x, R) != Some(0) {
      assert seen[x - va] in seen;
    }
    assert Peek(mem, sp, va + |seen|, R) == Some((t + [0])[|seen|]);
  }

  lemma ShowsString(mem: Memory, sp: Space, va: nat, n: nat, s: seq<Byte>)
    requires StringAt(mem, sp, va, n, s)
    ensures Shows(mem, sp, va, s, R) && 0 !in s && |s| < n
  {
    hide Peek;
    forall x | va <= x < va + |s| ensures Peek(mem, sp, x, R) == Some(s[x - va]) {
      assert (s + [0])[x - va] == s[x - va];
    }
  }

  /** At most one string starts at an address. */
  lemma StringUnique(mem: Memory, sp: Space, va: nat, n: nat, s: seq<Byte>, t: seq<Byte>)
    requires StringAt(mem, sp, va, n, s) && StringAt(mem, sp, va, n, t)
    ensures s == t
  {
    hide Peek, StringAt;
    ShowsString(mem, sp, va, n, s);
    ShowsString(mem, sp, va, n, t);
    NotShorter(mem, sp, va, n, s, t);
    NotShorter(mem, sp, va, n, t, s);
    forall i | 0 <= i < |s| ensures s[i] == t[i] {
      assert Peek(mem, sp, va + i, R) == Some(s[i]) && Peek(mem, sp, va + i, R) == Some(t[i]);
    }
  }

  /** A string is at va when the user may read its pages and its bytes are there, the first NUL
      after them. */
  lemma StringIs(m: Machine, root: nat, va: nat, n: nat, s: seq<Byte>)
    requires Valid(m) && root in m.spaces
    ensures var sp := m.spaces[root];
            StringAt(m.mem, sp, va, n, s) <==>
              && |s| < n && 0 !in s
              && (forall x :: va <= x <= va + |s| ==> MayRead(sp, x))
              && (forall x :: va <= x < va + |s| ==> ByteAt(m.mem, sp, x) == s[x - va])
              && ByteAt(m.mem, sp, va + |s|) == 0
  {
    hide Valid, Peek, Shows, MayRead, ByteAt;
    ShowsMay(m, root, va, s + [0]);
    var sp := m.spaces[root];
    if StringAt(m.mem, sp, va, n, s) {
      assert ByteAt(m.mem, sp, va + |s|) == (s + [0])[|s|];
      forall x | va <= x < va + |s| ensures ByteAt(m.mem, sp, x) == s[x - va] {
        assert (s + [0])[x - va] == s[x - va];
      }
    }
  }

  /** Without a string at va, no NUL can be read within n bytes. */
  lemma {:induction false} NoNul(m: Machine, root: nat, va: nat, n: nat, y: nat)
    requires Valid(m) && root in m.spaces && forall t :: !StringAt(m.mem, m.spaces[root], va, n, t)
    requires va <= y < va + n && forall x :: va <= x <= y ==> MayRead(m.spaces[root], x)
    ensures ByteAt(m.mem, m.spaces[root], y) != 0
    decreases y
  {
    hide Valid, Peek, Shows, StringAt, MayRead, ByteAt;
    var sp := m.spaces[root];
    forall x | va <= x < y ensures ByteAt(m.mem, sp, x) != 0 {
      NoNul(m, root, va, n, x);
    }
    var s := BytesFrom(m, root, va, y);
    forall i | 0 <= i < |s| ensures s[i] != 0 {
      assert s[va + i - va] == ByteAt(m.mem, sp, va + i);
    }
    StringIs(m, root, va, n, s);
  }

  /** The bytes from va on, which the user may read. */
  lemma {:induction false} BytesFrom(m: Machine, root: nat, va: nat, y: nat) returns (s: seq<Byte>)
    requires Valid(m) && root in m.spaces && va <= y && forall x :: va <= x < y ==> MayRead(m.spaces[root], x)
    ensures |s| == y - va && forall x :: va <= x < y ==> s[x - va] == ByteAt(m.mem, m.spaces[root], x)
    decreases y
  {
    hide Valid, Peek, MayRead, ByteAt;
    if y == va {
      s := [];
    } else {
      s := BytesFrom(m, root, va, y - 1);
      PeekMay(m, root, y - 1);
      s := s + [Peek(m.mem, m.spaces[root], y - 1, R).value];
    }
  }

  lemma NoNuls(m: Machine, root: nat, va: nat, n: nat)
    requires Valid(m) && root in m.spaces && forall t :: !StringAt(m.mem, m.spaces[root], va, n, t)
    ensures forall y :: va <= y < va + n && (forall x :: va <= x <= y ==> MayRead(m.spaces[root], x)) ==>
              ByteAt(m.mem, m.spaces[root], y) != 0
  {
    hide Valid, StringAt, MayRead, ByteAt;
    forall y | va <= y < va + n && (forall x :: va <= x <= y ==> MayRead(m.spaces[root], x))
      ensures ByteAt(m.mem, m.spaces[root], y) != 0
    {
      NoNul(m, root, va, n, y);
    }
  }

  /** Where the first NUL is, |s| if nowhere. */
  function FirstNul(s: seq<Byte>): (i: nat)
    ensures i <= |s| && 0 !in s[..i] && (i < |s| ==> s[i] == 0)
  {
    if s == [] || s[0] == 0 then 0
    else
      assert s[..1 + FirstNul(s[1..])] == [s[0]] + s[1..][..FirstNul(s[1..])];
      1 + FirstNul(s[1..])
  }

  /** copyinstr: the string at va, or None exactly when no NUL can be read within n bytes. */
  method Copyinstr(m: Machine, root: nat, n: nat, va: nat) returns (r: Option<seq<Byte>>)
    requires Valid(m) && root in m.spaces
    modifies m
    ensures Valid(m) && Same(m)
    ensures r.Some? ==>
      && |r.value| < n && 0 !in r.value
      && (forall x :: va <= x <= va + |r.value| ==> MayRead(m.spaces[root], x))
      && (forall x :: va <= x < va + |r.value| ==> ByteAt(m.mem, m.spaces[root], x) == r.value[x - va])
      && ByteAt(m.mem, m.spaces[root], va + |r.value|) == 0
    ensures r.None? ==>
      forall y :: va <= y < va + n && (forall x :: va <= x <= y ==> MayRead(m.spaces[root], x)) ==>
        ByteAt(m.mem, m.spaces[root], y) != 0
    ensures r.Some? ==> StringAt(m.mem, m.spaces[root], va, n, r.value)
    ensures r.None? ==> forall t :: !StringAt(m.mem, m.spaces[root], va, n, t)
  {
    hide Valid, Peek, UserEntry, Grants, MayRead, ByteAt, Shows, StringAt;
    var dst := [];
    assert Shows(m.mem, m.spaces[root], va, dst, R) by { NothingShown(m.mem, m.spaces[root], va, R); }
    while |dst| < n
      invariant |dst| <= n && Valid(m) && Same(m) && Shows(m.mem, m.spaces[root], va, dst, R) && 0 !in dst
      decreases n - |dst|
    {
      var x := va + |dst|;
      PeekIn(m, root, x, R);
      BelowMax(x);
      if x >= MAXVA {
        NoEntry(m.spaces[root], x / PGSIZE, R);
        Unreadable(m.mem, m.spaces[root], va, n, dst);
        NoNuls(m, root, va, n);
        return None;
      }
      var off := x % PGSIZE;
      var k := Least(PGSIZE - off, n - |dst|);
      var e := WalkUserPerm(m, root, x / PGSIZE, R);
      if e.None? {
        Unreadable(m.mem, m.spaces[root], va, n, dst);
        NoNuls(m, root, va, n);
        return None;
      }
      EntryPage(m, root, x / PGSIZE, R);
      var chunk := m.mem[e.value.ppn].bytes[off..off + k];
      var i := FirstNul(chunk);
      ShowsMore(m.mem, m.spaces[root], va, dst, k, R);
      if i < k {
        Terminated(m.mem, m.spaces[root], va, n, dst, chunk, i);
        StringIs(m, root, va, n, dst + chunk[..i]);
        return Some(dst + chunk[..i]);
      }
      assert chunk[..i] == chunk;
      dst := dst + chunk;
    }
    forall t ensures !StringAt(m.mem, m.spaces[root], va, n, t) {
      if StringAt(m.mem, m.spaces[root], va, n, t) {
        NotShorter(m.mem, m.spaces[root], va, n, dst, t);
        ShowsString(m.mem, m.spaces[root], va, n, t);
      }
    }
    NoNuls(m, root, va, n);
    return None;
  }

  lemma Unreadable(mem: Memory, sp: Space, va: nat, n: nat, seen: seq<Byte>)
    requires Shows(mem, sp, va, seen, R) && 0 !in seen && Peek(mem, sp, va + |seen|, R).None?
    ensures forall t :: !StringAt(mem, sp, va, n, t)
  {
    hide Peek;
    forall t ensures !StringAt(mem, sp, va, n, t) {
      if StringAt(mem, sp, va, n, t) {
        NotShorter(mem, sp, va, n, seen, t);
      }
    }
  }

  lemma Terminated(mem: Memory, sp: Space, va: nat, n: nat, dst: seq<Byte>, chunk: seq<Byte>, i: nat)
    requires Shows(mem, sp, va, dst + chunk, R) && 0 !in dst && i < |chunk| && 0 !in chunk[..i] && chunk[i] == 0
    requires |dst| + |chunk| <= n
    ensures StringAt(mem, sp, va, n, dst + chunk[..i])
  {
    hide Peek;
    var s := dst + chunk[..i];
    forall x | va <= x < va + |s + [0]| ensures Peek(mem, sp, x, R) == Some((s + [0])[x - va]) {
      assert (s + [0])[x - va] == (dst + chunk)[x - va];
    }
  }

  // ---- copyout --------------------------------------------------------------------------------

  /** What users see after `bytes` were written from va on: those bytes there, and
      everywhere else what they saw. */
  ghost predicate Poked(mem: Memory, mem': Memory, sp: Space, va: nat, bytes: seq<Byte>) {
    forall x: nat, perm :: Peek(mem', sp, x, perm) ==
      if va <= x < va + |bytes| && Peek(mem, sp, x, perm).Some? then Some(bytes[x - va]) else Peek(mem, sp, x, perm)
  }

  /** Only user pages of root were written. */
  ghost predicate OnlyPages(root: nat, mem: Memory, own: Owners, mem': Memory) {
    && mem'.Keys == mem.Keys
    && forall g :: g in mem && !(g in own && own[g].Of? && own[g].root == root && own[g].place.At?) ==>
      mem'[g] == mem[g]
  }

  lemma PokedNext(mem: Memory, mem1: Memory, mem2: Memory, sp: Space, va: nat, bytes: seq<Byte>, more: seq<Byte>)
    requires Poked(mem, mem1, sp, va, bytes) && Poked(mem1, mem2, sp, va + |bytes|, more)
    ensures Poked(mem, mem2, sp, va, bytes + more)
  {
    hide Peek;
  }

  lemma PokedNone(mem: Memory, sp: Space, va: nat)
    ensures Poked(mem, mem, sp, va, [])
  {
    hide Peek;
  }

  lemma PokedAllowed(mem: Memory, mem': Memory, sp: Space, va: nat, bytes: seq<Byte>, x: nat, perm: bv10)
    requires Poked(mem, mem', sp, va, bytes)
    ensures Peek(mem', sp, x, perm).Some? <==> Peek(mem, sp, x, perm).Some?
  {
    hide Peek;
  }

  function Overwrite(bytes: seq<Byte>, off: nat, chunk: seq<Byte>): (r: seq<Byte>)
    requires off + |chunk| <= |bytes|
    ensures |r| == |bytes|
    ensures forall i :: 0 <= i < |r| ==> r[i] == if off <= i < off + |chunk| then chunk[i - off] else bytes[i]
  {
    bytes[..off] + chunk + bytes[off + |chunk|..]
  }

  /** Writing within one page. */
  lemma PokePage(m: Machine, root: nat, x: nat, chunk: seq<Byte>, perm: bv10)
    requires Valid(m) && root in m.spaces && UserEntry(m.spaces[root], x / PGSIZE, perm).Some?
    requires x % PGSIZE + |chunk| <= PGSIZE
    ensures var f := UserEntry(m.spaces[root], x / PGSIZE, perm).value.ppn;
            && f in m.mem && m.mem[f].Data? && |m.mem[f].bytes| == PGSIZE
            && Poked(m.mem, m.mem[f := Data(Overwrite(m.mem[f].bytes, x % PGSIZE, chunk))], m.spaces[root], x, chunk)
  {
    hide Valid, Overwrite;
    EntryPage(m, root, x / PGSIZE, perm);
    var sp, f := m.spaces[root], UserEntry(m.spaces[root], x / PGSIZE, perm).value.ppn;
    var mem' := m.mem[f := Data(Overwrite(m.mem[f].bytes, x % PGSIZE, chunk))];
    forall y: nat, p
      ensures Peek(mem', sp, y, p) ==
              if x <= y < x + |chunk| && Peek(m.mem, sp, y, p).Some? then Some(chunk[y - x])
              else Peek(m.mem, sp, y, p)
    {
      if x <= y < x + |chunk| { InPage(x, |chunk|, y); }
      if UserEntry(sp, y / PGSIZE, p).Some? {
        EntryPage(m, root, y / PGSIZE, p);
        if y / PGSIZE == x / PGSIZE {
          OffsetIn(x, y);
        } else if PlaceOf(y / PGSIZE) == PlaceOf(x / PGSIZE) {
          PlaceInjective(y / PGSIZE, x / PGSIZE);
        }
      }
    }
  }

  /** Address spaces stay sound when a user page gets other bytes. */
  lemma PageWritten(mem: Memory, own: Owners, spaces: map<nat, Space>, f: nat, bytes: seq<Byte>)
    requires SpacesOk(mem, own, spaces) && f in own && own[f].Of? && own[f].place.At? && |bytes| == PGSIZE
    ensures SpacesOk(mem[f := Data(bytes)], own, spaces)
  {
    hide EntriesOk;
    var mem' := mem[f := Data(bytes)];
    forall r | r in spaces ensures SpaceOk(mem', own, r, spaces[r]) {
      assert SpaceOk(mem, own, r, spaces[r]);
      forall p | p in spaces[r].at ensures NodeOk(mem', own, r, spaces[r], p) {
        assert NodeOk(mem, own, r, spaces[r], p);
      }
    }
  }

  /** User pages hold `bytes` from va on and are otherwise as they were. */
  ghost predicate Stored(mem: Memory, mem': Memory, sp: Space, va: nat, bytes: seq<Byte>) {
    forall x: nat :: MayUse(sp, x) ==>
      ByteAt(mem', sp, x) == if va <= x < va + |bytes| then bytes[x - va] as int else ByteAt(mem, sp, x)
  }

  /** No page without W changed. */
  ghost predicate ReadOnlyKept(mem: Memory, mem': Memory, sp: Space) {
    forall v: nat :: Grants(sp.flat, v, 0x10) && sp.flat[PlaceOf(v)].flags & 0x4 == 0 ==>
      var f := sp.flat[PlaceOf(v)].ppn; f in mem && f in mem' && mem'[f] == mem[f]
  }

  /** What is seen of memory is what is there. */
  ghost predicate Seen(mem: Memory, sp: Space) {
    forall x: nat :: (MayUse(sp, x) <==> Peek(mem, sp, x, 0x10).Some?)
                     && (MayUse(sp, x) ==> Peek(mem, sp, x, 0x10).value == ByteAt(mem, sp, x))
  }

  lemma AllSeen(m: Machine, root: nat)
    requires Valid(m) && root in m.spaces
    ensures Seen(m.mem, m.spaces[root])
  {
    hide Valid, Peek, MayUse, ByteAt;
    forall x: nat
      ensures MayUse(m.spaces[root], x) <==> Peek(m.mem, m.spaces[root], x, 0x10).Some?
      ensures MayUse(m.spaces[root], x) ==>
        Peek(m.mem, m.spaces[root], x, 0x10).value == ByteAt(m.mem, m.spaces[root], x)
    {
      PeekUse(m, root, x);
    }
  }

  lemma PokedStored(mem: Memory, mem': Memory, sp: Space, va: nat, bytes: seq<Byte>)
    requires Seen(mem, sp) && Seen(mem', sp) && Poked(mem, mem', sp, va, bytes)
    ensures Stored(mem, mem', sp, va, bytes)
  {
    hide Peek, MayUse, ByteAt;
    forall x: nat | MayUse(sp, x)
      ensures ByteAt(mem', sp, x) == if va <= x < va + |bytes| then bytes[x - va] as int else ByteAt(mem, sp, x)
    {
      assert Peek(mem', sp, x, 0x10) ==
        if va <= x < va + |bytes| && Peek(mem, sp, x, 0x10).Some? then Some(bytes[x - va]) else Peek(mem, sp, x, 0x10);
    }
  }

  lemma NoWrite(flat: map<Place, Pte>, v: nat)
    requires Grants(flat, v, 0x10) && flat[PlaceOf(v)].flags & 0x4 == 0
    ensures !Grants(flat, v, 0x14)
  {
    hide PlaceOf;
  }

  lemma AddressOf(v: nat, i: nat)
    requires i < PGSIZE
    ensures (v * PGSIZE + i) / PGSIZE == v && (v * PGSIZE + i) % PGSIZE == i
  {
  }

  ghost predicate UserPages(mem: Memory, sp: Space) {
    forall v: nat :: Grants(sp.flat, v, 0x10) ==>
      var f := sp.flat[PlaceOf(v)].ppn; f in mem && mem[f].Data? && |mem[f].bytes| == PGSIZE
  }

  lemma UserPagesAre(m: Machine, root: nat)
    requires Valid(m) && root in m.spaces
    ensures UserPages(m.mem, m.spaces[root])
  {
    hide Valid, Peek, PlaceOf, Grants;
    forall v: nat | Grants(m.spaces[root].flat, v, 0x10)
      ensures PlaceOf(v) in m.spaces[root].flat && var f := m.spaces[root].flat[PlaceOf(v)].ppn;
        f in m.mem && m.mem[f].Data? && |m.mem[f].bytes| == PGSIZE
    {
      AddressOf(v, 0);
      GrantsIn(m.spaces[root].flat, v, 0x10);
      PeekIs(m, root, v * PGSIZE, 0x10);
    }
  }

  lemma PageKept(mem: Memory, mem': Memory, sp: Space, va: nat, bytes: seq<Byte>, v: nat)
    requires Stored(mem, mem', sp, va, bytes) && UserPages(mem, sp) && UserPages(mem', sp)
    requires forall x :: va <= x < va + |bytes| ==> MayWrite(sp, x)
    requires Grants(sp.flat, v, 0x10) && sp.flat[PlaceOf(v)].flags & 0x4 == 0
    ensures var f := sp.flat[PlaceOf(v)].ppn; f in mem && f in mem' && mem'[f] == mem[f]
  {
    NoWrite(sp.flat, v);
    hide Grants, PlaceOf;
    var f := sp.flat[PlaceOf(v)].ppn;
    forall i | 0 <= i < PGSIZE ensures mem'[f].bytes[i] == mem[f].bytes[i] {
      AddressOf(v, i);
      var x := v * PGSIZE + i;
      assert MayUse(sp, x) && !MayWrite(sp, x);
    }
    assert mem'[f].bytes == mem[f].bytes;
  }

  lemma ReadOnlyIsKept(mem: Memory, mem': Memory, sp: Space, va: nat, bytes: seq<Byte>)
    requires Stored(mem, mem', sp, va, bytes) && UserPages(mem, sp) && UserPages(mem', sp)
    requires forall x :: va <= x < va + |bytes| ==> MayWrite(sp, x)
    ensures ReadOnlyKept(mem, mem', sp)
  {
    hide Stored, UserPages, MayWrite, PlaceOf;
    forall v: nat | Grants(sp.flat, v, 0x10) && PlaceOf(v) in sp.flat && sp.flat[PlaceOf(v)].flags & 0x4 == 0
      ensures var f := sp.flat[PlaceOf(v)].ppn; f in mem && f in mem' && mem'[f] == mem[f]
    {
      PageKept(mem, mem', sp, va, bytes, v);
    }
  }

  lemma CopiedOut(m: Machine, root: nat, mem: Memory, va: nat, bytes: seq<Byte>)
    requires Valid(m) && root in m.spaces && Seen(mem, m.spaces[root]) && UserPages(mem, m.spaces[root])
    requires Poked(mem, m.mem, m.spaces[root], va, bytes)
    requires forall x :: va <= x < va + |bytes| ==> MayWrite(m.spaces[root], x)
    ensures Stored(mem, m.mem, m.spaces[root], va, bytes) && ReadOnlyKept(mem, m.mem, m.spaces[root])
  {
    hide Valid, Poked, Stored, ReadOnlyKept, Seen, UserPages, MayWrite;
    AllSeen(m, root);
    UserPagesAre(m, root);
    PokedStored(mem, m.mem, m.spaces[root], va, bytes);
    ReadOnlyIsKept(mem, m.mem, m.spaces[root], va, bytes);
  }

  /** copyout: writes the longest prefix of src whose pages all permit it, and reports
      whether that was all of src. */
  method Copyout(m: Machine, root: nat, va: nat, src: seq<Byte>) returns (ok: bool, ghost k: nat)
    requires Valid(m) && root in m.spaces
    modifies m
    ensures Valid(m) && m.own == old(m.own) && m.spaces == old(m.spaces) && m.free == old(m.free)
    ensures k <= |src| && (ok ==> k == |src|)
    ensures ok <==> forall x :: va <= x < va + |src| ==> MayWrite(m.spaces[root], x)
    ensures !ok ==> k < |src| && !MayWrite(m.spaces[root], va + k)
    ensures forall x :: va <= x < va + k ==> MayWrite(m.spaces[root], x)
    ensures Stored(old(m.mem), m.mem, m.spaces[root], va, src[..k])
    ensures ReadOnlyKept(old(m.mem), m.mem, m.spaces[root])
    ensures ok <==> Allowed(old(m.mem), m.spaces[root], va, |src|, W)
    ensures (!ok ==> k < |src| && Peek(old(m.mem), m.spaces[root], va + k, W).None?)
    ensures Poked(old(m.mem), m.mem, m.spaces[root], va, src[..k]) && OnlyPages(root, old(m.mem), m.own, m.mem)
  {
    hide Peek, UserEntry, Allowed, Poked, SpacesOk, OwnedOk, FreeOk, Managed;
    hide Grants, MayWrite, MayUse, ByteAt, Stored, ReadOnlyKept, Seen, UserPages;
    ghost var mem, sp := m.mem, m.spaces[root];
    AllSeen(m, root);
    UserPagesAre(m, root);
    forall n: nat
      ensures Allowed(mem, sp, va, n, W) <==> forall x :: va <= x < va + n ==> MayWrite(sp, x)
    {
      AllowedMay(m, root, va, n);
    }
    var done := 0;
    PokedNone(mem, sp, va);
    assert src[..0] == [];
    assert Allowed(mem, sp, va, 0, W) by { AllowedNone(mem, sp, va); }
    while done < |src|
      invariant 0 <= done <= |src| && Valid(m) && m.own == old(m.own) && m.spaces == old(m.spaces)
      invariant m.free == old(m.free)
      invariant Poked(mem, m.mem, sp, va, src[..done]) && OnlyPages(root, mem, m.own, m.mem)
      invariant Allowed(mem, sp, va, done, W)
    {
      var x := va + done;
      PeekIn(m, root, x, W);
      PeekMay(m, root, x);
      BelowMax(x);
      PokedAllowed(mem, m.mem, sp, va, src[..done], x, W);
      if x >= MAXVA {
        NoEntry(sp, x / PGSIZE, W);
        NotAllowed(mem, sp, va, |src|, W, x);
        CopiedOut(m, root, mem, va, src[..done]);
        return false, done;
      }
      var off := x % PGSIZE;
      var n := Least(PGSIZE - off, |src| - done);
      var e := WalkUserPerm(m, root, x / PGSIZE, W);
      if e.None? {
        NotAllowed(mem, sp, va, |src|, W, x);
        CopiedOut(m, root, mem, va, src[..done]);
        return false, done;
      }
      var f, chunk := e.value.ppn, src[done..done + n];
      EntryPage(m, root, x / PGSIZE, W);
      PokePage(m, root, x, chunk, W);
      AllowedOn(m, root, mem, va, src[..done], n);
      ghost var mem1 := m.mem;
      PageWritten(m.mem, m.own, m.spaces, f, Overwrite(m.mem[f].bytes, off, chunk));
      m.mem := m.mem[f := Data(Overwrite(m.mem[f].bytes, off, chunk))];
      FreeKept(mem1, m.mem, m.head, m.free, m.own, m.own);
      ManagedSame(m.first, mem1, m.own, m.mem, m.own);
      PokedNext(mem, mem1, m.mem, sp, va, src[..done], chunk);
      assert src[..done] + chunk == src[..done + n];
      done := done + n;
    }
    CopiedOut(m, root, mem, va, src[..done]);
    return true, done;
  }

  lemma AllowedNone(mem: Memory, sp: Space, va: nat)
    ensures Allowed(mem, sp, va, 0, W)
  {
  }

  /** One more page may be written. */
  lemma AllowedOn(m: Machine, root: nat, mem: Memory, va: nat, seen: seq<Byte>, n: nat)
    requires Valid(m) && root in m.spaces && Poked(mem, m.mem, m.spaces[root], va, seen)
    requires Allowed(mem, m.spaces[root], va, |seen|, W)
    requires var x := va + |seen|; x % PGSIZE + n <= PGSIZE && UserEntry(m.spaces[root], x / PGSIZE, W).Some?
    ensures Allowed(mem, m.spaces[root], va, |seen| + n, W)
  {
    hide Valid, Peek, UserEntry, Poked;
    var x := va + |seen|;
    forall y | va <= y < va + |seen| + n ensures Peek(mem, m.spaces[root], y, W).Some? {
      if y >= x {
        InPage(x, n, y);
        PeekIn(m, root, y, W);
        PokedAllowed(mem, m.mem, m.spaces[root], va, seen, y, W);
      }
    }
  }

  /** A write into one address space is invisible in every other. */
  lemma Isolated(m: Machine, root: nat, other: nat, mem': Memory, x: nat, perm: bv10)
    requires Valid(m) && root in m.spaces && other in m.spaces && other != root && OnlyPages(root, m.mem, m.own, mem')
    ensures Peek(mem', m.spaces[other], x, perm) == Peek(m.mem, m.spaces[other], x, perm)
  {
    hide UserEntry, Valid;
    if UserEntry(m.spaces[other], x / PGSIZE, perm).Some? {
      EntryPage(m, other, x / PGSIZE, perm);
    }
  }

  /** What was copied out can be copied in again. */
  lemma OutThenIn(m: Machine, root: nat, mem': Memory, va: nat, src: seq<Byte>)
    requires Valid(m) && root in m.spaces && Poked(m.mem, mem', m.spaces[root], va, src)
    requires Allowed(m.mem, m.spaces[root], va, |src|, R)
    ensures Shows(mem', m.spaces[root], va, src, R)
  {
    hide Peek, Valid;
  }
}
