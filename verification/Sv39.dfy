/** Sv39 entries and indices: the bits of a page table entry, and the three 9-bit
    indices of a virtual address (sections 4.3.2 and 4.4 of the RISC-V Privileged
    Architecture specification). */
module Sv39 {

  // ---- Bits of an entry -----------------------------------------------------------

  const PTE_V: bv64 := 0x1
  const PTE_AD: bv64 := 0xC0
  const PTE_RWX: bv64 := 0xE

  function NewLeaf(pa: bv64, flags: bv64): bv64 { ((pa >> 12) << 10) | flags | PTE_V | PTE_AD }

  function NewTable(pa: bv64): bv64 { ((pa >> 12) << 10) | PTE_V }

  function PaOf(pte: bv64): bv64 { ((pte >> 10) & 0xFFF_FFFF_FFFF) << 12 }

  function FlagsOf(pte: bv64): bv64 { pte & 0x3FF }

  predicate IsValid(pte: bv64) { pte & PTE_V != 0 }

  predicate IsLeaf(pte: bv64) { IsValid(pte) && pte & PTE_RWX != 0 }

  /** Page aligned, and a frame number of 44 bits. */
  predicate Aligned(pa: bv64) { pa & 0xFFF == 0 && pa >> 56 == 0 }

  /** A leaf entry gives back its address and flags; it is a leaf for the walk exactly
      when it permits something. */
  lemma LeafRoundTrip(pa: bv64, flags: bv64)
    requires Aligned(pa) && flags >> 10 == 0
    ensures PaOf(NewLeaf(pa, flags)) == pa && FlagsOf(NewLeaf(pa, flags)) == flags | 0xC1
    ensures IsValid(NewLeaf(pa, flags)) && (IsLeaf(NewLeaf(pa, flags)) <==> flags & PTE_RWX != 0)
  {
    assert ((pa >> 12) << 10) & 0x3FF == 0;
  }

  /** A table entry gives back its address and is no leaf. */
  lemma TableRoundTrip(pa: bv64)
    requires Aligned(pa)
    ensures PaOf(NewTable(pa)) == pa && IsValid(NewTable(pa)) && !IsLeaf(NewTable(pa)) && FlagsOf(NewTable(pa)) == 1
  {
    assert ((pa >> 12) << 10) & 0x3FF == 0;
  }

  // ---- Entries and indices as the model uses them --------------------------------------

  /** An entry as the walk reads it: frame number and the ten low bits. */
  datatype Pte = Pte(ppn: nat, flags: bv10)

  const NONE := Pte(0, 0)

  predicate V(pte: Pte) { pte.flags & 1 != 0 }

  predicate Leaf(pte: Pte) { V(pte) && pte.flags & 0xE != 0 }

  predicate User(pte: Pte) { pte.flags & 0x10 != 0 }

  /** Valid, accessed and dirty, as every leaf the kernel writes is. */
  predicate Stamped(pte: Pte) { pte.flags & 0xC1 == 0xC1 }

  function LeafPte(ppn: nat, flags: bv10): (pte: Pte)
    ensures V(pte) && (Leaf(pte) <==> flags & 0xE != 0) && (User(pte) <==> flags & 0x10 != 0) && Stamped(pte)
  {
    Pte(ppn, flags | 0xC1)
  }

  function TablePte(ppn: nat): (pte: Pte)
    ensures V(pte) && !Leaf(pte)
  {
    Pte(ppn, 1)
  }

  /** A place in the tree of tables: the top table, those below it, and pages, each
      with the indices that lead to it. */
  datatype Place = Top | Mid(a: nat) | Low(a: nat, b: nat) | At(a: nat, b: nat, c: nat)

  function Depth(p: Place): nat { if p.Top? then 0 else if p.Mid? then 1 else if p.Low? then 2 else 3 }

  /** Entry i of the table at p leads to Sub(p, i). */
  function Sub(p: Place, i: nat): (q: Place)
    requires Depth(p) < 3
    ensures Depth(q) == Depth(p) + 1 && Super(q) == p && IndexIn(q) == i
  {
    match p case Top => Mid(i) case Mid(a) => Low(a, i) case Low(a, b) => At(a, b, i)
  }

  function Super(q: Place): Place
    requires !q.Top?
  {
    match q case Mid(a) => Top case Low(a, b) => Mid(a) case At(a, b, c) => Low(a, b)
  }

  function IndexIn(q: Place): nat
    requires !q.Top?
  {
    match q case Mid(a) => a case Low(a, b) => b case At(a, b, c) => c
  }

  lemma SubSuper(q: Place)
    requires !q.Top?
    ensures Depth(Super(q)) < 3 && Sub(Super(q), IndexIn(q)) == q
  {
  }

  /** Where the walk for page `vpn` ends. */
  function PlaceOf(vpn: nat): (p: Place)
    ensures p.At? && p.a < 512 && p.b < 512 && p.c < 512
  {
    At(vpn / 0x40000 % 512, vpn / 512 % 512, vpn % 512)
  }

  /** Pages below 2^39 have places of their own. */
  lemma PlaceInjective(a: nat, b: nat)
    requires a < 0x800_0000 && b < 0x800_0000 && PlaceOf(a) == PlaceOf(b)
    ensures a == b
  {
    assert a / 512 / 512 == a / 0x40000 && b / 512 / 512 == b / 0x40000;
  }

  // ---- The model and the words --------------------------------------------------------

  /** The number that the low w bits of a word stand for. */
  function Num(x: bv64, w: nat): nat { if w == 0 then 0 else 2 * Num(x >> 1, w - 1) + if x & 1 == 1 then 1 else 0 }

  function Drop3(x: bv64): bv64 { x >> 3 }

  function Drop9(x: bv64): bv64 { x >> 9 }

  /** The lowest nine bits: an index of the walk. */
  function Field(x: bv64): bv64 { x & 0x1FF }

  predicate Same3(x: bv64, y: bv64) { x & 7 == y & 7 }

  lemma NumThree(x: bv64, w: nat)
    requires w >= 3
    ensures Num(x, w) == 8 * Num(Drop3(x), w - 3) + Num(x, 3)
  {
    assert (x >> 1) >> 1 == x >> 2 && (x >> 2) >> 1 == x >> 3;
    assert Num(x, w) == 2 * Num(x >> 1, w - 1) + if x & 1 == 1 then 1 else 0;
    assert Num(x >> 1, w - 1) == 2 * Num(x >> 2, w - 2) + if (x >> 1) & 1 == 1 then 1 else 0;
    assert Num(x >> 2, w - 2) == 2 * Num(x >> 3, w - 3) + if (x >> 2) & 1 == 1 then 1 else 0;
    assert Num(x, 3) == 2 * Num(x >> 1, 2) + if x & 1 == 1 then 1 else 0;
    assert Num(x >> 1, 2) == 2 * Num(x >> 2, 1) + if (x >> 1) & 1 == 1 then 1 else 0;
    assert Num(x >> 2, 1) == 2 * Num(x >> 3, 0) + if (x >> 2) & 1 == 1 then 1 else 0;
  }

  lemma NumSame(x: bv64, y: bv64)
    requires Same3(x, y)
    ensures Num(x, 3) == Num(y, 3) < 8
  {
    assert x & 1 == y & 1 && (x >> 1) & 1 == (y >> 1) & 1 && (x >> 2) & 1 == (y >> 2) & 1;
    assert (x >> 1) >> 1 == x >> 2 && (y >> 1) >> 1 == y >> 2;
    assert Num(x >> 2, 1) == (if (x >> 2) & 1 == 1 then 1 else 0);
    assert Num(y >> 2, 1) == (if (y >> 2) & 1 == 1 then 1 else 0);
    assert Num(x >> 1, 2) == 2 * Num(x >> 2, 1) + if (x >> 1) & 1 == 1 then 1 else 0;
    assert Num(y >> 1, 2) == 2 * Num(y >> 2, 1) + if (y >> 1) & 1 == 1 then 1 else 0;
  }

  lemma Thirds(x: bv64)
    ensures Same3(x, Field(x)) && Same3(Drop3(x), Drop3(Field(x))) && Same3(Drop3(Drop3(x)), Drop3(Drop3(Field(x))))
    ensures Drop3(Drop3(Drop3(x))) == Drop9(x)
  {
  }

  lemma NumNone(x: bv64)
    ensures Num(x, 0) == 0
  {
  }

  lemma NumDigits(x: bv64, w: nat)
    requires w >= 9
    ensures Num(x, w) == 512 * Num(Drop9(x), w - 9) + 64 * Num(Drop3(Drop3(x)), 3) + 8 * Num(Drop3(x), 3) + Num(x, 3)
  {
    hide Num, Drop3, Drop9, Field, Same3;
    Thirds(x);
    NumThree(x, w);
    NumThree(Drop3(x), w - 3);
    NumThree(Drop3(Drop3(x)), w - 6);
  }

  /** Nine bits are one base-512 digit. */
  lemma NumField(x: bv64, w: nat)
    requires w >= 9
    ensures Num(x, w) == 512 * Num(Drop9(x), w - 9) + Num(Field(x), 9) && Num(Field(x), 9) < 512
  {
    hide Num, Drop3, Drop9, Field, Same3;
    Thirds(x);
    NumDigits(x, w);
    NumDigits(Field(x), 9);
    NumNone(Drop9(Field(x)));
    NumSame(x, Field(x));
    NumSame(Drop3(x), Drop3(Field(x)));
    NumSame(Drop3(Drop3(x)), Drop3(Drop3(Field(x))));
  }

  lemma PlaceFields(x: bv64)
    ensures PlaceOf(Num(x, 27)) == At(Num(Field(Drop9(Drop9(x))), 9), Num(Field(Drop9(x)), 9), Num(Field(x), 9))
  {
    hide Num, Drop9, Field;
    NumField(x, 27);
    NumField(Drop9(x), 18);
    NumField(Drop9(Drop9(x)), 9);
    NumNone(Drop9(Drop9(Drop9(x))));
    DigitsOf(Num(Field(Drop9(Drop9(x))), 9), Num(Field(Drop9(x)), 9), Num(Field(x), 9));
  }

  lemma DigitsOf(a: nat, b: nat, c: nat)
    requires a < 512 && b < 512 && c < 512
    ensures PlaceOf(512 * (512 * a + b) + c) == At(a, b, c)
  {
    var n := 512 * (512 * a + b) + c;
    assert n / 512 == 512 * a + b;
    assert n / 0x40000 == a;
  }

  lemma Shifts(va: bv64)
    ensures Drop9(va >> 12) == va >> 21 && Drop9(va >> 21) == va >> 30
  {
  }

  /** The walk's three indices of an address, (va >> (12 + 9 * level)) & 0x1FF, are the place of
      its page. */
  lemma PlaceIndices(va: bv64)
    ensures PlaceOf(Num(va >> 12, 27)) == At(Num(Field(va >> 30), 9), Num(Field(va >> 21), 9), Num(Field(va >> 12), 9))
  {
    hide Num, Drop9, Field, PlaceOf;
    Shifts(va);
    PlaceFields(va >> 12);
  }

  /** Below 2^39 the three indices and the offset determine the address. */
  lemma IndicesInjective(a: bv64, b: bv64)
    requires a >> 39 == 0 && b >> 39 == 0 && a & 0xFFF == b & 0xFFF
    requires Field(a >> 12) == Field(b >> 12) && Field(a >> 21) == Field(b >> 21) && Field(a >> 30) == Field(b >> 30)
    ensures a == b
  {
  }

  /** The frame number in a word. */
  function FrameBits(w: bv64): bv64 { (w >> 10) & 0xFFF_FFFF_FFFF }

  function FlagBits(w: bv64): bv10 { FlagsOf(w) as bv10 }

  /** What the model keeps of a word. */
  function ReadPte(w: bv64): Pte { Pte(Num(FrameBits(w), 44), FlagBits(w)) }

  /** The model sees of a word what the kernel's bit operations see. */
  lemma ReadBits(w: bv64)
    ensures var pte := ReadPte(w);
            && (V(pte) <==> IsValid(w)) && (Leaf(pte) <==> IsLeaf(w)) && (User(pte) <==> w & 0x10 != 0)
            && pte.flags == FlagsOf(w) as bv10 && pte.ppn == Num(PaOf(w) >> 12, 44)
  {
    hide Num, FrameBits, PaOf, FlagBits;
    FrameOf(w);
    FlagsSeen(w);
  }

  lemma FrameOf(w: bv64)
    ensures FrameBits(w) == PaOf(w) >> 12
  {
  }

  lemma FlagsSeen(w: bv64)
    ensures var f := FlagBits(w);
            && (f & 1 != 0 <==> IsValid(w)) && (f & 1 != 0 && f & 0xE != 0 <==> IsLeaf(w))
            && (f & 0x10 != 0 <==> w & 0x10 != 0) && f == FlagsOf(w) as bv10
  {
  }

  /** A permission check on the model's flags is the check on the word. */
  lemma PermSeen(w: bv64, p: bv64)
    requires p >> 10 == 0
    ensures FlagBits(w) & (p as bv10) == p as bv10 <==> w & p == p
  {
    hide FlagBits;
    if w & p == p { Permitted(w, p); } else { Denied(w, p); }
  }

  lemma Permitted(w: bv64, p: bv64)
    requires p >> 10 == 0 && w & p == p
    ensures FlagBits(w) & (p as bv10) == p as bv10
  {
    hide FlagBits;
    Narrowed(w, p);
  }

  lemma Denied(w: bv64, p: bv64)
    requires p >> 10 == 0 && w & p != p
    ensures FlagBits(w) & (p as bv10) != p as bv10
  {
    hide FlagBits;
    Narrowed(w, p);
    Widened(w & p, p);
  }

  lemma Narrowed(w: bv64, p: bv64)
    requires p >> 10 == 0
    ensures (w & p) >> 10 == 0 && (w & p) as bv10 == FlagBits(w) & (p as bv10)
  {
  }

  lemma Widened(a: bv64, b: bv64)
    requires a >> 10 == 0 && b >> 10 == 0 && a != b
    ensures a as bv10 != b as bv10
  {
  }

  /** The entry made for a leaf, and the entry made for a table. */
  lemma ReadNew(pa: bv64, flags: bv64)
    requires Aligned(pa) && flags >> 10 == 0
    ensures ReadPte(NewLeaf(pa, flags)) == LeafPte(Num(pa >> 12, 44), flags as bv10)
    ensures ReadPte(NewTable(pa)) == TablePte(Num(pa >> 12, 44))
  {
    hide Num, FrameBits, FlagBits, NewLeaf, NewTable, Aligned;
    NewBits(pa, flags);
  }

  lemma NewBits(pa: bv64, flags: bv64)
    requires Aligned(pa) && flags >> 10 == 0
    ensures FrameBits(NewLeaf(pa, flags)) == pa >> 12 && FlagBits(NewLeaf(pa, flags)) == (flags as bv10) | 0xC1
    ensures FrameBits(NewTable(pa)) == pa >> 12 && FlagBits(NewTable(pa)) == 1
  {
    hide FrameBits, FlagBits, NewLeaf, NewTable, Aligned;
    LeafFrame(pa, flags);
    LeafFlags(pa, flags);
    TableBits(pa);
  }

  lemma LeafFrame(pa: bv64, flags: bv64)
    requires Aligned(pa) && flags >> 10 == 0
    ensures FrameBits(NewLeaf(pa, flags)) == pa >> 12
  {
  }

  lemma LeafFlags(pa: bv64, flags: bv64)
    requires Aligned(pa) && flags >> 10 == 0
    ensures FlagBits(NewLeaf(pa, flags)) == (flags as bv10) | 0xC1
  {
    assert ((pa >> 12) << 10) & 0x3FF == 0;
  }

  lemma TableBits(pa: bv64)
    requires Aligned(pa)
    ensures FrameBits(NewTable(pa)) == pa >> 12 && FlagBits(NewTable(pa)) == 1
  {
    assert ((pa >> 12) << 10) & 0x3FF == 0;
  }

  lemma {:induction false} NumZero(w: nat)
    ensures Num(0, w) == 0
  {
    if w > 0 {
      NumZero(w - 1);
    }
  }

  /** A cleared entry. */
  lemma ReadCleared()
    ensures ReadPte(0) == NONE
  {
    NumZero(44);
  }
}
