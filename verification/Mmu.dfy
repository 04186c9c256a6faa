/** threads/mmu.c: four-level page tables.  Table pages are 512 words of physical
    memory; an entry is the physical address of a page plus flag bits.  Every process's table
    starts as a copy of the kernel's, so the table pages below slot 1 of the top level are
    the same for all, and those below slot 0 are a table's own. */
module Mmu {
  import opened Wrappers
  import opened Bits

  type Memory = map<nat, seq<nat>>   // table pages by physical address

  const PTE_P: nat := 1
  const PTE_W: nat := 2
  const PTE_U: nat := 4

  predicate Present(w: nat) {
    w % 2 == 1
  }

  /** PTE_ADDR */
  function Addr(w: nat): nat {
    w - w % 4096
  }

  /** Entry `s` of the top-level page `r`. */
  datatype Top = Top(r: nat, s: nat)

  /** The place of a table page below the top level. */
  datatype Node = Mid(o: Top) | Low(o: Top, i: nat) | Leaf(o: Top, i: nat, j: nat)

  /** The kernel's table, base_pml4, and those pml4_create made. */
  datatype Tables = Tables(base: nat, roots: set<nat>) {
    ghost function Heads(): set<nat> {
      roots + {base}
    }

    /** The table pages below a top-level entry belong to it: slot 0 is each table's own, slot
        1 the kernel's.  The other entries are copies, or empty. */
    predicate Owns(o: Top) {
      (o.r in roots && o.s == 0) || (o.r == base && o.s == 1)
    }
  }

  /** Following entry `i` of a table page. */
  function Next(mem: Memory, f: nat, i: nat): Option<nat> {
    if f in mem && i < |mem[f]| && Present(mem[f][i]) then Some(Addr(mem[f][i])) else None
  }

  /** The table page at a place, if there is one. */
  function Frame(mem: Memory, n: Node): Option<nat> {
    match n
    case Mid(o) => Next(mem, o.r, o.s)
    case Low(o, i) => var up := Next(mem, o.r, o.s); if up.None? then None else Next(mem, up.value, i)
    case Leaf(o, i, j) =>
      var up := Next(mem, o.r, o.s);
      if up.None? then None else
        var down := Next(mem, up.value, i);
        if down.None? then None else Next(mem, down.value, j)
  }

  /** The entry for a page: 0 if no table page holds one. */
  function Entry(mem: Memory, o: Top, i: nat, j: nat, k: nat): nat {
    var f := Frame(mem, Leaf(o, i, j));
    if f.Some? && f.value in mem && k < |mem[f.value]| then mem[f.value][k] else 0
  }

  ghost predicate PagesOk(mem: Memory) {
    forall f :: f in mem ==> f % 4096 == 0 && |mem[f]| == 512
  }

  /** Every table page has one place, and every pointer of a table's own part points to the
      page of the place it stands for. */
  ghost predicate PlacedNow(mem: Memory, ts: Tables, at: map<nat, Node>) {
    && (forall f :: f in at ==> ts.Owns(at[f].o) && Frame(mem, at[f]) == Some(f))
    && (forall n: Node :: ts.Owns(n.o) && Frame(mem, n).Some? ==>
          Frame(mem, n).value in at && at[Frame(mem, n).value] == n)
  }

  /** `PlacedNow`, for proofs that only hand it on. */
  ghost predicate Placed(mem: Memory, ts: Tables, at: map<nat, Node>) {
    forall z: nat {:trigger Look(OfMmu, z)} :: Look(OfMmu, z) ==> PlacedNow(mem, ts, at)
  }

  ghost predicate Ok(mem: Memory, ts: Tables, at: map<nat, Node>) {
    && PagesOk(mem) && ts.base !in ts.roots
    && ts.Heads() !! at.Keys && mem.Keys == ts.Heads() + at.Keys && Placed(mem, ts, at)
  }

  // -------------------------------------------------------------------- writing

  /** Writing one entry. */
  function Write(mem: Memory, f: nat, k: nat, w: nat): Memory {
    if f in mem && k < |mem[f]| then
      var page: seq<nat> := mem[f][..k] + [w] + mem[f][k + 1..];
      mem[f := page]
    else mem
  }

  lemma WriteIs(mem: Memory, f: nat, k: nat, w: nat)
    requires f in mem && k < |mem[f]|
    ensures Write(mem, f, k, w).Keys == mem.Keys && |Write(mem, f, k, w)[f]| == |mem[f]|
            && Write(mem, f, k, w)[f][k] == w
    ensures forall i :: 0 <= i < |mem[f]| && i != k ==> Write(mem, f, k, w)[f][i] == mem[f][i]
    ensures forall g :: g in mem && g != f ==> Write(mem, f, k, w)[g] == mem[g]
  {
  }

  /** A step of the walk that does not use the written entry. */
  lemma NextSame(mem: Memory, f: nat, k: nat, w: nat, g: nat, i: nat)
    requires f in mem && k < |mem[f]| && (g != f || i != k)
    ensures Next(Write(mem, f, k, w), g, i) == Next(mem, g, i)
  {
    WriteIs(mem, f, k, w);
  }

  /** The walk to `n` reads entry `k` of page `f`. */
  predicate Reads(mem: Memory, n: Node, f: nat, k: nat) {
    || (f == n.o.r && k == n.o.s)
    || (!n.Mid? && Frame(mem, Mid(n.o)) == Some(f) && k == n.i)
    || (n.Leaf? && Frame(mem, Low(n.o, n.i)) == Some(f) && k == n.j)
  }

  lemma WalkSame(mem: Memory, f: nat, k: nat, w: nat, n: Node)
    requires f in mem && k < |mem[f]| && !Reads(mem, n, f, k)
    ensures Frame(Write(mem, f, k, w), n) == Frame(mem, n)
  {
    NextSame(mem, f, k, w, n.o.r, n.o.s);
    var up := Next(mem, n.o.r, n.o.s);
    if up.Some? && !n.Mid? {
      NextSame(mem, f, k, w, up.value, n.i);
      var down := Next(mem, up.value, n.i);
      if down.Some? && !n.Low? { NextSame(mem, f, k, w, down.value, n.j); }
    }
  }

  /** A page is where the table says ... */
  lemma FrameAt(mem: Memory, ts: Tables, at: map<nat, Node>, n: Node)
    requires Ok(mem, ts, at) && ts.Owns(n.o) && Frame(mem, n).Some?
    ensures var f := Frame(mem, n).value; f in mem && f in at && at[f] == n && |mem[f]| == 512
  {
    assert Look(OfMmu, 0);
  }

  /** ... and the table says where it is. */
  lemma PlaceOf(mem: Memory, ts: Tables, at: map<nat, Node>, f: nat)
    requires Ok(mem, ts, at) && f in at
    ensures ts.Owns(at[f].o) && Frame(mem, at[f]) == Some(f)
  {
    assert Look(OfMmu, 0);
  }

  // -------------------------------------------------------------- leaf entries

  /** No walk reads a leaf entry. */
  lemma LeafUnread(mem: Memory, ts: Tables, at: map<nat, Node>, f: nat, k: nat, n: Node)
    requires Ok(mem, ts, at) && f in at && at[f].Leaf? && ts.Owns(n.o)
    ensures !Reads(mem, n, f, k)
  {
    if Frame(mem, Mid(n.o)) == Some(f) { FrameAt(mem, ts, at, Mid(n.o)); }
    if n.Leaf? && Frame(mem, Low(n.o, n.i)) == Some(f) { FrameAt(mem, ts, at, Low(n.o, n.i)); }
  }

  /** Writing a leaf entry keeps every table page in place. */
  lemma LeafKeeps(mem: Memory, ts: Tables, at: map<nat, Node>, f: nat, k: nat, w: nat)
    requires Ok(mem, ts, at) && f in at && at[f].Leaf? && k < 512
    ensures Ok(Write(mem, f, k, w), ts, at)
  {
    assert Look(OfMmu, 0);
    var mem' := Write(mem, f, k, w);
    WriteIs(mem, f, k, w);
    forall n: Node | ts.Owns(n.o)
      ensures Frame(mem', n) == Frame(mem, n)
    {
      LeafUnread(mem, ts, at, f, k, n);
      WalkSame(mem, f, k, w, n);
    }
  }

  /** Writing a leaf entry changes that entry, and no other of any table. */
  lemma LeafEntry(mem: Memory, ts: Tables, at: map<nat, Node>, f: nat, k: nat, w: nat, o: Top, i: nat, j: nat,
                  l: nat)
    requires Ok(mem, ts, at) && f in at && at[f].Leaf? && k < 512 && ts.Owns(o)
    ensures Entry(Write(mem, f, k, w), o, i, j, l) ==
              if at[f] == Leaf(o, i, j) && l == k then w else Entry(mem, o, i, j, l)
  {
    WriteIs(mem, f, k, w);
    LeafUnread(mem, ts, at, f, k, Leaf(o, i, j));
    WalkSame(mem, f, k, w, Leaf(o, i, j));
    if Frame(mem, Leaf(o, i, j)).Some? { FrameAt(mem, ts, at, Leaf(o, i, j)); }
    PlaceOf(mem, ts, at, f);
  }

  // ---------------------------------------------------------------- new tables

  /** A page of zeros. */
  function Zeros(): (s: seq<nat>)
    ensures |s| == 512 && forall i :: 0 <= i < 512 ==> s[i] == 0
  {
    seq(512, _ => 0)
  }

  /** A new table page `p` under entry `k` of page `f`. */
  function Grow(mem: Memory, f: nat, k: nat, p: nat): Memory {
    Write(mem, f, k, p + PTE_U + PTE_W + PTE_P)[p := Zeros()]
  }

  /** The place entry `k` of page `f` stands for. */
  ghost predicate Leads(ts: Tables, at: map<nat, Node>, f: nat, k: nat, n: Node) {
    match n
    case Mid(o) => ts.Owns(o) && f == o.r && k == o.s
    case Low(o, i) => f in at && at[f] == Mid(o) && k == i
    case Leaf(o, i, j) => f in at && at[f] == Low(o, i) && k == j
  }

  /** Nothing can be reached through a page of zeros. */
  lemma ZeroPage(mem: Memory, p: nat, n: Node)
    requires p !in mem
    ensures Frame(mem[p := Zeros()], n) == Frame(mem, n)
  {
  }

  /** The entry is used by the walk to the place it stands for, and below only. */
  lemma ReadsLead(mem: Memory, ts: Tables, at: map<nat, Node>, f: nat, k: nat, m: Node, n: Node)
    requires Ok(mem, ts, at) && ts.Owns(n.o) && Leads(ts, at, f, k, m) && Reads(mem, n, f, k)
    ensures n == m || (m.Mid? && !n.Mid? && n.o == m.o) || (m.Low? && n.Leaf? && n.o == m.o && n.i == m.i)
  {
    if !n.Mid? && Frame(mem, Mid(n.o)) == Some(f) { FrameAt(mem, ts, at, Mid(n.o)); }
    if n.Leaf? && Frame(mem, Low(n.o, n.i)) == Some(f) { FrameAt(mem, ts, at, Low(n.o, n.i)); }
  }

  lemma Flagged(p: nat)
    requires p % 4096 == 0
    ensures Present(p + PTE_U + PTE_W + PTE_P) && Addr(p + PTE_U + PTE_W + PTE_P) == p
  {
    FlagBits(p, 7);
  }

  /** Flags in the low bits do not disturb the address. */
  lemma FlagBits(p: nat, flags: nat)
    requires p % 4096 == 0 && flags < 4096 && flags % 2 == 1
    ensures Present(p + flags) && Addr(p + flags) == p
  {
    ModIs(p + flags, 4096, p / 4096, flags);
    ModIs(p + flags, 2, p / 4096 * 2048 + flags / 2, 1);
  }

  /** Where the new page is, and what is not below it. */
  lemma GrowFrame(mem: Memory, ts: Tables, at: map<nat, Node>, f: nat, k: nat, p: nat, m: Node, n: Node)
    requires Ok(mem, ts, at) && ts.Owns(n.o) && Leads(ts, at, f, k, m) && f in mem && k < 512
             && !Present(mem[f][k])
    requires p !in mem && p % 4096 == 0
    ensures Frame(mem, m) == None && Frame(Grow(mem, f, k, p), n) == if n == m then Some(p) else Frame(mem, n)
  {
    var w := p + PTE_U + PTE_W + PTE_P;
    var mem1 := Write(mem, f, k, w);
    WriteIs(mem, f, k, w);
    Flagged(p);
    ZeroPage(mem1, p, n);
    LeadFrame(mem, ts, at, f, k, m);
    if Reads(mem, n, f, k) {
      if !m.Mid? { PlaceOf(mem, ts, at, f); }
      ReadsLead(mem, ts, at, f, k, m, n);
      GrowBelow(mem, f, k, w, p, n);
    } else {
      WalkSame(mem, f, k, w, n);
    }
  }

  /** The page that leads to a place is the page above it. */
  lemma LeadFrame(mem: Memory, ts: Tables, at: map<nat, Node>, f: nat, k: nat, m: Node)
    requires Ok(mem, ts, at) && Leads(ts, at, f, k, m)
    ensures ts.Owns(m.o) && Reads(mem, m, f, k) && Frame(mem, m) == Next(mem, f, k)
  {
    if !m.Mid? { PlaceOf(mem, ts, at, f); }
  }

  /** Through the new entry one gets to the new page and no further. */
  lemma GrowBelow(mem: Memory, f: nat, k: nat, w: nat, p: nat, n: Node)
    requires f in mem && k < |mem[f]| && !Present(mem[f][k]) && Present(w) && Addr(w) == p && p !in mem
             && Reads(mem, n, f, k)
    ensures Frame(mem, n) == None
    ensures Frame(Write(mem, f, k, w), n) in {None, Some(p)}
  {
    WriteIs(mem, f, k, w);
  }

  /** A new table page has its place, and the others keep theirs. */
  lemma GrowKeeps(mem: Memory, ts: Tables, at: map<nat, Node>, f: nat, k: nat, p: nat, m: Node)
    requires Ok(mem, ts, at) && ts.Owns(m.o) && Leads(ts, at, f, k, m) && f in mem && k < 512
             && !Present(mem[f][k])
    requires p !in mem && p % 4096 == 0
    ensures Ok(Grow(mem, f, k, p), ts, at[p := m])
  {
    assert Look(OfMmu, 0);
    var mem', at' := Grow(mem, f, k, p), at[p := m];
    WriteIs(mem, f, k, p + PTE_U + PTE_W + PTE_P);
    forall n: Node | ts.Owns(n.o)
      ensures Frame(mem', n) == if n == m then Some(p) else Frame(mem, n)
    {
      GrowFrame(mem, ts, at, f, k, p, m, n);
    }
    GrowFrame(mem, ts, at, f, k, p, m, m);
    forall g | g in at'
      ensures ts.Owns(at'[g].o) && Frame(mem', at'[g]) == Some(g)
    {
      if g != p { assert Frame(mem, at[g]) == Some(g); }
    }
  }

  /** A new table page changes no entry. */
  lemma GrowEntry(mem: Memory, ts: Tables, at: map<nat, Node>, f: nat, k: nat, p: nat, m: Node, o: Top,
                  i: nat, j: nat, l: nat)
    requires Ok(mem, ts, at) && ts.Owns(o) && Leads(ts, at, f, k, m) && f in mem && k < 512 && !Present(mem[f][k])
    requires p !in mem && p % 4096 == 0
    ensures Entry(Grow(mem, f, k, p), o, i, j, l) == Entry(mem, o, i, j, l)
  {
    var n := Leaf(o, i, j);
    WriteIs(mem, f, k, p + PTE_U + PTE_W + PTE_P);
    GrowFrame(mem, ts, at, f, k, p, m, n);
    if n != m && Frame(mem, n).Some? { FrameAt(mem, ts, at, n); }
  }

  // ------------------------------------------------------------------ the walk

  /** The index fields of an address. */
  function PML4(va: nat): nat { va / 0x80_0000_0000 % 512 }
  function PDPE(va: nat): nat { va / 0x4000_0000 % 512 }
  function PDX(va: nat): nat { va / 0x20_0000 % 512 }
  function PTX(va: nat): nat { va / 0x1000 % 512 }

  /** Slot 0 of the top level holds the addresses below 2^39. */
  const SLOT0: nat := 0x80_0000_0000

  /** is_user_vaddr takes the addresses below this for the user's. */
  const KERN_BASE: nat := 0x80_0400_0000

  /** The page of an address, as the walk sees it: bits 12 to 47. */
  function Page(va: nat): nat {
    va / 4096 % 0x10_0000_0000
  }

  /** Two addresses have the same indices exactly when they are in the same page. */
  lemma SamePage(va: nat, vb: nat)
    ensures (PML4(va), PDPE(va), PDX(va), PTX(va)) == (PML4(vb), PDPE(vb), PDX(vb), PTX(vb)) <==> Page(va) == Page(vb)
  {
    Shifts(va);
    Shifts(vb);
    Digits(va / 4096);
    Digits(vb / 4096);
  }

  lemma Shifts(va: nat)
    ensures PML4(va) == va / 4096 / 0x800_0000 % 512 && PDPE(va) == va / 4096 / 0x4_0000 % 512
    ensures PDX(va) == va / 4096 / 512 % 512 && PTX(va) == va / 4096 % 512
  {
  }

  lemma Digits(p: nat)
    ensures p % 0x10_0000_0000 ==
              p / 0x800_0000 % 512 * 0x800_0000 + p / 0x4_0000 % 512 * 0x4_0000 + p / 512 % 512 * 512 + p % 512
  {
    TopDigit(p);
    MidDigit(p);
    LowDigit(p);
  }

  lemma TopDigit(p: nat)
    ensures p % 0x10_0000_0000 == p / 0x800_0000 % 512 * 0x800_0000 + p % 0x800_0000
  {
  }

  lemma LowDigit(p: nat)
    ensures p % 0x4_0000 == p / 512 % 512 * 512 + p % 512
  {
  }

  lemma MidDigit(p: nat)
    ensures p % 0x800_0000 == p / 0x4_0000 % 512 * 0x4_0000 + p % 0x4_0000
  {
  }

  /** No entry below the top level differs. */
  ghost predicate SameEntries(mem: Memory, mem': Memory, ts: Tables) {
    forall o, i, j, k :: ts.Owns(o) ==> Entry(mem', o, i, j, k) == Entry(mem, o, i, j, k)
  }

  /** Table pages stay where they are. */
  ghost predicate Extends(at: map<nat, Node>, at': map<nat, Node>) {
    forall f :: f in at ==> f in at' && at'[f] == at[f]
  }

  /** A page palloc_get_page (PAL_ASSERT | PAL_ZERO) returns: it panics rather than
      fail. */
  predicate Unused(mem: Memory, p: nat) {
    p !in mem && p % 4096 == 0
  }

  lemma GrowSame(mem: Memory, ts: Tables, at: map<nat, Node>, f: nat, k: nat, p: nat, m: Node)
    requires Ok(mem, ts, at) && Leads(ts, at, f, k, m) && f in mem && k < 512 && !Present(mem[f][k])
             && Unused(mem, p)
    ensures SameEntries(mem, Grow(mem, f, k, p), ts)
  {
    forall o, i, j, l | ts.Owns(o)
      ensures Entry(Grow(mem, f, k, p), o, i, j, l) == Entry(mem, o, i, j, l)
    {
      GrowEntry(mem, ts, at, f, k, p, m, o, i, j, l);
    }
  }

  // ------------------------------------------------------------- shared entries

  /** Beyond slot 0 every table has the kernel's entries, and there is one only in slot 1,
      from the time there are tables to share it. */
  ghost predicate Alike(mem: Memory, ts: Tables)
    requires forall f :: f in ts.Heads() ==> f in mem && |mem[f]| == 512
  {
    && (forall r, s :: r in ts.roots && 1 <= s < 512 ==> mem[r][s] == mem[ts.base][s])
    && (forall s :: 0 <= s < 512 && s != 1 ==> !Present(mem[ts.base][s]))
    && (ts.roots != {} ==> Present(mem[ts.base][1]))
  }

  /** The entry of a table for an address. */
  function Pte(mem: Memory, r: nat, va: nat): nat {
    Entry(mem, Top(r, PML4(va)), PDPE(va), PDX(va), PTX(va))
  }

  /** The translation of an address. */
  function Translate(mem: Memory, r: nat, va: nat): Option<nat> {
    var w := Pte(mem, r, va);
    if Present(w) then Some(Addr(w) + va % 4096) else None
  }

  /** The top-level entry that owns the table pages for an address. */
  function OwnerOf(ts: Tables, r: nat, va: nat): Top {
    Top(if PML4(va) == 0 then r else ts.base, PML4(va))
  }

  /** A walk finds what it finds below the owner's entry, and nothing where nobody owns. */
  lemma WalkOwner(mem: Memory, ts: Tables, at: map<nat, Node>, r: nat, va: nat)
    requires Ok(mem, ts, at) && Alike(mem, ts) && r in ts.Heads()
    ensures var o := OwnerOf(ts, r, va);
            && Next(mem, r, PML4(va)) == Next(mem, o.r, o.s)
            && (!ts.Owns(o) ==> Next(mem, r, PML4(va)) == None)
            && Pte(mem, r, va) == Entry(mem, o, PDPE(va), PDX(va), PTX(va))
  {
    assert Present(mem[ts.base][PML4(va)]) ==> PML4(va) == 1;
  }

  /** Two tables find the same for an address if it is not in slot 0. */
  lemma Shared(mem: Memory, ts: Tables, at: map<nat, Node>, r: nat, t: nat, va: nat)
    requires Ok(mem, ts, at) && Alike(mem, ts) && r in ts.Heads() && t in ts.Heads() && PML4(va) != 0
    ensures Pte(mem, r, va) == Pte(mem, t, va)
  {
    WalkOwner(mem, ts, at, r, va);
    WalkOwner(mem, ts, at, t, va);
  }

  /** No entry of any table differs. */
  ghost predicate SamePtes(mem: Memory, mem': Memory, ts: Tables) {
    forall t, u: nat :: t in ts.Heads() ==> Pte(mem', t, u) == Pte(mem, t, u)
  }

  lemma SameEverywhere(mem: Memory, mem': Memory, ts: Tables, at: map<nat, Node>, at': map<nat, Node>)
    requires Ok(mem, ts, at) && Alike(mem, ts) && Ok(mem', ts, at') && Alike(mem', ts)
    requires var same := SameEntries(mem, mem', ts); same
    ensures var same := SamePtes(mem, mem', ts); same
  {
    forall t, u: nat | t in ts.Heads()
      ensures Pte(mem', t, u) == Pte(mem, t, u)
    {
      WalkOwner(mem, ts, at, t, u);
      WalkOwner(mem', ts, at', t, u);
    }
  }

  /** A new table page keeps the tables alike: if it hangs from the top level, then from slot 0
      or, while there is only the kernel's table, from slot 1. */
  lemma GrowAlike(mem: Memory, ts: Tables, at: map<nat, Node>, f: nat, k: nat, p: nat, m: Node)
    requires Ok(mem, ts, at) && Alike(mem, ts) && Leads(ts, at, f, k, m) && f in mem && k < 512 && !Present(mem[f][k])
             && Unused(mem, p)
    ensures forall r :: r in ts.Heads() ==> r in Grow(mem, f, k, p) && |Grow(mem, f, k, p)[r]| == 512
    ensures Alike(Grow(mem, f, k, p), ts)
  {
    WriteIs(mem, f, k, p + PTE_U + PTE_W + PTE_P);
  }

  lemma LeafAlike(mem: Memory, ts: Tables, at: map<nat, Node>, f: nat, k: nat, w: nat)
    requires Ok(mem, ts, at) && Alike(mem, ts) && f in at && k < 512
    ensures forall r :: r in ts.Heads() ==> r in Write(mem, f, k, w) && |Write(mem, f, k, w)[r]| == 512
    ensures Alike(Write(mem, f, k, w), ts)
  {
    WriteIs(mem, f, k, w);
  }

  class PageTables {
    var mem: Memory
    const base: nat
    ghost var roots: set<nat>
    ghost var at: map<nat, Node>

    ghost function Ts(): Tables
      reads this
    {
      Tables(base, roots)
    }

    ghost predicate Valid()
      reads this
    {
      Ok(mem, Ts(), at) && Alike(mem, Ts())
    }

    /** The kernel's table before paging_init fills it. */
    constructor (base: nat)
      requires base % 4096 == 0
      ensures Valid() && this.base == base && roots == {} && mem.Keys == {base}
      ensures forall va: nat :: Pte(mem, base, va) == 0
    {
      this.base := base;
      mem := map[base := Zeros()];
      roots, at := {}, map[];
    }

    /** What pgdir_walk, pdpe_walk and pml4e_walk have in common: follow an entry,
        making the table page it should point to if there is none and `create`. */
    method Follow(f: nat, i: nat, create: bool, p: nat, ghost n: Node) returns (t: Option<nat>)
      requires Valid() && f in mem && i < 512 && Next(mem, f, i) == Frame(mem, n)
      requires Present(mem[f][i]) ==> Ts().Owns(n.o)
      requires create ==> Unused(mem, p) && (Present(mem[f][i]) || Leads(Ts(), at, f, i, n))
      modifies `mem, `at
      ensures Valid() && SameEntries(old(mem), mem, Ts()) && Extends(old(at), at)
      ensures t.Some? ==> t.value in at && at[t.value] == n
      ensures t.None? ==> !create && Frame(mem, n) == None
      ensures mem.Keys <= old(mem).Keys + {p} && (!create ==> mem == old(mem) && at == old(at))
    {
      if !Present(mem[f][i]) {
        if !create { return None; }
        LeadFrame(mem, Ts(), at, f, i, n);
        GrowKeeps(mem, Ts(), at, f, i, p, n);
        GrowAlike(mem, Ts(), at, f, i, p, n);
        GrowSame(mem, Ts(), at, f, i, p, n);
        WriteIs(mem, f, i, p + PTE_U + PTE_W + PTE_P);
        mem := Grow(mem, f, i, p);
        at := at[p := n];
        return Some(p);
      }
      FrameAt(mem, Ts(), at, n);
      t := Some(Addr(mem[f][i]));
    }

    /** pgdir_walk, from the page directory at place Low(o, i). */
    method PgdirWalk(pd: nat, va: nat, create: bool, p: nat) returns (pt: Option<nat>)
      requires Valid() && pd in at && at[pd].Low? && (create ==> Unused(mem, p))
      modifies `mem, `at
      ensures Valid() && SameEntries(old(mem), mem, Ts()) && Extends(old(at), at)
      ensures var n := Leaf(old(at)[pd].o, old(at)[pd].i, PDX(va));
              && (pt.Some? ==> pt.value in at && at[pt.value] == n)
              && (pt.None? ==> !create && Frame(mem, n) == None)
      ensures mem.Keys <= old(mem).Keys + {p} && (!create ==> mem == old(mem) && at == old(at))
    {
      ghost var n := Leaf(at[pd].o, at[pd].i, PDX(va));
      LeadFrame(mem, Ts(), at, pd, PDX(va), n);
      pt := Follow(pd, PDX(va), create, p, n);
    }

    /** pdpe_walk, from the page-directory-pointer table at place Mid(o). */
    method PdpeWalk(pdp: nat, va: nat, create: bool, p: nat, q: nat) returns (pt: Option<nat>)
      requires Valid() && pdp in at && at[pdp].Mid? && (create ==> Unused(mem, p) && Unused(mem, q) && p != q)
      modifies `mem, `at
      ensures Valid() && SameEntries(old(mem), mem, Ts()) && Extends(old(at), at)
      ensures var n := Leaf(old(at)[pdp].o, PDPE(va), PDX(va));
              && (pt.Some? ==> pt.value in at && at[pt.value] == n)
              && (pt.None? ==> !create && Frame(mem, n) == None)
      ensures mem.Keys <= old(mem).Keys + {p, q} && (!create ==> mem == old(mem) && at == old(at))
    {
      ghost var n := Low(at[pdp].o, PDPE(va));
      LeadFrame(mem, Ts(), at, pdp, PDPE(va), n);
      var pd := Follow(pdp, PDPE(va), create, p, n);
      if pd.None? {
        NoneBelow(mem, n.o, PDPE(va), PDX(va));
        return None;
      }
      pt := PgdirWalk(pd.value, va, create, q);
    }

    /** pml4e_walk: the page table for an address, and with the index PTX the entry.  The fresh
        pages are used only where a table page is missing. */
    method Pml4eWalk(root: Option<nat>, va: nat, create: bool, p: nat, q: nat, s: nat) returns (pt: Option<nat>)
      requires Valid() && (root.Some? ==> root.value in Ts().Heads())
      requires create ==> Unused(mem, p) && Unused(mem, q) && Unused(mem, s) && p != q && p != s && q != s
      requires create && root.Some? ==> Ts().Owns(OwnerOf(Ts(), root.value, va))
      modifies `mem, `at
      ensures var kept := Valid() && SamePtes(old(mem), mem, Ts()); kept
      ensures root.None? ==> pt.None?
      ensures root.Some? ==> var n := Leaf(OwnerOf(Ts(), root.value, va), PDPE(va), PDX(va));
              && (pt.Some? ==> pt.value in at && at[pt.value] == n)
              && (pt.None? ==> !create && Frame(mem, n) == None)
      ensures mem.Keys <= old(mem).Keys + {p, q, s} && (!create ==> mem == old(mem) && at == old(at))
    {
      if root.None? { return None; }
      ghost var o, before, places := OwnerOf(Ts(), root.value, va), mem, at;
      WalkOwner(mem, Ts(), at, root.value, va);
      OwnerLeads(mem, Ts(), at, root.value, va);
      var pdp := Follow(root.value, PML4(va), create, p, Mid(o));
      if pdp.None? { return None; }
      pt := PdpeWalk(pdp.value, va, create, q, s);
      SameEverywhere(before, mem, Ts(), places, at);
    }

    /** Writing the entry for an address in its page table. */
    method WriteEntry(pt: nat, ghost r: nat, va: nat, w: nat)
      requires Valid() && r in Ts().Heads() && pt in at && at[pt] == Leaf(OwnerOf(Ts(), r, va), PDPE(va), PDX(va))
      modifies `mem
      ensures var only := Valid() && Only(old(mem), mem, Ts(), r, va, w); only
      ensures mem.Keys == old(mem).Keys
    {
      LeafKeeps(mem, Ts(), at, pt, PTX(va), w);
      LeafAlike(mem, Ts(), at, pt, PTX(va), w);
      LeafOnly(mem, Ts(), at, pt, r, va, w);
      WriteIs(mem, pt, PTX(va), w);
      mem := Write(mem, pt, PTX(va), w);
    }

    /** The walk of the operations that create nothing, and the entry it finds. */
    method ReadEntry(root: Option<nat>, va: nat) returns (pt: Option<nat>, w: nat)
      requires Valid() && (root.Some? ==> root.value in Ts().Heads())
      modifies `mem, `at
      ensures mem == old(mem) && at == old(at) && w == if root.Some? then Pte(mem, root.value, va) else 0
      ensures root.Some? ==> (pt.Some? <==> Tabled(mem, root.value, va))
      ensures pt.Some? ==> root.Some? && pt.value in at
                           && at[pt.value] == Leaf(OwnerOf(Ts(), root.value, va), PDPE(va), PDX(va))
      ensures pt.None? ==> w == 0
    {
      pt := Pml4eWalk(root, va, false, 0, 0, 0);
      if root.Some? { WalkOwner(mem, Ts(), at, root.value, va); }
      if pt.None? { return pt, 0; }
      PlaceOf(mem, Ts(), at, pt.value);
      FrameOf(mem, Ts(), at, pt.value);
      w := mem[pt.value][PTX(va)];
    }

    /** pml4_get_page: the physical address an address is mapped to. */
    method GetPage(root: Option<nat>, va: nat) returns (pa: Option<nat>)
      requires Valid() && (root.Some? ==> root.value in Ts().Heads())
      modifies `mem, `at
      ensures mem == old(mem) && at == old(at) && pa == if root.Some? then Translate(mem, root.value, va) else None
    {
      var pt, w := ReadEntry(root, va);
      pa := if pt.Some? && Present(w) then Some(Addr(w) + va % 4096) else None;
    }

    /** pml4_set_page: maps one page, in one table if it is in slot 0 and in all if it is not,
        and touches nothing else. */
    method SetPage(root: Option<nat>, upage: nat, kpage: nat, rw: bool, p: nat, q: nat, s: nat) returns (ok: bool)
      requires Valid() && (root.Some? ==> root.value in roots)
      requires upage < KERN_BASE && upage % 4096 == 0 && kpage % 4096 == 0
      requires Unused(mem, p) && Unused(mem, q) && Unused(mem, s) && p != q && p != s && q != s
      modifies `mem, `at
      ensures Valid() && ok == root.Some? && (root.None? ==> mem == old(mem))
      ensures ok ==> Only(old(mem), mem, Ts(), root.value, upage, Mapped(kpage, rw))
      ensures ok ==> Translate(mem, root.value, upage) == Some(kpage)
      ensures ok && upage >= SLOT0 ==> forall t :: t in Ts().Heads() ==> Translate(mem, t, upage) == Some(kpage)
    {
      if root.None? { return false; }
      ghost var before := mem;
      UserSlots(Ts(), root.value, upage);
      var pt := Pml4eWalk(root, upage, true, p, q, s);
      ghost var between := mem;
      WriteEntry(pt.value, root.value, upage, Mapped(kpage, rw));
      OnlyAfter(before, between, mem, Ts(), root.value, upage, Mapped(kpage, rw));
      MappedIs(kpage, rw);
      ok := true;
    }

    /** pml4_clear_page: unmaps one page, and touches nothing else. */
    method ClearPage(root: Option<nat>, upage: nat)
      requires Valid() && (root.Some? ==> root.value in Ts().Heads())
      modifies `mem, `at
      ensures Valid() && (root.None? ==> mem == old(mem))
      ensures root.Some? ==> Only(old(mem), mem, Ts(), root.value, upage, Unmapped(Pte(old(mem), root.value, upage)))
    {
      var pt, w := ReadEntry(root, upage);
      if root.Some? { OnlySame(mem, Ts(), at, root.value, upage); }
      if pt.Some? && Present(w) { WriteEntry(pt.value, root.value, upage, w - 1); }
    }

    /** pml4_set_dirty and pml4_set_accessed. */
    method SetFlag(root: Option<nat>, va: nat, flag: Flag, on: bool)
      requires Valid() && (root.Some? ==> root.value in Ts().Heads())
      modifies `mem, `at
      ensures Valid() && (root.None? ==> mem == old(mem))
      ensures root.Some? ==> Only(old(mem), mem, Ts(), root.value, va,
                                  if Tabled(old(mem), root.value, va)
                                  then Flagging(Pte(old(mem), root.value, va), flag, on) else 0)
    {
      var pt, w := ReadEntry(root, va);
      if root.Some? { OnlySame(mem, Ts(), at, root.value, va); }
      if pt.Some? { WriteEntry(pt.value, root.value, va, Flagging(w, flag, on)); }
    }

    /** pml4_is_dirty and pml4_is_accessed. */
    method TestFlag(root: Option<nat>, va: nat, flag: Flag) returns (on: bool)
      requires Valid() && (root.Some? ==> root.value in Ts().Heads())
      modifies `mem, `at
      ensures mem == old(mem) && at == old(at) && (on <==> root.Some? && HasFlag(Pte(mem, root.value, va), flag))
    {
      var pt, w := ReadEntry(root, va);
      on := pt.Some? && HasFlag(w, flag);
    }

    /** paging_init: every physical page below `end` at its kernel address, read-only where the
        kernel's text is.  A page of physical memory may take up to three fresh pages. */
    method PagingInit(end: nat, text: nat -> bool, pages: nat -> nat) returns (used: nat)
      requires Valid() && roots == {} && end <= 0x7F_FC00_0000 && Supply(mem, pages, 0) && NoUserPage(mem, base)
      modifies `mem, `at
      ensures Valid() && (end > 0 ==> Present(mem[base][1])) && Supply(mem, pages, used)
      ensures forall n: nat :: n * 4096 < end ==> Pte(mem, base, Ptov(n)) == KernelEntry(n, text(Ptov(n)))
      ensures NoUserPage(mem, base)
    {
      var n := 0;
      while n * 4096 < end
        invariant var valid := Valid(); valid
        invariant (n > 0 ==> Present(mem[base][1])) && Filled(mem, base, n, text, pages)
      {
        ghost var before := mem;
        FilledNext(mem, base, n, text, pages);
        MapKernel(n, text(Ptov(n)), pages(3 * n), pages(3 * n + 1), pages(3 * n + 2));
        FilledStep(before, mem, Ts(), n, text, pages);
        n := n + 1;
      }
      used := 3 * n;
      assert Look(OfTables, 0);
    }

    /** The body of paging_init's loop. */
    method MapKernel(n: nat, text: bool, p: nat, q: nat, s: nat)
      requires Valid() && roots == {} && n < 0x7FF_C000
      requires Unused(mem, p) && Unused(mem, q) && Unused(mem, s) && p != q && p != s && q != s
      modifies `mem, `at
      ensures var valid := Valid(); valid
      ensures mem.Keys <= old(mem).Keys + {p, q, s} && Present(mem[base][1])
      ensures var only := Only(old(mem), mem, Ts(), base, Ptov(n), KernelEntry(n, text)); only
    {
      ghost var before := mem;
      KernelSlot(n);
      var pt := Pml4eWalk(Some(base), Ptov(n), true, p, q, s);
      ghost var between := mem;
      WriteEntry(pt.value, base, Ptov(n), KernelEntry(n, text));
      OnlyAfter(before, between, mem, Ts(), base, Ptov(n), KernelEntry(n, text));
      LeafPresent(mem, Ts(), at, pt.value);
    }

    /** pml4_create: a copy of the kernel's table, once paging_init has filled it; NULL if there
        is no page. */
    method Create(page: Option<nat>) returns (root: Option<nat>)
      requires Valid() && Present(mem[base][1]) && (page.Some? ==> Unused(mem, page.value))
      modifies this
      ensures Valid() && root == page && at == old(at)
      ensures root.None? ==> mem == old(mem) && roots == old(roots)
      ensures root.Some? ==> roots == old(roots) + {root.value} && mem == old(mem)[root.value := old(mem)[base]]
      ensures SamePtes(old(mem), mem, old(Ts()))
      ensures root.Some? ==> forall va: nat :: Pte(mem, root.value, va) == Pte(old(mem), base, va)
      ensures root.Some? ==> forall va: nat :: va < SLOT0 ==> Pte(mem, root.value, va) == 0
    {
      root := page;
      if page.Some? {
        CreateKeeps(mem, Ts(), at, page.value);
        mem := mem[page.value := mem[base]];
        roots := roots + {page.value};
      }
    }

    /** pgdir_destroy: the page tables under a page directory, and the directory. */
    method PgdirDestroy(pd: nat) returns (freed: seq<nat>)
      requires Valid() && pd in at && at[pd].Low?
      ensures NoDup(freed) && forall f :: f in freed <==> f in at && Under(at[pd], at[f])
    {
      PlaceOf(mem, Ts(), at, pd);
      FrameAt(mem, Ts(), at, at[pd]);
      freed := [];
      var j := 0;
      while j < 512
        invariant j <= 512 && NoDup(freed)
        invariant forall f :: f in freed <==>
                    f in at && at[f].Leaf? && at[f].o == at[pd].o && at[f].i == at[pd].i && at[f].j < j
      {
        LeadFrame(mem, Ts(), at, pd, j, Leaf(at[pd].o, at[pd].i, j));
        LeafIndex(mem, Ts(), at, Leaf(at[pd].o, at[pd].i, j));
        if Present(mem[pd][j]) {
          FrameAt(mem, Ts(), at, Leaf(at[pd].o, at[pd].i, j));
          freed := freed + [Addr(mem[pd][j])];
        }
        j := j + 1;
      }
      LeafBound(mem, Ts(), at);
      OnlyPage(mem, Ts(), at, pd);
      freed := freed + [pd];
    }

    /** pdpe_destroy: the directories under a pointer table and what is under them,
        and the pointer table. */
    method PdpeDestroy(pdp: nat) returns (freed: seq<nat>)
      requires Valid() && pdp in at && at[pdp].Mid?
      ensures NoDup(freed) && forall f :: f in freed <==> f in at && at[f].o == at[pdp].o
    {
      ghost var o := at[pdp].o;
      PlaceOf(mem, Ts(), at, pdp);
      FrameAt(mem, Ts(), at, at[pdp]);
      freed := [];
      var i := 0;
      while i < 512
        invariant i <= 512 && NoDup(freed)
        invariant forall f :: f in freed <==> f in at && !at[f].Mid? && at[f].o == o && at[f].i < i
      {
        LeadFrame(mem, Ts(), at, pdp, i, Low(o, i));
        if Present(mem[pdp][i]) {
          FrameAt(mem, Ts(), at, Low(o, i));
          var more := PgdirDestroy(Addr(mem[pdp][i]));
          NoDupConcat(freed, more);
          freed := freed + more;
        }
        NothingBelow(mem, Ts(), at, o, i);
        i := i + 1;
      }
      LeafBound(mem, Ts(), at);
      OnlyPage(mem, Ts(), at, pdp);
      NoDupConcat(freed, [pdp]);
      freed := freed + [pdp];
    }

    /** The pages pml4_destroy frees, in its order. */
    method Pml4Destroy(r: nat) returns (freed: seq<nat>)
      requires Valid() && r in roots
      ensures NoDup(freed) && forall f :: f in freed <==> f == r || (f in at && at[f].o == Top(r, 0))
    {
      freed := [];
      if Present(mem[r][0]) {
        FrameAt(mem, Ts(), at, Mid(Top(r, 0)));
        freed := PdpeDestroy(Addr(mem[r][0]));
      }
      NothingThere(mem, Ts(), at, Top(r, 0));
      NoDupConcat(freed, [r]);
      freed := freed + [r];
    }

    /** pml4_destroy: the table and each table page of its own part, once each; the mapped
        pages themselves are not freed. */
    method Destroy(root: Option<nat>) returns (freed: seq<nat>)
      requires Valid() && (root.Some? ==> root.value in roots)
      modifies this
      ensures root.None? ==> freed == [] && mem == old(mem) && roots == old(roots) && at == old(at)
      ensures root.Some? ==>
                Valid() && NoDup(freed) && roots == old(roots) - {root.value} && SamePtes(old(mem), mem, Ts())
      ensures root.Some? ==>
                forall f :: f in freed <==> f == root.value || (f in old(at) && old(at)[f].o == Top(root.value, 0))
    {
      if root.None? { return []; }
      freed := Pml4Destroy(root.value);
      var gone := set f | f in freed;
      DropTable(mem, Ts(), at, root.value, gone);
      mem := map f | f in mem && f !in gone :: mem[f];
      at := map f | f in at && f !in gone :: at[f];
      roots := roots - {root.value};
    }
  }

  /** Two processes' tables. */
  method TwoTables(pages: nat -> nat) returns (tables: PageTables, used: nat)
    requires Supply(map[0x10_0000 := []], pages, 0)
    ensures tables.Valid() && Supply(tables.mem, pages, used + 2) && fresh(tables)
    ensures tables.roots == {pages(used), pages(used + 1)} && pages(used) != pages(used + 1)
    ensures forall r :: r in tables.roots ==> NoUserPage(tables.mem, r)
  {
    tables := new PageTables(0x10_0000);
    used := tables.PagingInit(4096, _ => false, pages);
    var _ := tables.Create(Some(pages(used)));
    var _ := tables.Create(Some(pages(used + 1)));
  }

  /** 0x8000000000 is a user address, but one process's mapping of it is everyone's. */
  method MappedInBoth() returns (tables: PageTables, r: nat, t: nat, ghost before: Memory)
    ensures tables.Valid() && tables.roots == {r, t} && r != t
    ensures Translate(before, r, SLOT0) == None && Translate(before, t, SLOT0) == None
    ensures Translate(tables.mem, r, SLOT0) == Some(0x5000) && Translate(tables.mem, t, SLOT0) == Some(0x5000)
    ensures Only(before, tables.mem, tables.Ts(), r, SLOT0, Mapped(0x5000, true))
  {
    var pages: nat -> nat := n => 0x20_0000 + n * 4096;
    var used: nat;
    tables, used := TwoTables(pages);
    r, t, before := pages(used), pages(used + 1), tables.mem;
    var _ := tables.SetPage(Some(r), SLOT0, 0x5000, true, pages(used + 2), pages(used + 3), pages(used + 4));
  }

  lemma NoDupConcat<X>(a: seq<X>, b: seq<X>)
    requires NoDup(a) && NoDup(b) && forall x :: x in a ==> x !in b
    ensures NoDup(a + b)
  {
    forall i, j | 0 <= i < j < |a + b|
      ensures (a + b)[i] != (a + b)[j]
    {
      if i < |a| <= j { assert (a + b)[i] in a && (a + b)[j] in b; }
    }
  }

  /** If an entry is not present, no page is at or below the place it stands for. */
  lemma NothingBelow(mem: Memory, ts: Tables, at: map<nat, Node>, o: Top, i: nat)
    requires Ok(mem, ts, at)
    ensures Frame(mem, Low(o, i)) == None ==> forall f :: f in at && !at[f].Mid? && at[f].o == o ==> at[f].i != i
  {
    if Frame(mem, Low(o, i)) == None {
      forall f | f in at && !at[f].Mid? && at[f].o == o
        ensures at[f].i != i
      {
        PlaceOf(mem, ts, at, f);
      }
    }
  }

  lemma NothingThere(mem: Memory, ts: Tables, at: map<nat, Node>, o: Top)
    requires Ok(mem, ts, at)
    ensures Frame(mem, Mid(o)) == None ==> forall f :: f in at ==> at[f].o != o
  {
    if Frame(mem, Mid(o)) == None {
      forall f | f in at
        ensures at[f].o != o
      {
        PlaceOf(mem, ts, at, f);
      }
    }
  }

  lemma OnlyPage(mem: Memory, ts: Tables, at: map<nat, Node>, pdp: nat)
    requires Ok(mem, ts, at) && pdp in at
    ensures forall f :: f in at && at[f] == at[pdp] ==> f == pdp
  {
    forall f | f in at && at[f] == at[pdp]
      ensures f == pdp
    {
      PlaceOf(mem, ts, at, f);
      PlaceOf(mem, ts, at, pdp);
    }
  }

  /** What is left of a table's pages. */
  ghost predicate Gone(at: map<nat, Node>, r: nat, gone: set<nat>) {
    forall f :: f in gone <==> f == r || (f in at && at[f].o == Top(r, 0))
  }

  /** A table and its pages go; the others stay as they are. */
  lemma DropTable(mem: Memory, ts: Tables, at: map<nat, Node>, r: nat, gone: set<nat>)
    requires Ok(mem, ts, at) && Alike(mem, ts) && r in ts.roots && Gone(at, r, gone)
    ensures var mem', at', ts' := map f | f in mem && f !in gone :: mem[f], map f | f in at && f !in gone :: at[f],
                                  ts.(roots := ts.roots - {r});
            Ok(mem', ts', at') && Alike(mem', ts') && SamePtes(mem, mem', ts')
  {
    var mem', at', ts' := map f | f in mem && f !in gone :: mem[f], map f | f in at && f !in gone :: at[f],
                          ts.(roots := ts.roots - {r});
    DropOk(mem, ts, at, r, gone, mem', at', ts');
    forall t, u: nat | t in ts'.Heads()
      ensures Pte(mem', t, u) == Pte(mem, t, u)
    {
      WalkOwner(mem, ts, at, t, u);
      WalkOwner(mem', ts', at', t, u);
    }
  }

  lemma DropOk(mem: Memory, ts: Tables, at: map<nat, Node>, r: nat, gone: set<nat>, mem': Memory,
               at': map<nat, Node>, ts': Tables)
    requires Ok(mem, ts, at) && Alike(mem, ts) && r in ts.roots && Gone(at, r, gone)
    requires mem' == (map f | f in mem && f !in gone :: mem[f]) && at' == (map f | f in at && f !in gone :: at[f])
    requires ts' == ts.(roots := ts.roots - {r})
    ensures Ok(mem', ts', at') && Alike(mem', ts') && SameEntries(mem, mem', ts')
  {
    DropPlaced(mem, ts, at, r, gone, mem', at', ts');
    forall o, i, j, k | ts'.Owns(o)
      ensures Entry(mem', o, i, j, k) == Entry(mem, o, i, j, k)
    {
      DropFrame(mem, ts, at, r, gone, Leaf(o, i, j));
      if Frame(mem, Leaf(o, i, j)).Some? { FrameAt(mem, ts, at, Leaf(o, i, j)); }
    }
  }

  lemma DropPlaced(mem: Memory, ts: Tables, at: map<nat, Node>, r: nat, gone: set<nat>, mem': Memory,
                   at': map<nat, Node>, ts': Tables)
    requires Ok(mem, ts, at) && r in ts.roots && Gone(at, r, gone)
    requires mem' == (map f | f in mem && f !in gone :: mem[f]) && at' == (map f | f in at && f !in gone :: at[f])
    requires ts' == ts.(roots := ts.roots - {r})
    ensures Placed(mem', ts', at')
  {
    forall f | f in at'
      ensures ts'.Owns(at'[f].o) && Frame(mem', at'[f]) == Some(f)
    {
      PlaceOf(mem, ts, at, f);
      DropFrame(mem, ts, at, r, gone, at[f]);
    }
    forall n: Node | ts'.Owns(n.o) && Frame(mem', n).Some?
      ensures Frame(mem', n).value in at' && at'[Frame(mem', n).value] == n
    {
      DropFrame(mem, ts, at, r, gone, n);
      FrameAt(mem, ts, at, n);
    }
  }

  lemma DropFrame(mem: Memory, ts: Tables, at: map<nat, Node>, r: nat, gone: set<nat>, n: Node)
    requires Ok(mem, ts, at) && r in ts.roots && ts.Owns(n.o) && n.o.r != r && Gone(at, r, gone)
    ensures Frame(map f | f in mem && f !in gone :: mem[f], n) == Frame(mem, n)
  {
    if Frame(mem, Mid(n.o)).Some? { FrameAt(mem, ts, at, Mid(n.o)); }
    if n.Leaf? && Frame(mem, Low(n.o, n.i)).Some? { FrameAt(mem, ts, at, Low(n.o, n.i)); }
  }

  /** `n` is the place `m` or below it. */
  predicate Under(m: Node, n: Node) {
    m.o == n.o &&
    match m
    case Mid(_) => true
    case Low(_, i) => (n.Low? || n.Leaf?) && n.i == i
    case Leaf(_, _, _) => n == m
  }

  /** The page at a leaf place, if any, is the one its entry points to. */
  lemma LeafIndex(mem: Memory, ts: Tables, at: map<nat, Node>, n: Node)
    requires Ok(mem, ts, at)
    ensures forall f :: f in at && at[f] == n ==> Frame(mem, n) == Some(f)
  {
    assert Look(OfMmu, 0);
  }

  /** Places below 512 only. */
  lemma LeafBound(mem: Memory, ts: Tables, at: map<nat, Node>)
    requires Ok(mem, ts, at)
    ensures forall f :: f in at && at[f].Leaf? ==> at[f].j < 512 && at[f].i < 512
    ensures forall f :: f in at && at[f].Low? ==> at[f].i < 512
  {
    forall f | f in at
      ensures at[f].Leaf? ==> at[f].j < 512 && at[f].i < 512
      ensures at[f].Low? ==> at[f].i < 512
    {
      PlaceOf(mem, ts, at, f);
      PlaceBound(mem, at[f]);
    }
  }

  lemma PlaceBound(mem: Memory, n: Node)
    requires PagesOk(mem) && Frame(mem, n).Some?
    ensures (n.Leaf? ==> n.j < 512 && n.i < 512) && (n.Low? ==> n.i < 512)
  {
  }

  lemma CreateKeeps(mem: Memory, ts: Tables, at: map<nat, Node>, root: nat)
    requires Ok(mem, ts, at) && Alike(mem, ts) && Unused(mem, root) && Present(mem[ts.base][1])
    ensures var mem', ts' := mem[root := mem[ts.base]], ts.(roots := ts.roots + {root});
            && Ok(mem', ts', at) && Alike(mem', ts') && SamePtes(mem, mem', ts)
            && (forall va: nat :: Pte(mem', root, va) == Pte(mem, ts.base, va))
            && (forall va: nat :: va < SLOT0 ==> Pte(mem', root, va) == 0)
  {
    var mem', ts' := mem[root := mem[ts.base]], ts.(roots := ts.roots + {root});
    CreateOk(mem, ts, at, root, mem', ts');
    forall t, u: nat | t in ts.Heads()
      ensures Pte(mem', t, u) == Pte(mem, t, u)
    {
      WalkOwner(mem, ts, at, t, u);
      WalkOwner(mem', ts', at, t, u);
    }
    forall va: nat
      ensures Pte(mem', root, va) == Pte(mem, ts.base, va) && (va < SLOT0 ==> Pte(mem', root, va) == 0)
    {
      WalkOwner(mem, ts, at, ts.base, va);
      WalkOwner(mem', ts', at, root, va);
    }
  }

  lemma CreateOk(mem: Memory, ts: Tables, at: map<nat, Node>, root: nat, mem': Memory, ts': Tables)
    requires Ok(mem, ts, at) && Alike(mem, ts) && Unused(mem, root) && Present(mem[ts.base][1])
    requires mem' == mem[root := mem[ts.base]] && ts' == ts.(roots := ts.roots + {root})
    ensures Ok(mem', ts', at) && Alike(mem', ts') && SameEntries(mem, mem', ts)
  {
    CreatePlaced(mem, ts, at, root, mem', ts');
    forall o, i, j, k | ts.Owns(o)
      ensures Entry(mem', o, i, j, k) == Entry(mem, o, i, j, k)
    {
      CreateFrame(mem, ts, at, root, Leaf(o, i, j));
      if Frame(mem, Leaf(o, i, j)).Some? { FrameAt(mem, ts, at, Leaf(o, i, j)); }
    }
  }

  lemma CreatePlaced(mem: Memory, ts: Tables, at: map<nat, Node>, root: nat, mem': Memory, ts': Tables)
    requires Ok(mem, ts, at) && Alike(mem, ts) && Unused(mem, root)
    requires mem' == mem[root := mem[ts.base]] && ts' == ts.(roots := ts.roots + {root})
    ensures Placed(mem', ts', at)
  {
    forall f | f in at
      ensures ts'.Owns(at[f].o) && Frame(mem', at[f]) == Some(f)
    {
      PlaceOf(mem, ts, at, f);
      CreateFrame(mem, ts, at, root, at[f]);
    }
    forall n: Node | ts'.Owns(n.o) && Frame(mem', n).Some?
      ensures Frame(mem', n).value in at && at[Frame(mem', n).value] == n
    {
      assert n.o.r != root;
      CreateFrame(mem, ts, at, root, n);
      FrameAt(mem, ts, at, n);
    }
  }

  /** The walks of the other tables never meet the new page. */
  lemma CreateFrame(mem: Memory, ts: Tables, at: map<nat, Node>, root: nat, n: Node)
    requires Ok(mem, ts, at) && root !in mem && ts.Owns(n.o)
    ensures Frame(mem[root := mem[ts.base]], n) == Frame(mem, n)
  {
    if Frame(mem, Mid(n.o)).Some? { FrameAt(mem, ts, at, Mid(n.o)); }
    if n.Leaf? && Frame(mem, Low(n.o, n.i)).Some? { FrameAt(mem, ts, at, Low(n.o, n.i)); }
  }

  /** There is a page table for the address. */
  predicate Tabled(mem: Memory, r: nat, va: nat) {
    Frame(mem, Leaf(Top(r, PML4(va)), PDPE(va), PDX(va))).Some?
  }

  /** Where a table page is missing in the top level, its place is the owner's. */
  lemma OwnerLeads(mem: Memory, ts: Tables, at: map<nat, Node>, r: nat, va: nat)
    requires Ok(mem, ts, at) && Alike(mem, ts) && r in ts.Heads()
    ensures ts.Owns(OwnerOf(ts, r, va)) ==>
              Present(mem[r][PML4(va)]) || Leads(ts, at, r, PML4(va), Mid(OwnerOf(ts, r, va)))
  {
  }

  /** User addresses are in slot 0 or 1, which have owners. */
  lemma UserSlots(ts: Tables, r: nat, va: nat)
    requires r in ts.roots && va < KERN_BASE
    ensures ts.Owns(OwnerOf(ts, r, va)) && (PML4(va) == 0 <==> va < SLOT0)
  {
  }

  /** The kernel's address of page `n` of physical memory. */
  function Ptov(n: nat): nat {
    KERN_BASE + n * 4096
  }

  /** The kernel's addresses of physical pages are in slot 1, each in a page of its own. */
  lemma KernelSlot(n: nat)
    requires n < 0x7FF_C000
    ensures PML4(Ptov(n)) == 1 && Page(Ptov(n)) == 0x800_4000 + n
  {
  }

  /** The entry pml4_set_page writes. */
  function Mapped(kpage: nat, rw: bool): nat {
    kpage + PTE_P + (if rw then PTE_W else 0) + PTE_U
  }

  lemma MappedIs(kpage: nat, rw: bool)
    requires kpage % 4096 == 0
    ensures Present(Mapped(kpage, rw)) && Addr(Mapped(kpage, rw)) == kpage
  {
    FlagBits(kpage, if rw then 7 else 5);
  }

  /** Table `t` has the same entry as table `r` for the page of `va`, whatever is written. */
  predicate Common(r: nat, t: nat, va: nat) {
    t == r || PML4(va) != 0
  }

  /** The page of `va` has entry `w` in table `r` and the tables that have it in common; every
      other page of every table has the entry it had. */
  ghost predicate Only(mem: Memory, mem': Memory, ts: Tables, r: nat, va: nat, w: nat) {
    forall t, u: nat :: t in ts.Heads() ==>
      Pte(mem', t, u) == if Common(r, t, va) && Page(u) == Page(va) then w else Pte(mem, t, u)
  }

  lemma LeafOnly(mem: Memory, ts: Tables, at: map<nat, Node>, f: nat, r: nat, va: nat, w: nat)
    requires Ok(mem, ts, at) && Alike(mem, ts) && r in ts.Heads()
    requires f in at && at[f] == Leaf(OwnerOf(ts, r, va), PDPE(va), PDX(va))
    ensures Only(mem, Write(mem, f, PTX(va), w), ts, r, va, w)
  {
    forall t, u: nat | t in ts.Heads()
      ensures Pte(Write(mem, f, PTX(va), w), t, u) ==
                if Common(r, t, va) && Page(u) == Page(va) then w else Pte(mem, t, u)
    {
      LeafPte(mem, ts, at, f, r, va, w, t, u);
    }
  }

  lemma LeafPte(mem: Memory, ts: Tables, at: map<nat, Node>, f: nat, r: nat, va: nat, w: nat, t: nat, u: nat)
    requires Ok(mem, ts, at) && Alike(mem, ts) && r in ts.Heads() && t in ts.Heads()
    requires f in at && at[f] == Leaf(OwnerOf(ts, r, va), PDPE(va), PDX(va))
    ensures Pte(Write(mem, f, PTX(va), w), t, u) ==
              if Common(r, t, va) && Page(u) == Page(va) then w else Pte(mem, t, u)
  {
    var mem' := Write(mem, f, PTX(va), w);
    LeafKeeps(mem, ts, at, f, PTX(va), w);
    LeafAlike(mem, ts, at, f, PTX(va), w);
    WalkOwner(mem, ts, at, t, u);
    WalkOwner(mem', ts, at, t, u);
    SamePage(u, va);
    PlaceOf(mem, ts, at, f);
    if ts.Owns(OwnerOf(ts, t, u)) {
      LeafEntry(mem, ts, at, f, PTX(va), w, OwnerOf(ts, t, u), PDPE(u), PDX(u), PTX(u));
    }
  }

  /** A walk that changes no entry, then a write. */
  lemma OnlyAfter(a: Memory, b: Memory, c: Memory, ts: Tables, r: nat, va: nat, w: nat)
    requires var same := SamePtes(a, b, ts); same
    requires var only := Only(b, c, ts, r, va, w); only
    ensures var only := Only(a, c, ts, r, va, w); only
  {
  }

  lemma OnlySame(mem: Memory, ts: Tables, at: map<nat, Node>, r: nat, va: nat)
    requires Ok(mem, ts, at) && Alike(mem, ts) && r in ts.Heads()
    ensures Only(mem, mem, ts, r, va, Pte(mem, r, va))
  {
    forall t, u: nat | t in ts.Heads() && Common(r, t, va) && Page(u) == Page(va)
      ensures Pte(mem, t, u) == Pte(mem, r, va)
    {
      SamePage(u, va);
      if t != r { Shared(mem, ts, at, r, t, va); }
    }
  }

  /** A change of one page's entry leaves the other tables as they are exactly when the page is
      in slot 0, or had that entry already. */
  lemma OwnTableExactly(mem: Memory, mem': Memory, ts: Tables, at: map<nat, Node>, r: nat, va: nat, w: nat)
    requires Ok(mem, ts, at) && Alike(mem, ts) && r in ts.roots && va < KERN_BASE && Only(mem, mem', ts, r, va, w)
    ensures (forall t, u: nat :: t in ts.Heads() && t != r ==> Pte(mem', t, u) == Pte(mem, t, u)) <==>
            va < SLOT0 || Pte(mem, r, va) == w
  {
    UserSlots(ts, r, va);
    if va >= SLOT0 {
      Shared(mem, ts, at, r, ts.base, va);
      assert Pte(mem', ts.base, va) == w;
      if Pte(mem, r, va) == w {
        forall t, u: nat | t in ts.Heads()
          ensures Pte(mem', t, u) == Pte(mem, t, u)
        {
          SamePage(u, va);
          Shared(mem, ts, at, r, t, va);
        }
      }
    }
  }

  /** No user address has an entry. */
  ghost predicate NoUserPage(mem: Memory, r: nat) {
    forall va: nat :: va < KERN_BASE ==> Pte(mem, r, va) == 0
  }

  /** The entries paging_init writes. */
  function KernelEntry(n: nat, text: bool): nat {
    n * 4096 + PTE_P + if text then 0 else PTE_W
  }

  /** The first `count` pages of physical memory are at their kernel addresses. */
  ghost predicate Direct(mem: Memory, r: nat, count: nat, text: nat -> bool) {
    forall n: nat :: n < count ==> Pte(mem, r, Ptov(n)) == KernelEntry(n, text(Ptov(n)))
  }

  /** Pages that palloc hands out one after the other. */
  ghost predicate Supply(mem: Memory, pages: nat -> nat, k: nat) {
    && (forall m :: m >= k ==> Unused(mem, pages(m)))
    && (forall m, n :: m != n ==> pages(m) != pages(n))
  }

  /** What paging_init has done after `n` pages, for proofs that only hand it on. */
  ghost predicate Filled(mem: Memory, r: nat, n: nat, text: nat -> bool, pages: nat -> nat) {
    forall z: nat {:trigger Look(OfTables, z)} :: Look(OfTables, z) ==>
      Direct(mem, r, n, text) && Supply(mem, pages, 3 * n) && NoUserPage(mem, r)
  }

  lemma FilledNext(mem: Memory, r: nat, n: nat, text: nat -> bool, pages: nat -> nat)
    requires Filled(mem, r, n, text, pages)
    ensures var p, q, s := pages(3 * n), pages(3 * n + 1), pages(3 * n + 2);
            Unused(mem, p) && Unused(mem, q) && Unused(mem, s) && p != q && p != s && q != s
  {
    assert Look(OfTables, 0);
  }

  lemma FilledStep(mem: Memory, mem': Memory, ts: Tables, n: nat, text: nat -> bool, pages: nat -> nat)
    requires n < 0x7FF_C000 && Filled(mem, ts.base, n, text, pages)
    requires var only := Only(mem, mem', ts, ts.base, Ptov(n), KernelEntry(n, text(Ptov(n)))); only
    requires mem'.Keys <= mem.Keys + {pages(3 * n), pages(3 * n + 1), pages(3 * n + 2)}
    ensures Filled(mem', ts.base, n + 1, text, pages)
  {
    assert Look(OfTables, 0);
    forall m: nat | m < n + 1
      ensures Pte(mem', ts.base, Ptov(m)) == KernelEntry(m, text(Ptov(m)))
    {
      KernelSlot(m);
      KernelSlot(n);
    }
    forall va: nat | va < KERN_BASE
      ensures Pte(mem', ts.base, va) == 0
    {
      KernelSlot(n);
      PageLow(va);
    }
  }

  lemma PageLow(va: nat)
    requires va < KERN_BASE
    ensures Page(va) < 0x800_4000
  {
    assert va / 4096 < 0x800_4000;
  }

  /** What the user's operations do leaves the kernel's map of physical memory as it is, in
      every table. */
  lemma DirectKept(mem: Memory, mem': Memory, ts: Tables, r: nat, va: nat, w: nat, count: nat, text: nat -> bool)
    requires Only(mem, mem', ts, r, va, w) && va < KERN_BASE && count <= 0x7FF_C000
    requires forall t :: t in ts.Heads() ==> Direct(mem, t, count, text)
    ensures forall t :: t in ts.Heads() ==> Direct(mem', t, count, text)
  {
    forall t, n: nat | t in ts.Heads() && n < count
      ensures Pte(mem', t, Ptov(n)) == KernelEntry(n, text(Ptov(n)))
    {
      KernelSlot(n);
      PageLow(va);
    }
  }

  /** The entry pml4_clear_page leaves. */
  function Unmapped(w: nat): (v: nat)
    ensures !Present(v) && (v == w || v + 1 == w)
  {
    if Present(w) then w - 1 else w
  }

  /** The entry a page table holds is the table's entry. */
  lemma FrameOf(mem: Memory, ts: Tables, at: map<nat, Node>, f: nat)
    requires Ok(mem, ts, at) && f in at && at[f].Leaf?
    ensures f in mem && |mem[f]| == 512 && forall k: nat :: k < 512 ==>
              Entry(mem, at[f].o, at[f].i, at[f].j, k) == mem[f][k]
  {
    PlaceOf(mem, ts, at, f);
  }

  lemma LeafPresent(mem: Memory, ts: Tables, at: map<nat, Node>, f: nat)
    requires Ok(mem, ts, at) && f in at
    ensures var o := at[f].o; o.r in mem && o.s < |mem[o.r]| && Present(mem[o.r][o.s])
  {
    PlaceOf(mem, ts, at, f);
  }

  /** The flags the processor sets: PTE_A is 0x20, PTE_D 0x40. */
  datatype Flag = Accessed | Dirty {
    function Bit(): nat {
      if Accessed? then 0x20 else 0x40
    }
  }

  predicate HasFlag(w: nat, flag: Flag) {
    if flag.Accessed? then w % 0x40 >= 0x20 else w % 0x80 >= 0x40
  }

  /** Setting a flag; clearing one masks with a 32-bit word and so drops the upper
      half of the entry. */
  function Flagging(w: nat, flag: Flag, on: bool): nat {
    var low := w % 0x1_0000_0000;
    if on && HasFlag(w, flag) then w
    else if on then w + flag.Bit()
    else if HasFlag(low, flag) then low - flag.Bit()
    else low
  }

  /** Setting or clearing the dirty or accessed bit keeps the translation exactly
      when it does not clear, or the page is below 4 GiB. */
  lemma FlaggingKeeps(w: nat, flag: Flag, on: bool)
    ensures Present(Flagging(w, flag, on)) == Present(w)
    ensures Addr(Flagging(w, flag, on)) == Addr(w) <==> on || w < 0x1_0000_0000
    ensures HasFlag(Flagging(w, flag, on), flag) == on
  {
    if on && !HasFlag(w, flag) {
      FlipFlag(w, flag);
    } else if !on {
      LowHalf(w);
      var low := w % 0x1_0000_0000;
      if HasFlag(low, flag) { FlipFlag(low - flag.Bit(), flag); }
    }
  }

  /** Adding a flag that is not set. */
  lemma FlipFlag(w: nat, flag: Flag)
    ensures HasFlag(w + flag.Bit(), flag) == !HasFlag(w, flag)
    ensures !HasFlag(w, flag) ==> (w + flag.Bit()) % 2 == w % 2 && Addr(w + flag.Bit()) == Addr(w)
  {
    if flag.Accessed? { FlipAccessed(w); } else { FlipDirty(w); }
  }

  lemma FlipAccessed(w: nat)
    ensures (w + 32) % 64 >= 32 <==> w % 64 < 32
    ensures w % 64 < 32 ==> (w + 32) % 2 == w % 2 && Addr(w + 32) == Addr(w)
  {
    var r := w % 4096;
    assert w == 4096 * (w / 4096) + r && r == 64 * (r / 64) + r % 64;
    ModIs(w, 64, 64 * (w / 4096) + r / 64, r % 64);
    Flip20(w, w / 4096, r / 64, r % 64);
  }

  lemma FlipDirty(w: nat)
    ensures (w + 64) % 128 >= 64 <==> w % 128 < 64
    ensures w % 128 < 64 ==> (w + 64) % 2 == w % 2 && Addr(w + 64) == Addr(w)
  {
    var r := w % 4096;
    assert w == 4096 * (w / 4096) + r && r == 128 * (r / 128) + r % 128;
    ModIs(w, 128, 32 * (w / 4096) + r / 128, r % 128);
    Flip40(w, w / 4096, r / 128, r % 128);
  }

  lemma Flip20(w: nat, q: nat, a: nat, b: nat)
    requires w == 4096 * q + 64 * a + b && a < 64 && b < 64
    ensures (w + 32) % 64 >= 32 <==> b < 32
    ensures b < 32 ==> (w + 32) % 2 == w % 2 && Addr(w + 32) == Addr(w)
  {
    ModIs(w, 4096, q, 64 * a + b);
    if b < 32 {
      ModIs(w + 32, 64, 64 * q + a, b + 32);
      ModIs(w + 32, 4096, q, 64 * a + b + 32);
    } else {
      ModIs(w + 32, 64, 64 * q + a + 1, b - 32);
    }
  }

  lemma Flip40(w: nat, q: nat, a: nat, b: nat)
    requires w == 4096 * q + 128 * a + b && a < 32 && b < 128
    ensures (w + 64) % 128 >= 64 <==> b < 64
    ensures b < 64 ==> (w + 64) % 2 == w % 2 && Addr(w + 64) == Addr(w)
  {
    ModIs(w, 4096, q, 128 * a + b);
    if b < 64 {
      ModIs(w + 64, 128, 32 * q + a, b + 64);
      ModIs(w + 64, 4096, q, 128 * a + b + 64);
    } else {
      ModIs(w + 64, 128, 32 * q + a + 1, b - 64);
    }
  }

  lemma LowHalf(w: nat)
    ensures var low := w % 0x1_0000_0000; low % 2 == w % 2 && (Addr(low) == Addr(w) <==> w < 0x1_0000_0000)
  {
    var h, low := w / 0x1_0000_0000, w % 0x1_0000_0000;
    ModIs(w, 2, 0x8000_0000 * h + low / 2, low % 2);
    ModIs(w, 4096, 0x10_0000 * h + low / 4096, low % 4096);
  }

  lemma NoneBelow(mem: Memory, o: Top, i: nat, j: nat)
    requires Frame(mem, Low(o, i)) == None
    ensures Frame(mem, Leaf(o, i, j)) == None
  {
  }
}
