/** threads/malloc.c: blocks of seven sizes carved out of one-page arenas, and big
    blocks of whole pages.  Addresses are numbers; the page allocator's answers are
    parameters. */
module Malloc {
  import opened Wrappers
  import opened Bits

  const HEADER: nat := 24          // sizeof (struct arena)

  /** A descriptor: its block size, the blocks in each of its arenas, and its free
      list. */
  datatype Desc = Desc(blockSize: nat, perArena: nat, free: seq<nat>)

  /** The header at the start of an arena. */
  datatype Arena = Small(desc: nat, freeCnt: nat) | Big(pages: nat)
  {
    function Pages(): nat {
      if Small? then 1 else pages
    }

    function Bytes(): nat {
      4096 * Pages()
    }
  }

  type Arenas = map<nat, Arena>

  // ---------------------------------------------------------------- addresses

  /** pg_round_down */
  function Page(b: nat): (a: nat)
    ensures a <= b < a + 4096 && a % 4096 == 0
  {
    b - b % 4096
  }

  /** arena_to_block: the blocks lie one after the other behind the header. */
  function BlockAt(a: nat, size: nat, i: nat): nat
    decreases i
  {
    if i == 0 then a + HEADER else BlockAt(a, size, i - 1) + size
  }

  lemma {:induction false} BlockAddress(a: nat, size: nat, i: nat)
    ensures BlockAt(a, size, i) == a + HEADER + i * size
  {
    if i > 0 { BlockAddress(a, size, i - 1); }
  }

  /** A descriptor's blocks fit in the page after the header. */
  predicate Fits(x: Desc) {
    x.blockSize >= 16 && x.perArena >= 2 && BlockAt(0, x.blockSize, x.perArena) <= 4096
  }

  /** Different blocks of an arena do not overlap. */
  lemma {:induction false} BlocksApart(a: nat, size: nat, i: nat, j: nat)
    requires i < j
    ensures BlockAt(a, size, i) + size <= BlockAt(a, size, j)
  {
    if i + 1 < j { BlocksApart(a, size, i, j - 1); }
  }

  lemma {:induction false} BlockOffset(a: nat, size: nat, i: nat)
    ensures BlockAt(a, size, i) == a + BlockAt(0, size, i) && BlockAt(0, size, i) >= HEADER
  {
    if i > 0 { BlockOffset(a, size, i - 1); }
  }

  lemma PageOf(a: nat, offset: nat)
    requires a % 4096 == 0 && offset < 4096
    ensures Page(a + offset) == a
  {
  }

  /** block_to_arena undoes arena_to_block, and a block lies inside its page. */
  lemma BlockInPage(a: nat, x: Desc, i: nat)
    requires a % 4096 == 0 && Fits(x) && i < x.perArena
    ensures var b := BlockAt(a, x.blockSize, i);
            Page(b) == a && a + HEADER <= b && b + x.blockSize <= a + 4096
  {
    BlocksApart(0, x.blockSize, i, x.perArena);
    BlockOffset(a, x.blockSize, i);
    PageOf(a, BlockAt(0, x.blockSize, i));
  }

  /** The first `k` blocks of an arena. */
  function FirstBlocks(a: nat, size: nat, k: nat): set<nat> {
    if k == 0 then {} else FirstBlocks(a, size, k - 1) + {BlockAt(a, size, k - 1)}
  }

  /** All the blocks of an arena. */
  function BlockSet(a: nat, x: Desc): set<nat> {
    FirstBlocks(a, x.blockSize, x.perArena)
  }

  lemma {:induction false} IndexOf(a: nat, size: nat, k: nat, b: nat) returns (i: nat)
    requires b in FirstBlocks(a, size, k)
    ensures i < k && b == BlockAt(a, size, i)
  {
    if b == BlockAt(a, size, k - 1) {
      i := k - 1;
    } else {
      i := IndexOf(a, size, k - 1, b);
    }
  }

  lemma {:induction false} FirstBlocksCount(a: nat, size: nat, k: nat)
    requires size > 0
    ensures |FirstBlocks(a, size, k)| == k
  {
    if k > 0 {
      FirstBlocksCount(a, size, k - 1);
      if BlockAt(a, size, k - 1) in FirstBlocks(a, size, k - 1) {
        var i := IndexOf(a, size, k - 1, BlockAt(a, size, k - 1));
        BlocksApart(a, size, i, k - 1);
      }
    }
  }

  /** A block lies inside its arena's page, behind the header. */
  lemma BlockInside(a: nat, x: Desc, b: nat)
    requires a % 4096 == 0 && Fits(x) && b in BlockSet(a, x)
    ensures Page(b) == a && a + HEADER <= b && b + x.blockSize <= a + 4096
  {
    var i := IndexOf(a, x.blockSize, x.perArena, b);
    BlockInPage(a, x, i);
  }

  /** Different blocks of an arena do not overlap. */
  lemma SetApart(a: nat, x: Desc, b: nat, c: nat)
    requires b in BlockSet(a, x) && c in BlockSet(a, x) && b < c
    ensures b + x.blockSize <= c
  {
    var i := IndexOf(a, x.blockSize, x.perArena, b);
    var j := IndexOf(a, x.blockSize, x.perArena, c);
    if i < j {
      BlocksApart(a, x.blockSize, i, j);
    } else if j < i {
      BlocksApart(a, x.blockSize, j, i);
    }
  }

  // ---------------------------------------------------------------- invariant

  /** Arenas are whole pages and do not overlap. */
  ghost predicate ArenasOk(arenas: Arenas) {
    && (forall a :: a in arenas ==> a > 0 && a % 4096 == 0 && arenas[a].Pages() > 0)
    && (forall a, b :: a in arenas && b in arenas && a < b ==> a + arenas[a].Bytes() <= b)
  }

  /** An arena's blocks on the free list. */
  function FreeOf(a: nat, x: Desc): set<nat> {
    set b | b in x.free && Page(b) == a
  }

  /** `b` is a block of an arena of descriptor `d`. */
  predicate IsBlock(arenas: Arenas, d: nat, x: Desc, b: nat) {
    Page(b) in arenas && arenas[Page(b)].Small? && arenas[Page(b)].desc == d && b in BlockSet(Page(b), x)
  }

  ghost predicate DescOk(arenas: Arenas, d: nat, x: Desc) {
    Fits(x) && NoDup(x.free) && forall b :: b in x.free ==> IsBlock(arenas, d, x, b)
  }

  /** An arena's count is right, every block is free or handed out and not both, and
      between calls some block is handed out. */
  ghost predicate ArenaOk(a: nat, arena: Arena, descs: seq<Desc>, live: set<nat>, spare: nat) {
    match arena
    case Big(_) => exists b :: b in live && Page(b) == a
    case Small(d, freeCnt) =>
      && d < |descs| && freeCnt == |FreeOf(a, descs[d])| && (a != spare ==> freeCnt < descs[d].perArena)
      && forall b :: b in BlockSet(a, descs[d]) ==> (b in descs[d].free <==> b !in live)
  }

  ghost predicate LiveOk(arenas: Arenas, descs: seq<Desc>, b: nat) {
    && Page(b) in arenas
    && match arenas[Page(b)]
       case Big(_) => b == Page(b) + HEADER
       case Small(d, _) => d < |descs| && IsBlock(arenas, d, descs[d], b)
  }

  ghost predicate DescsOk(arenas: Arenas, descs: seq<Desc>) {
    forall d: nat :: d < |descs| ==> DescOk(arenas, d, descs[d])
  }

  ghost predicate CountsOk(arenas: Arenas, descs: seq<Desc>, live: set<nat>, spare: nat) {
    forall a :: a in arenas ==> ArenaOk(a, arenas[a], descs, live, spare)
  }

  ghost predicate LivesOk(arenas: Arenas, descs: seq<Desc>, live: set<nat>) {
    forall b :: b in live ==> LiveOk(arenas, descs, b)
  }

  /** `spare` is an arena that may have all its blocks free, or 0. */
  ghost predicate Ok(arenas: Arenas, descs: seq<Desc>, live: set<nat>, spare: nat) {
    ArenasOk(arenas) && DescsOk(arenas, descs) && CountsOk(arenas, descs, live, spare) && LivesOk(arenas, descs, live)
  }

  // ------------------------------------------------------- what a change leaves

  lemma AllFit(arenas: Arenas, descs: seq<Desc>)
    requires DescsOk(arenas, descs)
    ensures forall d: nat :: d < |descs| ==> Fits(descs[d])
  {
    forall d: nat | d < |descs| ensures Fits(descs[d]) { assert DescOk(arenas, d, descs[d]); }
  }

  /** A free list and the blocks handed out change only outside the arena's page. */
  lemma KeepArena(a: nat, arena: Arena, descs: seq<Desc>, descs': seq<Desc>, live: set<nat>, live': set<nat>,
                  spare: nat, spare': nat)
    requires ArenaOk(a, arena, descs, live, spare) && a % 4096 == 0 && (a == spare ==> a == spare')
    requires |descs'| == |descs| && forall d: nat :: d < |descs| ==>
               Fits(descs[d]) && descs'[d] == descs[d].(free := descs'[d].free)
    requires forall b: nat :: Page(b) == a ==> (b in live <==> b in live')
    requires arena.Small? ==> forall b: nat :: Page(b) == a ==>
               (b in descs[arena.desc].free <==> b in descs'[arena.desc].free)
    ensures ArenaOk(a, arena, descs', live', spare')
  {
    if arena.Big? {
      var b :| b in live && Page(b) == a;
      assert b in live';
    } else {
      var x, x' := descs[arena.desc], descs'[arena.desc];
      forall b | b in BlockSet(a, x) ensures Page(b) == a { BlockInside(a, x, b); }
      assert FreeOf(a, x') == FreeOf(a, x);
    }
  }

  /** The state with a block of descriptor `d` moved. */
  function Recount(arenas: Arenas, b: nat, d: nat, n: nat): Arenas {
    arenas[Page(b) := Small(d, n)]
  }

  function Refree(descs: seq<Desc>, d: nat, free: seq<nat>): seq<Desc>
    requires d < |descs|
  {
    descs[d := descs[d].(free := free)]
  }

  // ----------------------------------------------------- taking and giving back

  /** A block moves between the free list and a caller. */
  lemma FlipCount(a: nat, x: Desc, x': Desc, b: nat)
    requires Page(b) == a && b in x.free && b !in x'.free && forall c :: c != b ==> (c in x.free <==> c in x'.free)
    ensures |FreeOf(a, x')| == |FreeOf(a, x)| - 1
  {
    assert FreeOf(a, x') == FreeOf(a, x) - {b};
  }

  lemma CountBound(a: nat, x: Desc)
    requires Fits(x) && forall b :: b in FreeOf(a, x) ==> b in BlockSet(a, x)
    ensures |FreeOf(a, x)| <= x.perArena && (|FreeOf(a, x)| == x.perArena ==> FreeOf(a, x) == BlockSet(a, x))
  {
    FirstBlocksCount(a, x.blockSize, x.perArena);
    Subset(FreeOf(a, x), BlockSet(a, x));
  }

  lemma {:induction false} Subset<X>(a: set<X>, b: set<X>)
    requires a <= b
    ensures |a| <= |b| && (|a| == |b| ==> a == b)
  {
    if a != {} {
      var x :| x in a;
      Subset(a - {x}, b - {x});
    }
  }

  /** A descriptor's free blocks in an arena are the arena's. */
  lemma FreeWithin(arenas: Arenas, d: nat, x: Desc, a: nat)
    requires DescOk(arenas, d, x)
    ensures forall b :: b in FreeOf(a, x) ==> b in BlockSet(a, x)
  {
    forall b | b in FreeOf(a, x) ensures b in BlockSet(a, x) { assert IsBlock(arenas, d, x, b); }
  }

  lemma Prepended<X>(x: X, s: seq<X>)
    requires NoDup(s) && x !in s
    ensures NoDup([x] + s) && forall y :: y in [x] + s <==> y in s || y == x
  {
  }

  lemma MovedDescs(arenas: Arenas, descs: seq<Desc>, b: nat, d: nat, n: nat, free: seq<nat>)
    requires DescsOk(arenas, descs) && d < |descs| && IsBlock(arenas, d, descs[d], b)
    requires NoDup(free) && forall c :: c != b ==> (c in descs[d].free <==> c in free)
    ensures DescsOk(Recount(arenas, b, d, n), Refree(descs, d, free))
  {
    var arenas', descs' := Recount(arenas, b, d, n), Refree(descs, d, free);
    forall e: nat | e < |descs'| ensures DescOk(arenas', e, descs'[e]) { assert DescOk(arenas, e, descs[e]); }
  }

  lemma MovedLives(arenas: Arenas, descs: seq<Desc>, live: set<nat>, live': set<nat>, b: nat, d: nat, n: nat,
                   free: seq<nat>)
    requires LivesOk(arenas, descs, live) && d < |descs| && IsBlock(arenas, d, descs[d], b) && live' <= live + {b}
    ensures LivesOk(Recount(arenas, b, d, n), Refree(descs, d, free), live')
  {
    var arenas', descs' := Recount(arenas, b, d, n), Refree(descs, d, free);
    forall c | c in live' ensures LiveOk(arenas', descs', c) { if c != b { assert LiveOk(arenas, descs, c); } }
  }

  lemma MovedArenas(arenas: Arenas, b: nat, d: nat, n: nat)
    requires ArenasOk(arenas) && Page(b) in arenas && arenas[Page(b)].Small?
    ensures ArenasOk(Recount(arenas, b, d, n))
  {
  }

  /** The counts of the other arenas. */
  lemma MovedCounts(arenas: Arenas, descs: seq<Desc>, live: set<nat>, spare: nat, b: nat, d: nat, n: nat,
                    free: seq<nat>, live': set<nat>, spare': nat)
    requires ArenasOk(arenas) && DescsOk(arenas, descs) && CountsOk(arenas, descs, live, spare) && d < |descs|
    requires spare == 0 || spare == Page(b)
    requires forall c :: c != b ==> (c in descs[d].free <==> c in free) && (c in live <==> c in live')
    requires ArenaOk(Page(b), Small(d, n), Refree(descs, d, free), live', spare')
    ensures CountsOk(Recount(arenas, b, d, n), Refree(descs, d, free), live', spare')
  {
    var arenas', descs' := Recount(arenas, b, d, n), Refree(descs, d, free);
    AllFit(arenas, descs);
    forall c | c in arenas' ensures ArenaOk(c, arenas'[c], descs', live', spare') {
      if c != Page(b) { KeepArena(c, arenas[c], descs, descs', live, live', spare, spare'); }
    }
  }

  /** Moving one block between the free list and the callers. */
  lemma Moved(arenas: Arenas, descs: seq<Desc>, live: set<nat>, spare: nat,
              b: nat, d: nat, n: nat, free: seq<nat>, live': set<nat>, spare': nat)
    requires Ok(arenas, descs, live, spare) && d < |descs| && IsBlock(arenas, d, descs[d], b)
    requires spare == 0 || spare == Page(b)
    requires NoDup(free) && forall c :: c != b ==> (c in descs[d].free <==> c in free) && (c in live <==> c in live')
    requires ArenaOk(Page(b), Small(d, n), Refree(descs, d, free), live', spare')
    ensures Ok(Recount(arenas, b, d, n), Refree(descs, d, free), live', spare')
  {
    MovedArenas(arenas, b, d, n);
    MovedDescs(arenas, descs, b, d, n, free);
    MovedCounts(arenas, descs, live, spare, b, d, n, free, live', spare');
    MovedLives(arenas, descs, live, live', b, d, n, free);
  }

  /** The arena whose block is taken. */
  lemma TakenArena(a: nat, d: nat, n: nat, descs: seq<Desc>, live: set<nat>, spare: nat, b: nat, free: seq<nat>)
    requires d < |descs| && ArenaOk(a, Small(d, n), descs, live, spare) && Page(b) == a && b in descs[d].free
             && b in BlockSet(a, descs[d])
    requires n <= descs[d].perArena && forall c :: c in free <==> c in descs[d].free && c != b
    ensures n > 0 && b !in live && ArenaOk(a, Small(d, n - 1), Refree(descs, d, free), live + {b}, 0)
  {
    FlipCount(a, descs[d], Refree(descs, d, free)[d], b);
    assert b in FreeOf(a, descs[d]);
  }

  /** The arena of a free block. */
  lemma FreeBlock(arenas: Arenas, descs: seq<Desc>, live: set<nat>, spare: nat, d: nat, b: nat)
    requires DescsOk(arenas, descs) && CountsOk(arenas, descs, live, spare) && d < |descs| && b in descs[d].free
    ensures IsBlock(arenas, d, descs[d], b) && b in BlockSet(Page(b), descs[d])
            && arenas[Page(b)].freeCnt <= descs[d].perArena
    ensures ArenaOk(Page(b), arenas[Page(b)], descs, live, spare)
  {
    assert DescOk(arenas, d, descs[d]) && IsBlock(arenas, d, descs[d], b);
    var a := Page(b);
    assert ArenaOk(a, arenas[a], descs, live, spare);
    FreeWithin(arenas, d, descs[d], a);
    CountBound(a, descs[d]);
  }

  /** malloc takes a block off the free list. */
  lemma TakeFree(arenas: Arenas, descs: seq<Desc>, live: set<nat>, spare: nat, d: nat, b: nat, free: seq<nat>)
    requires Ok(arenas, descs, live, spare) && d < |descs| && b in descs[d].free && (spare == 0 || spare == Page(b))
    requires NoDup(free) && forall c :: c in free <==> c in descs[d].free && c != b
    ensures b !in live && IsBlock(arenas, d, descs[d], b) && arenas[Page(b)].freeCnt > 0
    ensures var ok := Ok(Recount(arenas, b, d, arenas[Page(b)].freeCnt - 1), Refree(descs, d, free), live + {b}, 0); ok
  {
    FreeBlock(arenas, descs, live, spare, d, b);
    var a, n := Page(b), arenas[Page(b)].freeCnt;
    TakenArena(a, d, n, descs, live, spare, b, free);
    Moved(arenas, descs, live, spare, b, d, n - 1, free, live + {b}, 0);
  }

  /** The arena whose block comes back. */
  lemma GivenArena(a: nat, d: nat, n: nat, descs: seq<Desc>, live: set<nat>, b: nat, free: seq<nat>)
    requires d < |descs| && ArenaOk(a, Small(d, n), descs, live, 0) && Page(b) == a && b in live
             && b in BlockSet(a, descs[d])
    requires forall c :: c in free <==> c in descs[d].free || c == b
    ensures b !in descs[d].free && ArenaOk(a, Small(d, n + 1), Refree(descs, d, free), live - {b}, a)
  {
    FlipCount(a, Refree(descs, d, free)[d], descs[d], b);
  }

  /** free puts a block on its free list. */
  lemma GiveBack(arenas: Arenas, descs: seq<Desc>, live: set<nat>, d: nat, b: nat, free: seq<nat>)
    requires Ok(arenas, descs, live, 0) && d < |descs| && b in live && IsBlock(arenas, d, descs[d], b)
    requires NoDup(free) && forall c :: c in free <==> c in descs[d].free || c == b
    ensures var ok := Ok(Recount(arenas, b, d, arenas[Page(b)].freeCnt + 1), Refree(descs, d, free), live - {b},
                         Page(b)); ok
  {
    var a, n := Page(b), arenas[Page(b)].freeCnt;
    assert ArenaOk(a, arenas[a], descs, live, 0);
    GivenArena(a, d, n, descs, live, b, free);
    Moved(arenas, descs, live, 0, b, d, n + 1, free, live - {b}, a);
  }

  /** A block handed out is on no free list. */
  lemma LiveNotFree(arenas: Arenas, descs: seq<Desc>, live: set<nat>, d: nat, b: nat)
    requires Ok(arenas, descs, live, 0) && d < |descs| && b in live && IsBlock(arenas, d, descs[d], b)
    ensures b !in descs[d].free && NoDup(descs[d].free)
  {
    assert DescOk(arenas, d, descs[d]) && ArenaOk(Page(b), arenas[Page(b)], descs, live, 0);
  }

  // ------------------------------------------------------- arenas come and go

  /** The pages are aligned and overlap no arena: what the page allocator promises. */
  ghost predicate Clear(arenas: Arenas, page: nat, n: nat) {
    && page > 0 && page % 4096 == 0 && n > 0
    && forall a :: a in arenas ==> a + arenas[a].Bytes() <= page || page + 4096 * n <= a
  }

  /** All the blocks of an arena, in order. */
  function Blocks(a: nat, size: nat, k: nat): (s: seq<nat>)
    ensures |s| == k && forall b :: b in s <==> b in FirstBlocks(a, size, k)
  {
    if k == 0 then [] else Blocks(a, size, k - 1) + [BlockAt(a, size, k - 1)]
  }

  lemma {:induction false} BlocksNoDup(a: nat, size: nat, k: nat)
    requires size > 0
    ensures NoDup(Blocks(a, size, k))
  {
    if k > 0 {
      BlocksNoDup(a, size, k - 1);
      if BlockAt(a, size, k - 1) in FirstBlocks(a, size, k - 1) {
        var i := IndexOf(a, size, k - 1, BlockAt(a, size, k - 1));
        BlocksApart(a, size, i, k - 1);
      }
    }
  }

  lemma NewArenas(arenas: Arenas, page: nat, arena: Arena)
    requires ArenasOk(arenas) && Clear(arenas, page, arena.Pages())
    ensures page !in arenas && ArenasOk(arenas[page := arena])
  {
  }

  /** The free list of a descriptor with one, new arena. */
  lemma NewDescs(arenas: Arenas, descs: seq<Desc>, d: nat, page: nat, free: seq<nat>)
    requires DescsOk(arenas, descs) && d < |descs| && page % 4096 == 0 && page !in arenas
    requires NoDup(free) && forall b :: b in free <==> b in BlockSet(page, descs[d])
    ensures DescsOk(arenas[page := Small(d, descs[d].perArena)], Refree(descs, d, free))
  {
    var arenas', descs' := arenas[page := Small(d, descs[d].perArena)], Refree(descs, d, free);
    forall e: nat | e < |descs'| ensures DescOk(arenas', e, descs'[e]) {
      assert DescOk(arenas, e, descs[e]);
      if e == d {
        forall b | b in free ensures IsBlock(arenas', d, descs'[d], b) { BlockInside(page, descs[d], b); }
      }
    }
  }

  lemma NewArenaOk(page: nat, descs: seq<Desc>, d: nat, live: set<nat>, free: seq<nat>)
    requires d < |descs| && Fits(descs[d]) && page % 4096 == 0 && (forall b :: b in live ==> Page(b) != page)
    requires forall b :: b in free <==> b in BlockSet(page, descs[d])
    ensures ArenaOk(page, Small(d, descs[d].perArena), Refree(descs, d, free), live, page)
  {
    var x' := Refree(descs, d, free)[d];
    forall b | b in BlockSet(page, x') ensures Page(b) == page { BlockInside(page, x', b); }
    assert FreeOf(page, x') == BlockSet(page, x');
    FirstBlocksCount(page, x'.blockSize, x'.perArena);
  }

  lemma NewCounts(arenas: Arenas, descs: seq<Desc>, live: set<nat>, d: nat, page: nat, free: seq<nat>)
    requires ArenasOk(arenas) && DescsOk(arenas, descs) && CountsOk(arenas, descs, live, 0) && page % 4096 == 0
             && d < |descs| && descs[d].free == []
    requires (forall b :: b in live ==> Page(b) != page) && forall b :: b in free <==> b in BlockSet(page, descs[d])
    ensures CountsOk(arenas[page := Small(d, descs[d].perArena)], Refree(descs, d, free), live, page)
  {
    var arenas', descs' := arenas[page := Small(d, descs[d].perArena)], Refree(descs, d, free);
    AllFit(arenas, descs);
    NewArenaOk(page, descs, d, live, free);
    forall b | b in free ensures Page(b) == page { BlockInside(page, descs[d], b); }
    forall c | c in arenas' ensures ArenaOk(c, arenas'[c], descs', live, page) {
      if c != page { KeepArena(c, arenas[c], descs, descs', live, live, 0, page); }
    }
  }

  /** No block handed out is in a page that is no arena. */
  lemma NoneLive(arenas: Arenas, descs: seq<Desc>, live: set<nat>, page: nat)
    requires LivesOk(arenas, descs, live) && page !in arenas
    ensures forall b :: b in live ==> Page(b) != page
  {
    forall b | b in live ensures Page(b) != page { assert LiveOk(arenas, descs, b); }
  }

  lemma NewLives(arenas: Arenas, descs: seq<Desc>, live: set<nat>, d: nat, page: nat, free: seq<nat>)
    requires LivesOk(arenas, descs, live) && page !in arenas && d < |descs|
    ensures LivesOk(arenas[page := Small(d, descs[d].perArena)], Refree(descs, d, free), live)
  {
    var arenas', descs' := arenas[page := Small(d, descs[d].perArena)], Refree(descs, d, free);
    forall b | b in live ensures LiveOk(arenas', descs', b) { assert LiveOk(arenas, descs, b); }
  }

  /** malloc makes a new arena when the free list is empty. */
  lemma NewArena(arenas: Arenas, descs: seq<Desc>, live: set<nat>, d: nat, page: nat, free: seq<nat>)
    requires Ok(arenas, descs, live, 0) && d < |descs| && descs[d].free == [] && Clear(arenas, page, 1)
    requires NoDup(free) && forall b :: b in free <==> b in BlockSet(page, descs[d])
    ensures Ok(arenas[page := Small(d, descs[d].perArena)], Refree(descs, d, free), live, page)
  {
    NewArenas(arenas, page, Small(d, descs[d].perArena));
    NoneLive(arenas, descs, live, page);
    NewDescs(arenas, descs, d, page, free);
    NewCounts(arenas, descs, live, d, page, free);
    NewLives(arenas, descs, live, d, page, free);
  }

  /** An arena with all its blocks free has none handed out. */
  lemma AllFree(arenas: Arenas, descs: seq<Desc>, live: set<nat>, a: nat, d: nat, n: nat)
    requires a in arenas && arenas[a] == Small(d, n) && d < |descs| && DescOk(arenas, d, descs[d])
    requires ArenaOk(a, Small(d, n), descs, live, a) && LivesOk(arenas, descs, live) && n >= descs[d].perArena
    ensures FreeOf(a, descs[d]) == BlockSet(a, descs[d]) && forall b :: b in live ==> Page(b) != a
  {
    FreeWithin(arenas, d, descs[d], a);
    CountBound(a, descs[d]);
    forall b | b in live ensures Page(b) != a {
      assert LiveOk(arenas, descs, b);
    }
  }

  lemma DropDescs(arenas: Arenas, descs: seq<Desc>, a: nat, d: nat, free: seq<nat>)
    requires DescsOk(arenas, descs) && a in arenas && arenas[a].Small? && arenas[a].desc == d < |descs|
    requires NoDup(free) && forall b :: b in free <==> b in descs[d].free && Page(b) != a
    ensures DescsOk(arenas - {a}, Refree(descs, d, free))
  {
    var descs' := Refree(descs, d, free);
    forall e: nat | e < |descs'| ensures DescOk(arenas - {a}, e, descs'[e]) { assert DescOk(arenas, e, descs[e]); }
  }

  lemma DropCounts(arenas: Arenas, descs: seq<Desc>, live: set<nat>, a: nat, d: nat, free: seq<nat>)
    requires ArenasOk(arenas) && DescsOk(arenas, descs) && CountsOk(arenas, descs, live, a) && d < |descs|
    requires forall b :: b in free <==> b in descs[d].free && Page(b) != a
    ensures CountsOk(arenas - {a}, Refree(descs, d, free), live, 0)
  {
    var descs' := Refree(descs, d, free);
    AllFit(arenas, descs);
    forall c | c in arenas - {a} ensures ArenaOk(c, arenas[c], descs', live, 0) {
      KeepArena(c, arenas[c], descs, descs', live, live, a, 0);
    }
  }

  lemma DropLives(arenas: Arenas, descs: seq<Desc>, live: set<nat>, a: nat, d: nat, free: seq<nat>)
    requires LivesOk(arenas, descs, live) && d < |descs| && forall b :: b in live ==> Page(b) != a
    ensures LivesOk(arenas - {a}, Refree(descs, d, free), live)
  {
    forall b | b in live ensures LiveOk(arenas - {a}, Refree(descs, d, free), b) { assert LiveOk(arenas, descs, b); }
  }

  /** free gives an arena's page back when its last block comes in. */
  lemma DropArena(arenas: Arenas, descs: seq<Desc>, live: set<nat>, a: nat, d: nat, free: seq<nat>)
    requires Ok(arenas, descs, live, a) && a in arenas && arenas[a].Small? && arenas[a].desc == d < |descs|
    requires arenas[a].freeCnt >= descs[d].perArena
    requires NoDup(free) && forall b :: b in free <==> b in descs[d].free && Page(b) != a
    ensures Ok(arenas - {a}, Refree(descs, d, free), live, 0)
  {
    assert DescOk(arenas, d, descs[d]) && ArenaOk(a, arenas[a], descs, live, a);
    AllFree(arenas, descs, live, a, d, arenas[a].freeCnt);
    DropDescs(arenas, descs, a, d, free);
    DropCounts(arenas, descs, live, a, d, free);
    DropLives(arenas, descs, live, a, d, free);
  }

  // ------------------------------------------------------------------ big blocks

  /** An arena whose page the big block is not in. */
  lemma BesideBig(descs: seq<Desc>, live: set<nat>, live': set<nat>, page: nat, c: nat, arena: Arena)
    requires ArenaOk(c, arena, descs, live, 0) && c % 4096 == 0 && page % 4096 == 0 && c != page
    requires forall d: nat :: d < |descs| ==> Fits(descs[d])
    requires forall b :: b != page + HEADER ==> (b in live <==> b in live')
    ensures ArenaOk(c, arena, descs, live', 0)
  {
    PageOf(page, HEADER);
    KeepArena(c, arena, descs, descs, live, live', 0, 0);
  }

  lemma NewBigDescs(arenas: Arenas, descs: seq<Desc>, page: nat, n: nat)
    requires DescsOk(arenas, descs) && page !in arenas
    ensures DescsOk(arenas[page := Big(n)], descs)
  {
    forall e: nat | e < |descs|
      ensures DescOk(arenas[page := Big(n)], e, descs[e])
    {
      assert DescOk(arenas, e, descs[e]);
    }
  }

  lemma NewBigCounts(arenas: Arenas, descs: seq<Desc>, live: set<nat>, page: nat, n: nat)
    requires ArenasOk(arenas) && CountsOk(arenas, descs, live, 0) && page !in arenas && page % 4096 == 0
    requires forall d: nat :: d < |descs| ==> Fits(descs[d])
    ensures CountsOk(arenas[page := Big(n)], descs, live + {page + HEADER}, 0)
  {
    var arenas', live' := arenas[page := Big(n)], live + {page + HEADER};
    PageOf(page, HEADER);
    assert page + HEADER in live';
    forall c | c in arenas' ensures ArenaOk(c, arenas'[c], descs, live', 0) {
      if c != page { BesideBig(descs, live, live', page, c, arenas[c]); }
    }
  }

  lemma NewBigLives(arenas: Arenas, descs: seq<Desc>, live: set<nat>, page: nat, n: nat)
    requires LivesOk(arenas, descs, live) && page !in arenas && page % 4096 == 0
    ensures page + HEADER !in live && LivesOk(arenas[page := Big(n)], descs, live + {page + HEADER})
  {
    var arenas', live' := arenas[page := Big(n)], live + {page + HEADER};
    PageOf(page, HEADER);
    NoneLive(arenas, descs, live, page);
    forall c | c in live' ensures LiveOk(arenas', descs, c) { if c in live { assert LiveOk(arenas, descs, c); } }
  }

  /** malloc makes a big block of whole pages. */
  lemma NewBig(arenas: Arenas, descs: seq<Desc>, live: set<nat>, page: nat, n: nat)
    requires Ok(arenas, descs, live, 0) && Clear(arenas, page, n)
    ensures page + HEADER !in live && Ok(arenas[page := Big(n)], descs, live + {page + HEADER}, 0)
  {
    NewArenas(arenas, page, Big(n));
    AllFit(arenas, descs);
    NewBigDescs(arenas, descs, page, n);
    NewBigCounts(arenas, descs, live, page, n);
    NewBigLives(arenas, descs, live, page, n);
  }

  lemma DropBigDescs(arenas: Arenas, descs: seq<Desc>, a: nat)
    requires DescsOk(arenas, descs) && a in arenas && arenas[a].Big?
    ensures DescsOk(arenas - {a}, descs)
  {
    forall e: nat | e < |descs| ensures DescOk(arenas - {a}, e, descs[e]) { assert DescOk(arenas, e, descs[e]); }
  }

  lemma DropBigCounts(arenas: Arenas, descs: seq<Desc>, live: set<nat>, a: nat)
    requires ArenasOk(arenas) && CountsOk(arenas, descs, live, 0) && a in arenas
    requires forall d: nat :: d < |descs| ==> Fits(descs[d])
    ensures CountsOk(arenas - {a}, descs, live - {a + HEADER}, 0)
  {
    forall c | c in arenas - {a} ensures ArenaOk(c, arenas[c], descs, live - {a + HEADER}, 0) {
      BesideBig(descs, live, live - {a + HEADER}, a, c, arenas[c]);
    }
  }

  /** A big block is alone in its arena. */
  lemma DropBigLives(arenas: Arenas, descs: seq<Desc>, live: set<nat>, a: nat)
    requires LivesOk(arenas, descs, live) && a in arenas && arenas[a].Big?
    ensures LivesOk(arenas - {a}, descs, live - {a + HEADER}) && forall b :: b in live - {a + HEADER} ==> Page(b) != a
  {
    forall b | b in live - {a + HEADER} ensures LiveOk(arenas - {a}, descs, b) { assert LiveOk(arenas, descs, b); }
    NoneLive(arenas - {a}, descs, live - {a + HEADER}, a);
  }

  /** free gives the pages of a big block back. */
  lemma DropBig(arenas: Arenas, descs: seq<Desc>, live: set<nat>, a: nat)
    requires Ok(arenas, descs, live, 0) && a in arenas && arenas[a].Big?
    ensures Ok(arenas - {a}, descs, live - {a + HEADER}, 0) && forall b :: b in live - {a + HEADER} ==> Page(b) != a
  {
    AllFit(arenas, descs);
    DropBigDescs(arenas, descs, a);
    DropBigCounts(arenas, descs, live, a);
    DropBigLives(arenas, descs, live, a);
  }

  // ------------------------------------------------------- what the invariant says

  /** The bytes a block has. */
  function SizeOf(arenas: Arenas, descs: seq<Desc>, b: nat): int {
    if Page(b) !in arenas then 0
    else match arenas[Page(b)]
      case Big(n) => 4096 * n - HEADER
      case Small(d, _) => if d < |descs| then descs[d].blockSize else 0
  }

  /** Handed-out or on a free list. */
  ghost predicate Known(descs: seq<Desc>, live: set<nat>, b: nat) {
    b in live || exists d: nat :: d < |descs| && b in descs[d].free
  }

  lemma KnownIsBlock(arenas: Arenas, descs: seq<Desc>, live: set<nat>, b: nat)
    requires DescsOk(arenas, descs) && LivesOk(arenas, descs, live) && Known(descs, live, b)
    ensures LiveOk(arenas, descs, b)
  {
    if b !in live {
      var d: nat :| d < |descs| && b in descs[d].free;
      assert DescOk(arenas, d, descs[d]);
    }
  }

  lemma InsideArena(arenas: Arenas, descs: seq<Desc>, b: nat)
    requires LiveOk(arenas, descs, b) && forall d: nat :: d < |descs| ==> Fits(descs[d])
    ensures var a := Page(b); a + HEADER <= b && b + SizeOf(arenas, descs, b) <= a + arenas[a].Bytes()
  {
    var a := Page(b);
    if arenas[a].Small? { BlockInside(a, descs[arenas[a].desc], b); }
  }

  /** A known block is inside its arena, behind the header. */
  lemma KnownInside(arenas: Arenas, descs: seq<Desc>, live: set<nat>, b: nat)
    requires Ok(arenas, descs, live, 0) && Known(descs, live, b)
    ensures var a := Page(b);
            a in arenas && a + HEADER <= b && b + SizeOf(arenas, descs, b) <= a + arenas[a].Bytes()
  {
    KnownIsBlock(arenas, descs, live, b);
    AllFit(arenas, descs);
    InsideArena(arenas, descs, b);
  }

  /** No two blocks, handed out or free, overlap. */
  lemma KnownApart(arenas: Arenas, descs: seq<Desc>, live: set<nat>, b: nat, c: nat)
    requires Ok(arenas, descs, live, 0) && Known(descs, live, b) && Known(descs, live, c) && b < c
    ensures b + SizeOf(arenas, descs, b) <= c
  {
    KnownIsBlock(arenas, descs, live, b);
    KnownIsBlock(arenas, descs, live, c);
    if Page(b) == Page(c) {
      SetApart(Page(b), descs[arenas[Page(b)].desc], b, c);
    } else {
      KnownInside(arenas, descs, live, b);
      KnownInside(arenas, descs, live, c);
    }
  }

  // ------------------------------------------------------------------- the code

  /** list_remove */
  function Without(s: seq<nat>, b: nat): seq<nat> {
    if s == [] then [] else if s[0] == b then s[1..] else [s[0]] + Without(s[1..], b)
  }

  lemma {:induction false} WithoutIs(s: seq<nat>, b: nat)
    requires NoDup(s)
    ensures NoDup(Without(s, b)) && forall c :: c in Without(s, b) <==> c in s && c != b
  {
    if s != [] {
      TailOf(s);
      if s[0] != b {
        WithoutIs(s[1..], b);
        Prepended(s[0], Without(s[1..], b));
      }
    }
  }

  /** DIV_ROUND_UP (size + sizeof (struct arena), PGSIZE), in 64 bits. */
  function PagesFor(size: nat): nat {
    ((size + 24) % B64 + 4095) % B64 / 4096
  }

  /** A big request gets enough pages exactly when rounding it up does not overflow, and
      none at all just above that. */
  lemma PagesForExactly(size: nat)
    requires size < B64
    ensures 4096 * PagesFor(size) >= size + 24 <==> size + 24 + 4095 < B64
    ensures PagesFor(size) == 0 <==> B64 - 4119 <= size < B64 - 23
  {
    var x := size + 24 + 4095;
    if x < B64 {
      assert PagesFor(size) == x / 4096;
    } else {
      assert PagesFor(size) == (x - B64) / 4096;
    }
  }

  /** A request that gets one page and should have got 2^52. */
  lemma PagesForTooFew()
    ensures PagesFor(B64 - 8) == 1
  {
  }

  /** An arena of no pages would break the heap: a big request keeps it exactly when it
      gets a page. */
  lemma BigKeepsExactly(arenas: Arenas, descs: seq<Desc>, live: set<nat>, page: nat, size: nat)
    requires Ok(arenas, descs, live, 0) && (PagesFor(size) > 0 ==> Clear(arenas, page, PagesFor(size)))
    ensures Ok(arenas[page := Big(PagesFor(size))], descs, live + {page + HEADER}, 0) <==> PagesFor(size) > 0
  {
    if PagesFor(size) > 0 {
      NewBig(arenas, descs, live, page, PagesFor(size));
    } else {
      assert arenas[page := Big(PagesFor(size))][page].Pages() == 0;
    }
  }

  /** What a request that gets no page is given is not its own: the bytes asked for run over
      every block handed out in that page. */
  lemma NoPagesOverlap(arenas: Arenas, descs: seq<Desc>, live: set<nat>, page: nat, size: nat, b: nat)
    requires Ok(arenas, descs, live, 0) && size < B64 && PagesFor(size) == 0 && b in live && Page(b) == page
    ensures page + HEADER <= b < page + HEADER + size
  {
    PagesForExactly(size);
    assert Known(descs, live, b);
    KnownInside(arenas, descs, live, b);
  }

  /** malloc_init's descriptors. */
  ghost predicate Sized(descs: seq<Desc>) {
    && |descs| == 7
    && (forall d: nat :: d < 7 ==>
          descs[d].blockSize == 16 * Pow2(d) && descs[d].perArena == (4096 - 24) / descs[d].blockSize)
  }

  lemma SizedRefree(descs: seq<Desc>, d: nat, free: seq<nat>)
    requires Sized(descs) && d < 7
    ensures Sized(Refree(descs, d, free))
  {
  }

  lemma SizesGrow(descs: seq<Desc>)
    requires Sized(descs)
    ensures descs[0].blockSize == 16 && descs[1].blockSize == 32 && descs[2].blockSize == 64
            && descs[3].blockSize == 128
    ensures descs[4].blockSize == 256 && descs[5].blockSize == 512 && descs[6].blockSize == 1024
  {
  }

  lemma SizedFits(size: nat, x: Desc)
    requires size in {16, 32, 64, 128, 256, 512, 1024} && x == Desc(size, (4096 - 24) / size, [])
    ensures Fits(x)
  {
    BlockAddress(0, size, x.perArena);
  }

  /** malloc_init's loop. */
  method MakeDescs() returns (descs: seq<Desc>)
    ensures Sized(descs) && forall d: nat :: d < 7 ==> Fits(descs[d]) && descs[d].free == []
  {
    descs := [];
    var size := 16;
    while size < 2048
      invariant size in {16, 32, 64, 128, 256, 512, 1024, 2048} && size == 16 * Pow2(|descs|)
      invariant |descs| <= 7 && (size == 2048 <==> |descs| == 7)
      invariant forall d: nat :: d < |descs| ==>
                  descs[d] == Desc(16 * Pow2(d), (4096 - 24) / (16 * Pow2(d)), []) && Fits(descs[d])
      decreases 2048 - size
    {
      var x := Desc(size, (4096 - 24) / size, []);
      SizedFits(size, x);
      PowersUpTo7(|descs|);
      descs := descs + [x];
      size := size * 2;
    }
  }

  lemma PowersUpTo7(k: nat)
    requires k < 7
    ensures Pow2(k + 1) == 2 * Pow2(k) && (Pow2(k) == 64 <==> k == 6)
  {
    assert Pow2(0) == 1 && Pow2(1) == 2 && Pow2(2) == 4 && Pow2(3) == 8;
    assert Pow2(4) == 16 && Pow2(5) == 32 && Pow2(6) == 64;
  }

  // ------------------------------------------------------- the heap as a whole

  /** A heap in order, with malloc_init's descriptors. */
  ghost predicate Whole(arenas: Arenas, descs: seq<Desc>, live: set<nat>, spare: nat) {
    && |descs| == 7
    && forall z: nat {:trigger Look(OfMalloc, z)} :: Look(OfMalloc, z) ==>
         Sized(descs) && Ok(arenas, descs, live, spare)
  }

  lemma WholeSizes(arenas: Arenas, descs: seq<Desc>, live: set<nat>)
    requires Whole(arenas, descs, live, 0)
    ensures forall d: nat :: d < 7 ==> descs[d].blockSize == [16, 32, 64, 128, 256, 512, 1024][d]
  {
    assert Look(OfMalloc, 0);
    SizesGrow(descs);
  }

  lemma WholeBig(arenas: Arenas, descs: seq<Desc>, live: set<nat>, page: nat, n: nat)
    requires Whole(arenas, descs, live, 0) && Clear(arenas, page, n)
    ensures page + HEADER !in live && Whole(arenas[page := Big(n)], descs, live + {page + HEADER}, 0)
  {
    assert Look(OfMalloc, 0);
    NewBig(arenas, descs, live, page, n);
  }

  lemma WholeHasPages(arenas: Arenas, descs: seq<Desc>, live: set<nat>, a: nat)
    requires a in arenas && arenas[a].Pages() == 0
    ensures !Whole(arenas, descs, live, 0)
  {
    assert Look(OfMalloc, 0);
  }

  lemma WholeArena(arenas: Arenas, descs: seq<Desc>, live: set<nat>, d: nat, page: nat, free: seq<nat>)
    requires Whole(arenas, descs, live, 0) && d < 7 && descs[d].free == [] && Clear(arenas, page, 1)
    requires free == Blocks(page, descs[d].blockSize, descs[d].perArena)
    ensures free != [] && Page(free[0]) == page
    ensures Whole(arenas[page := Small(d, descs[d].perArena)], Refree(descs, d, free), live, page)
  {
    assert Look(OfMalloc, 0);
    var x := descs[d];
    assert DescOk(arenas, d, x);
    BlocksNoDup(page, x.blockSize, x.perArena);
    NewArena(arenas, descs, live, d, page, free);
    SizedRefree(descs, d, free);
    BlockInside(page, x, free[0]);
  }

  lemma WholeTake(arenas: Arenas, descs: seq<Desc>, live: set<nat>, spare: nat, d: nat)
    requires Whole(arenas, descs, live, spare) && d < 7 && descs[d].free != []
    requires spare == 0 || spare == Page(descs[d].free[0])
    ensures var b := descs[d].free[0];
            && b !in live && Page(b) in arenas && arenas[Page(b)].Small? && arenas[Page(b)].desc == d
            && arenas[Page(b)].freeCnt > 0
            && Whole(Recount(arenas, b, d, arenas[Page(b)].freeCnt - 1), Refree(descs, d, descs[d].free[1..]),
                     live + {b}, 0)
  {
    assert Look(OfMalloc, 0);
    var b, free := descs[d].free[0], descs[d].free[1..];
    assert DescOk(arenas, d, descs[d]);
    TailOf(descs[d].free);
    TakeFree(arenas, descs, live, spare, d, b, free);
    SizedRefree(descs, d, free);
  }

  /** What free finds from the address of a block. */
  lemma WholeLive(arenas: Arenas, descs: seq<Desc>, live: set<nat>, b: nat)
    requires Whole(arenas, descs, live, 0) && b in live
    ensures Page(b) in arenas
    ensures if arenas[Page(b)].Big? then b == Page(b) + HEADER else arenas[Page(b)].desc < 7
  {
    assert Look(OfMalloc, 0);
    assert LiveOk(arenas, descs, b);
  }

  lemma WholeDropBig(arenas: Arenas, descs: seq<Desc>, live: set<nat>, b: nat)
    requires Whole(arenas, descs, live, 0) && b in live && Page(b) in arenas && arenas[Page(b)].Big?
    ensures Whole(arenas - {Page(b)}, descs, live - {b}, 0) && forall c :: c in live - {b} ==> Page(c) != Page(b)
  {
    assert Look(OfMalloc, 0);
    assert LiveOk(arenas, descs, b);
    DropBig(arenas, descs, live, Page(b));
  }

  lemma WholeGive(arenas: Arenas, descs: seq<Desc>, live: set<nat>, d: nat, b: nat, n: nat)
    requires Whole(arenas, descs, live, 0) && b in live && d < 7
    requires Page(b) in arenas && arenas[Page(b)].Small? && arenas[Page(b)].desc == d
             && n == arenas[Page(b)].freeCnt + 1
    ensures Whole(Recount(arenas, b, d, n), Refree(descs, d, [b] + descs[d].free), live - {b}, Page(b))
  {
    assert Look(OfMalloc, 0);
    assert LiveOk(arenas, descs, b);
    LiveNotFree(arenas, descs, live, d, b);
    Prepended(b, descs[d].free);
    GiveBack(arenas, descs, live, d, b, [b] + descs[d].free);
    SizedRefree(descs, d, [b] + descs[d].free);
  }

  /** The test of free: all blocks are free exactly when none is handed out. */
  lemma WholeTest(arenas: Arenas, descs: seq<Desc>, live: set<nat>, a: nat, d: nat, n: nat)
    requires Whole(arenas, descs, live, a) && a in arenas && arenas[a] == Small(d, n) && d < 7
    ensures n >= descs[d].perArena <==> forall c :: c in live ==> Page(c) != a
    ensures n < descs[d].perArena ==> Whole(arenas, descs, live, 0)
  {
    assert Look(OfMalloc, 0);
    SomeLive(arenas, descs, live, a, d, n);
    if n < descs[d].perArena { NotSpare(arenas, descs, live, a); }
  }

  lemma WholeFree(arenas: Arenas, descs: seq<Desc>, live: set<nat>, a: nat, d: nat)
    requires Whole(arenas, descs, live, a) && d < 7
    ensures NoDup(descs[d].free)
  {
    assert Look(OfMalloc, 0);
    assert DescOk(arenas, d, descs[d]);
  }

  lemma WholeDrop(arenas: Arenas, descs: seq<Desc>, live: set<nat>, a: nat, d: nat, free: seq<nat>)
    requires Whole(arenas, descs, live, a) && a in arenas && arenas[a].Small? && arenas[a].desc == d < 7
    requires arenas[a].freeCnt >= descs[d].perArena
    requires NoDup(free) && forall b :: b in free <==> b in descs[d].free && b !in BlockSet(a, descs[d])
    ensures Whole(arenas - {a}, Refree(descs, d, free), live, 0)
  {
    assert Look(OfMalloc, 0);
    Removable(arenas, descs, live, a, d);
    InItsPage(descs[d], a, free);
    SizedRefree(descs, d, free);
    DropArena(arenas, descs, live, a, d, free);
  }

  class Heap {
    var descs: seq<Desc>
    var arenas: Arenas
    ghost var live: set<nat>       // blocks handed out and not freed

    ghost predicate Valid()
      reads this
    {
      Whole(arenas, descs, live, 0)
    }

    /** malloc_init */
    constructor ()
      ensures Valid() && live == {} && arenas == map[]
    {
      var list := MakeDescs();
      descs := list;
      arenas := map[];
      live := {};
    }

    /** The smallest descriptor that satisfies a request, or the number of them. */
    method FindDesc(size: nat) returns (d: nat)
      requires Valid()
      ensures d <= 7 && (d < 7 ==> descs[d].blockSize >= size) && forall e: nat :: e < d ==> descs[e].blockSize < size
      ensures d == 7 <==> size > 1024
    {
      WholeSizes(arenas, descs, live);
      d := 0;
      while d < |descs|
        invariant d <= 7 && forall e: nat :: e < d ==> descs[e].blockSize < size
      {
        if descs[d].blockSize >= size { break; }
        d := d + 1;
      }
      assert d < 7 ==> descs[d].blockSize <= 1024;
      assert d == 7 ==> descs[6].blockSize < size;
    }

    /** malloc for a request too big for any descriptor. */
    method MallocBig(size: nat, page: Option<nat>) returns (b: Option<nat>)
      requires Valid() && 1024 < size < B64 && (page.Some? ==> page.value % 4096 == 0)
      requires page.Some? && PagesFor(size) > 0 ==> Clear(arenas, page.value, PagesFor(size))
      modifies this
      ensures Valid() <==> b.None? || PagesFor(size) > 0
      ensures (b.None? <==> page.None?) && descs == old(descs)
      ensures b.None? ==> arenas == old(arenas) && live == old(live)
      ensures b.Some? ==> b.value == page.value + HEADER && live == old(live) + {b.value}
                          && arenas == old(arenas)[page.value := Big(PagesFor(size))]
      ensures b.Some? && PagesFor(size) > 0 ==> b.value !in old(live)
      ensures b.Some? ==> (SizeOf(arenas, descs, b.value) >= size <==> size + HEADER + 4095 < B64)
    {
      if page.None? { return None; }
      if PagesFor(size) > 0 {
        WholeBig(arenas, descs, live, page.value, PagesFor(size));
      } else {
        WholeHasPages(arenas[page.value := Big(0)], descs, live + {page.value + HEADER}, page.value);
      }
      PageOf(page.value, HEADER);
      PagesForExactly(size);
      b := Some(page.value + HEADER);
      arenas := arenas[page.value := Big(PagesFor(size))];
      live := live + {b.value};
    }

    /** malloc's new arena: a header and all the blocks on the free list. */
    method AddArena(d: nat, page: nat)
      requires Valid() && d < 7 && descs[d].free == [] && Clear(arenas, page, 1)
      modifies `arenas, `descs
      ensures Whole(arenas, descs, live, page) && arenas == old(arenas)[page := Small(d, descs[d].perArena)]
      ensures descs == Refree(old(descs), d, Blocks(page, old(descs)[d].blockSize, old(descs)[d].perArena))
      ensures descs[d].free != [] && Page(descs[d].free[0]) == page
    {
      var free := PushBlocks(page, descs[d]);
      WholeArena(arenas, descs, live, d, page, free);
      arenas := arenas[page := Small(d, descs[d].perArena)];
      descs := Refree(descs, d, free);
    }

    /** malloc's last lines: the front of the free list is handed out. */
    method TakeBlock(d: nat, ghost spare: nat) returns (b: nat)
      requires Whole(arenas, descs, live, spare) && d < 7 && descs[d].free != []
      requires spare == 0 || spare == Page(descs[d].free[0])
      modifies this
      ensures Valid() && b == old(descs)[d].free[0] && b !in old(live) && live == old(live) + {b}
      ensures descs == Refree(old(descs), d, old(descs)[d].free[1..])
      ensures SizeOf(arenas, descs, b) == descs[d].blockSize && arenas.Keys == old(arenas).Keys
    {
      WholeTake(arenas, descs, live, spare, d);
      b := descs[d].free[0];
      descs := Refree(descs, d, descs[d].free[1..]);
      arenas := Recount(arenas, b, d, arenas[Page(b)].freeCnt - 1);
      live := live + {b};
    }

    /** malloc for a request some descriptor satisfies. */
    method MallocSmall(d: nat, page: Option<nat>) returns (b: Option<nat>)
      requires Valid() && d < 7 && (page.Some? ==> Clear(arenas, page.value, 1))
      modifies this
      ensures Valid() && (b.None? <==> page.None? && old(descs)[d].free == [])
      ensures b.None? ==> descs == old(descs) && arenas == old(arenas) && live == old(live)
      ensures b.Some? ==>
                b.value !in old(live) && live == old(live) + {b.value}
                  && SizeOf(arenas, descs, b.value) == old(descs)[d].blockSize
      ensures b.Some? ==> arenas.Keys == old(arenas).Keys + if old(descs)[d].free == [] then {page.value} else {}
    {
      ghost var spare := 0;
      if descs[d].free == [] {
        if page.None? { return None; }
        AddArena(d, page.value);
        spare := page.value;
      }
      var block := TakeBlock(d, spare);
      b := Some(block);
    }

    /** malloc; `page` is what the page allocator answers if it is asked. */
    method Malloc(size: nat, page: Option<nat>) returns (b: Option<nat>)
      requires Valid() && size < B64 && (page.Some? ==> page.value % 4096 == 0)
      requires page.Some? && (size > 1024 ==> PagesFor(size) > 0) ==>
                 Clear(arenas, page.value, if size > 1024 then PagesFor(size) else 1)
      modifies this
      ensures Valid() <==> b.None? || size <= 1024 || PagesFor(size) > 0
      ensures size == 0 || (page.None? && size > 1024) ==> b.None?
      ensures page.Some? && size > 0 ==> b.Some?
      ensures b.None? ==> descs == old(descs) && arenas == old(arenas) && live == old(live)
      ensures b.Some? ==> live == old(live) + {b.value}
      ensures b.Some? && (size <= 1024 || PagesFor(size) > 0) ==> b.value !in old(live)
      ensures b.Some? && size > 1024 && PagesFor(size) == 0 ==> b.value == page.value + HEADER
      ensures b.Some? ==> (SizeOf(arenas, descs, b.value) >= size <==> size + HEADER + 4095 < B64)
    {
      if size == 0 { return None; }
      var d := FindDesc(size);
      if d == |descs| {
        b := MallocBig(size, page);
      } else {
        b := MallocSmall(d, page);
      }
    }

    /** free's last step: an arena with no block handed out is taken apart and its
        page given back. */
    method ReleaseArena(a: nat, d: nat)
      requires Whole(arenas, descs, live, a) && a in arenas && arenas[a].Small? && arenas[a].desc == d < 7
      requires arenas[a].freeCnt >= descs[d].perArena
      modifies `arenas, `descs
      ensures Valid() && arenas == old(arenas) - {a}
    {
      WholeFree(arenas, descs, live, a, d);
      var free := RemoveBlocks(descs[d].free, a, descs[d]);
      WholeDrop(arenas, descs, live, a, d, free);
      descs := Refree(descs, d, free);
      arenas := arenas - {a};
    }

    /** free for a big block. */
    method FreeBig(b: nat)
      requires Valid() && b in live && Page(b) in arenas && arenas[Page(b)].Big?
      modifies this
      ensures Valid() && descs == old(descs) && live == old(live) - {b} && arenas == old(arenas) - {Page(b)}
      ensures forall c :: c in live ==> Page(c) != Page(b)
    {
      WholeDropBig(arenas, descs, live, b);
      arenas := arenas - {Page(b)};
      live := live - {b};
    }

    /** free for a block of a descriptor; the result says whether its arena's page
        goes back. */
    method FreeSmall(b: nat, d: nat) returns (back: bool)
      requires Valid() && b in live && d < 7 && Page(b) in arenas && arenas[Page(b)].Small? && arenas[Page(b)].desc == d
      modifies this
      ensures Valid() && live == old(live) - {b} && arenas.Keys == old(arenas).Keys - (if back then {Page(b)} else {})
      ensures back <==> forall c :: c in live ==> Page(c) != Page(b)
    {
      var a := Page(b);
      var n := arenas[a].freeCnt + 1;
      WholeGive(arenas, descs, live, d, b, n);
      WholeTest(Recount(arenas, b, d, n), Refree(descs, d, [b] + descs[d].free), live - {b}, a, d, n);
      descs := Refree(descs, d, [b] + descs[d].free);
      arenas := Recount(arenas, b, d, n);
      live := live - {b};
      back := n >= descs[d].perArena;
      if back {
        ReleaseArena(a, d);
      }
    }

    /** free; the result says whether an arena's pages go back to the page
        allocator, which is when no other block of it is handed out. */
    method Free(b: Option<nat>) returns (back: bool)
      requires Valid() && (b.Some? ==> b.value in live)
      modifies this
      ensures Valid()
      ensures b.None? ==> !back && descs == old(descs) && arenas == old(arenas) && live == old(live)
      ensures b.Some? ==>
                live == old(live) - {b.value}
                  && arenas.Keys == old(arenas).Keys - (if back then {Page(b.value)} else {})
      ensures b.Some? ==> (back <==> forall c :: c in live ==> Page(c) != Page(b.value))
    {
      if b.None? { return false; }
      WholeLive(arenas, descs, live, b.value);
      match arenas[Page(b.value)]
      case Big(_) => FreeBig(b.value); back := true;
      case Small(d, _) => back := FreeSmall(b.value, d);
    }
  }

  /** The blocks free takes off the list are on it. */
  lemma Removable(arenas: Arenas, descs: seq<Desc>, live: set<nat>, a: nat, d: nat)
    requires Ok(arenas, descs, live, a) && a in arenas && arenas[a].Small? && arenas[a].desc == d < |descs|
    requires arenas[a].freeCnt >= descs[d].perArena
    ensures a % 4096 == 0 && DescOk(arenas, d, descs[d]) && FreeOf(a, descs[d]) == BlockSet(a, descs[d])
  {
    assert DescOk(arenas, d, descs[d]) && ArenaOk(a, arenas[a], descs, live, a);
    AllFree(arenas, descs, live, a, d, arenas[a].freeCnt);
  }

  /** A small arena has a block handed out exactly when not all are free. */
  lemma SomeLive(arenas: Arenas, descs: seq<Desc>, live: set<nat>, a: nat, d: nat, n: nat)
    requires Ok(arenas, descs, live, a) && a in arenas && arenas[a] == Small(d, n) && d < |descs|
    ensures n >= descs[d].perArena <==> forall c :: c in live ==> Page(c) != a
  {
    var x := descs[d];
    assert DescOk(arenas, d, x) && ArenaOk(a, arenas[a], descs, live, a);
    if n >= x.perArena {
      AllFree(arenas, descs, live, a, d, n);
    } else {
      var b := NotFree(a, x);
      BlockInside(a, x, b);
    }
  }

  lemma NotFree(a: nat, x: Desc) returns (b: nat)
    requires Fits(x) && |FreeOf(a, x)| < x.perArena && a % 4096 == 0
    ensures b in BlockSet(a, x) && b !in x.free
  {
    FirstBlocksCount(a, x.blockSize, x.perArena);
    var diff := BlockSet(a, x) - FreeOf(a, x);
    if diff == {} { Subset(BlockSet(a, x), FreeOf(a, x)); }
    b :| b in diff;
    BlockInside(a, x, b);
  }

  lemma NotSpare(arenas: Arenas, descs: seq<Desc>, live: set<nat>, a: nat)
    requires Ok(arenas, descs, live, a) && a in arenas && arenas[a].Small? && arenas[a].desc < |descs|
    requires arenas[a].freeCnt < descs[arenas[a].desc].perArena
    ensures Ok(arenas, descs, live, 0)
  {
    forall c | c in arenas
      ensures ArenaOk(c, arenas[c], descs, live, 0)
    {
      assert ArenaOk(c, arenas[c], descs, live, a);
    }
  }

  /** What is left of a free list without an arena's blocks is what is in other pages. */
  lemma InItsPage(x: Desc, a: nat, free: seq<nat>)
    requires FreeOf(a, x) == BlockSet(a, x)
    requires forall b :: b in free <==> b in x.free && b !in BlockSet(a, x)
    ensures forall b :: b in free <==> b in x.free && Page(b) != a
  {
    forall b | b in x.free
      ensures Page(b) == a <==> b in BlockSet(a, x)
    {
      assert b in FreeOf(a, x) <==> Page(b) == a;
    }
  }

  /** free's loop that takes an arena's blocks off the free list. */
  method RemoveBlocks(list: seq<nat>, a: nat, x: Desc) returns (free: seq<nat>)
    requires NoDup(list)
    ensures NoDup(free) && forall b :: b in free <==> b in list && b !in BlockSet(a, x)
  {
    free := list;
    var k := 0;
    while k < x.perArena
      invariant k <= x.perArena && NoDup(free)
      invariant forall b :: b in free <==> b in list && b !in FirstBlocks(a, x.blockSize, k)
    {
      WithoutIs(free, BlockAt(a, x.blockSize, k));
      free := Without(free, BlockAt(a, x.blockSize, k));
      k := k + 1;
    }
  }

  /** malloc's loop that lists a new arena's blocks. */
  method PushBlocks(a: nat, x: Desc) returns (free: seq<nat>)
    ensures free == Blocks(a, x.blockSize, x.perArena)
  {
    free := [];
    var i := 0;
    while i < x.perArena
      invariant i <= x.perArena && free == Blocks(a, x.blockSize, i)
    {
      free := free + [BlockAt(a, x.blockSize, i)];
      i := i + 1;
    }
  }
}
