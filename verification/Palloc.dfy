/** threads/palloc.c: pages are handed out from two pools, each with a bitmap.
    Pages are counted from address 0; the pools' locks make each operation one
    step. */
module Palloc {
  import opened Wrappers
  import opened Bitmaps

  type Live = map<nat, nat>          // first page of each allocation, and how many

  class Pool {
    const base: nat
    const used: Bitmap

    constructor (base: nat, used: Bitmap)
      ensures this.base == base && this.used == used
    {
      this.base, this.used := base, used;
    }
  }

  /** page_from_pool */
  predicate From(base: nat, n: nat, page: nat) {
    base <= page < base + n
  }

  /** An allocation lies inside one pool and its pages are marked used. */
  ghost predicate Held(base: nat, bits: seq<bool>, p: nat, cnt: nat) {
    base <= p && AllAre(bits, p - base, cnt, true)
  }

  ghost predicate LiveOk(kbase: nat, kbits: seq<bool>, ubase: nat, ubits: seq<bool>, live: Live) {
    && (forall p :: p in live ==> live[p] > 0 && (Held(kbase, kbits, p, live[p]) || Held(ubase, ubits, p, live[p])))
    && (forall p, q :: p in live && q in live && p < q ==> p + live[p] <= q)
  }

  /** A run of free pages overlaps no allocation. */
  lemma FreeIsClear(base: nat, bits: seq<bool>, p: nat, n: nat, start: nat, cnt: nat)
    requires Held(base, bits, p, n) && AllAre(bits, start, cnt, false) && n > 0 && cnt > 0
    ensures p + n <= base + start || base + start + cnt <= p
  {
    var k := if p - base >= start then p - base else start;
    assert start <= k < start + cnt ==> !bits[k];
  }

  /** Marking free pages used, and freeing an allocation, disturb no other one. */
  lemma StillHeld(base: nat, bits: seq<bool>, p: nat, n: nat, start: nat, cnt: nat, value: bool)
    requires Held(base, bits, p, n) && start + cnt <= |bits|
    requires value || p + n <= base + start || base + start + cnt <= p
    ensures Held(base, SetRange(bits, start, cnt, value), p, n)
  {
  }

  /** palloc_get_multiple in one pool, as the allocations see it. */
  lemma GetKeeps(kbase: nat, kbits: seq<bool>, ubase: nat, ubits: seq<bool>, live: Live, start: nat, cnt: nat)
    requires LiveOk(kbase, kbits, ubase, ubits, live) && AllAre(kbits, start, cnt, false) && cnt > 0
    requires kbase + |kbits| <= ubase || ubase + |ubits| <= kbase
    ensures var p := kbase + start;
            && (forall q :: q in live ==> q + live[q] <= p || p + cnt <= q)
            && LiveOk(kbase, SetRange(kbits, start, cnt, true), ubase, ubits, live[p := cnt])
  {
    var p, bits := kbase + start, SetRange(kbits, start, cnt, true);
    forall q | q in live
      ensures (q + live[q] <= p || p + cnt <= q) && (Held(kbase, bits, q, live[q]) || Held(ubase, ubits, q, live[q]))
    {
      if Held(kbase, kbits, q, live[q]) {
        FreeIsClear(kbase, kbits, q, live[q], start, cnt);
        StillHeld(kbase, kbits, q, live[q], start, cnt, true);
      }
    }
    assert Held(kbase, bits, p, cnt);
  }

  /** palloc_free_multiple in one pool. */
  lemma FreeKeeps(kbase: nat, kbits: seq<bool>, ubase: nat, ubits: seq<bool>, live: Live, p: nat)
    requires LiveOk(kbase, kbits, ubase, ubits, live) && p in live && Held(kbase, kbits, p, live[p])
    requires kbase + |kbits| <= ubase || ubase + |ubits| <= kbase
    ensures LiveOk(kbase, SetRange(kbits, p - kbase, live[p], false), ubase, ubits, live - {p})
  {
    var bits := SetRange(kbits, p - kbase, live[p], false);
    forall q | q in live && q != p
      ensures Held(kbase, bits, q, live[q]) || Held(ubase, ubits, q, live[q])
    {
      if Held(kbase, kbits, q, live[q]) { StillHeld(kbase, kbits, q, live[q], p - kbase, live[p], false); }
    }
  }

  lemma Swap(kbase: nat, kbits: seq<bool>, ubase: nat, ubits: seq<bool>, live: Live)
    ensures LiveOk(kbase, kbits, ubase, ubits, live) == LiveOk(ubase, ubits, kbase, kbits, live)
  {
  }

  /** Two pools with nothing in common, and the allocations from them. */
  ghost predicate PoolsOk(a: Pool, b: Pool, live: Live)
    reads a.used, a.used.words, b.used, b.used.words
  {
    && a.used != b.used && a.used.words != b.used.words && a.used.Valid() && b.used.Valid()
    && (a.base + a.used.bitCnt <= b.base || b.base + b.used.bitCnt <= a.base)
    && LiveOk(a.base, a.used.bits, b.base, b.used.bits, live)
  }

  lemma SwapPools(a: Pool, b: Pool, live: Live)
    requires PoolsOk(a, b, live)
    ensures PoolsOk(b, a, live)
  {
    Swap(a.base, a.used.bits, b.base, b.used.bits, live);
  }

  /** Taking a run of pages from one pool. */
  method Take(pool: Pool, ghost other: Pool, cnt: nat, ghost live: Live) returns (p: Option<nat>)
    requires PoolsOk(pool, other, live)
    modifies pool.used, pool.used.words
    ensures p.None? ==> PoolsOk(pool, other, live) && forall i: nat :: !AllAre(old(pool.used.bits), i, cnt, false)
    ensures p.Some? ==> pool.base <= p.value && p.value + cnt <= pool.base + pool.used.bitCnt
    ensures p.Some? && cnt > 0 ==> PoolsOk(pool, other, live[p.value := cnt])
                                   && forall q :: q in live ==> q + live[q] <= p.value || p.value + cnt <= q
    ensures cnt == 0 ==> p == Some(pool.base) && PoolsOk(pool, other, live)
  {
    ghost var bits := pool.used.bits;
    var idx := pool.used.ScanAndFlip(0, cnt, false);
    if cnt == 0 {
      assert AllAre(bits, 0, 0, false);
      assert SetRange(bits, 0, 0, true) == bits;
    }
    if idx.None? { return None; }
    if cnt > 0 { GetKeeps(pool.base, bits, other.base, other.used.bits, live, idx.value, cnt); }
    p := Some(pool.base + idx.value);
  }

  /** Giving a run of pages back to its pool. */
  method Give(pool: Pool, ghost other: Pool, p: nat, cnt: nat, ghost live: Live)
    requires PoolsOk(pool, other, live) && p in live && live[p] == cnt && Held(pool.base, pool.used.bits, p, cnt)
    modifies pool.used, pool.used.words
    ensures PoolsOk(pool, other, live - {p})
  {
    FreeKeeps(pool.base, pool.used.bits, other.base, other.used.bits, live, p);
    pool.used.SetMultiple(p - pool.base, cnt, false);
  }

  class Pages {
    const kernel: Pool
    const user: Pool
    ghost var live: Live

    ghost predicate Valid()
      reads this, kernel.used, kernel.used.words, user.used, user.used.words
    {
      PoolsOk(kernel, user, live)
    }

    constructor (kernel: Pool, user: Pool)
      requires kernel.used != user.used && kernel.used.words != user.used.words && kernel.used.Valid()
               && user.used.Valid()
      requires kernel.base + kernel.used.bitCnt <= user.base || user.base + user.used.bitCnt <= kernel.base
      ensures Valid() && live == map[] && this.kernel == kernel && this.user == user
    {
      this.kernel, this.user := kernel, user;
      live := map[];
    }

    /** palloc_get_multiple.  A request for no pages gets the first page of the pool,
        whoever has it. */
    method Get(fromUser: bool, cnt: nat) returns (p: Option<nat>)
      requires Valid()
      modifies this, kernel.used, kernel.used.words, user.used, user.used.words
      ensures Valid()
      ensures var pool := if fromUser then user else kernel;
              && (p.Some? ==> pool.base <= p.value && p.value + cnt <= pool.base + pool.used.bitCnt)
              && (p.None? ==> forall i: nat :: !AllAre(old(pool.used.bits), i, cnt, false))
              && (cnt == 0 ==> p == Some(pool.base))
      ensures p.Some? && cnt > 0 ==> live == old(live)[p.value := cnt]
                                     && forall q :: q in old(live) ==> q + old(live)[q] <= p.value || p.value + cnt <= q
      ensures p.None? || cnt == 0 ==> live == old(live)
    {
      if fromUser {
        SwapPools(kernel, user, live);
        p := Take(user, kernel, cnt, live);
        if p.Some? && cnt > 0 { live := live[p.value := cnt]; }
        SwapPools(user, kernel, live);
      } else {
        p := Take(kernel, user, cnt, live);
        if p.Some? && cnt > 0 { live := live[p.value := cnt]; }
      }
    }

    /** palloc_free_multiple: the pool is found from the page. */
    method Free(p: nat, cnt: nat)
      requires Valid() && (cnt > 0 ==> p in live && live[p] == cnt)
      modifies this, kernel.used, kernel.used.words, user.used, user.used.words
      ensures Valid() && live == if cnt == 0 then old(live) else old(live) - {p}
    {
      if cnt == 0 { return; }
      PoolOf(kernel, user, live, p);
      if From(kernel.base, kernel.used.bitCnt, p) {
        Give(kernel, user, p, cnt, live);
        live := live - {p};
      } else {
        SwapPools(kernel, user, live);
        Give(user, kernel, p, cnt, live);
        live := live - {p};
        SwapPools(user, kernel, live);
      }
    }
  }

  /** page_from_pool finds the pool an allocation came from. */
  lemma PoolOf(a: Pool, b: Pool, live: Live, p: nat)
    requires PoolsOk(a, b, live) && p in live
    ensures if From(a.base, a.used.bitCnt, p) then Held(a.base, a.used.bits, p, live[p])
            else Held(b.base, b.used.bits, p, live[p])
  {
    assert live[p] > 0 && (Held(a.base, a.used.bits, p, live[p]) || Held(b.base, b.used.bits, p, live[p]));
  }
}
