/** Locks and condition variables under every interleaving: at most one thread is
    between its down and its up on a lock, and every return from `cond_wait`
    answers one signal, in the order the waiters queued. */
module Monitors {
  import opened Wrappers
  import opened Machine

  /** The shared state of locks and condition variables: the values of the locks'
      semaphores, how often each waiter's semaphore was upped and downed, and
      which threads are being created by whom. */
  datatype Shared = Shared(
    m: Monitor,
    free: map<LockId, nat>,
    ups: map<WaiterId, nat>,
    downs: map<WaiterId, nat>,
    embryos: map<Tid, Tid>)

  /** Where every thread that can still run is. */
  type Pcs = map<Tid, Pc>

  // -------------------------------------------------------------- invariants

  /** A lock is free or has one owner; only the owner can be its holder. */
  predicate LockOk(g: Shared, l: LockId) {
    && l in g.free && l in g.m.holder && l in g.m.owner
    && g.free[l] == (if g.m.owner[l] == None then 1 else 0)
    && (g.m.holder[l].Some? ==> g.m.owner[l] == g.m.holder[l])
  }

  /** Waiters leave the list in the order they came, each once. */
  ghost predicate CondOk(g: Shared, c: CondId)
    requires c in g.m.conds
  {
    var cond := g.m.conds[c];
    && cond.lock in g.m.holder
    && cond.queued == cond.signalled + cond.waiters && NoDup(cond.queued)
    && forall w :: w in cond.queued ==> w in g.m.calls && g.m.calls[w].c == c
  }

  /** A waiter's semaphore is upped at most once, by the signal that took it off
      the list; it is downed only after, and only then does the call return. */
  predicate CallOk(g: Shared, w: WaiterId)
    requires w in g.m.calls
  {
    && w < g.m.nextWaiter && w in g.ups && w in g.downs && g.m.calls[w].c in g.m.conds
    && g.downs[w] <= g.ups[w] <= 1
    && (g.ups[w] == 1 ==> w in g.m.conds[g.m.calls[w].c].signalled)
    && (w in g.m.returned ==> g.downs[w] == 1)
  }

  ghost predicate SharedOk(g: Shared) {
    && g.free.Keys == g.m.holder.Keys == g.m.owner.Keys && TID_LOCK in g.m.holder
    && (forall l :: l in g.m.holder ==> LockOk(g, l))
    && (forall c :: c in g.m.conds ==> CondOk(g, c))
    && (forall w :: w in g.m.calls ==> CallOk(g, w))
    && (forall w :: w in g.m.returned ==> w in g.m.calls)
  }

  predicate Owns(g: Shared, t: Tid, l: LockId) {
    l in g.m.owner && g.m.owner[l] == Some(t)
  }

  predicate HeldBy(g: Shared, l: LockId, t: Tid) {
    l in g.m.holder && g.m.holder[l] == Some(t)
  }

  predicate Unheld(g: Shared, l: LockId) {
    l in g.m.holder && g.m.holder[l] == None
  }

  predicate CtxOk(g: Shared, t: Tid, l: LockId, ctx: Ctx) {
    match ctx
    case ByUser => true
    case ByWait(c, w) => c in g.m.conds && g.m.conds[c].lock == l && w in g.m.calls && g.m.calls[w] == Call(t, c)
    case ByCreate(child) => l == TID_LOCK && child in g.embryos && g.embryos[child] == t
  }

  /** Before, and after, the call's own semaphore has been downed. */
  predicate Early(g: Shared, ctx: Ctx) {
    ctx.ByWait? ==> ctx.w in g.downs && g.downs[ctx.w] == 0
  }

  predicate Late(g: Shared, ctx: Ctx) {
    ctx.ByWait? ==> ctx.w in g.downs && g.downs[ctx.w] == 1 && ctx.w !in g.m.returned
  }

  /** What is true of a thread because of where it is. */
  predicate PcOk(g: Shared, t: Tid, pc: Pc) {
    match pc
    case Down(ToHolder(l, ctx), _) => l in g.m.holder && CtxOk(g, t, l, ctx) && Late(g, ctx)
    case Down(ToReacquire(c, w, l), _) => l in g.m.holder && CtxOk(g, t, l, ByWait(c, w)) && Early(g, ByWait(c, w))
    case SetHolder(l, ctx) => Owns(g, t, l) && Unheld(g, l) && CtxOk(g, t, l, ctx) && Late(g, ctx)
    case ClearHolder(l, ctx) => HeldBy(g, l, t) && CtxOk(g, t, l, ctx) && Early(g, ctx)
    case UpLock(l, ctx) => Owns(g, t, l) && Unheld(g, l) && CtxOk(g, t, l, ctx) && Early(g, ctx)
    case UpWaiter(c, w, _) =>
      && c in g.m.conds && HeldBy(g, g.m.conds[c].lock, t)
      && w in g.m.calls && g.m.calls[w].c == c && w in g.m.conds[c].signalled && w in g.ups && g.ups[w] == 0
    case Broadcast(c) => c in g.m.conds && HeldBy(g, g.m.conds[c].lock, t)
    case Unblock(child) => child in g.embryos && g.embryos[child] == t
    case _ => true
  }

  /** The thread has downed the lock but does not hold it yet, or holds it no
      more but has not upped it. */
  predicate Between(pc: Pc, l: LockId) {
    (pc.SetHolder? || pc.UpLock?) && pc.l == l
  }

  /** An owned lock that is not held has its owner between two writes. */
  predicate Attended(pcs: Pcs, g: Shared, l: LockId) {
    l in g.m.owner && g.m.owner[l].Some? && Unheld(g, l) ==>
      g.m.owner[l].value in pcs && Between(pcs[g.m.owner[l].value], l)
  }

  ghost predicate PcsOk(pcs: Pcs, g: Shared) {
    && (forall t :: t in pcs ==> PcOk(g, t, pcs[t]))
    && (forall l :: l in g.m.owner ==> Attended(pcs, g, l))
  }

  ghost predicate Ok(pcs: Pcs, g: Shared) {
    SharedOk(g) && PcsOk(pcs, g)
  }

  /** The thread is between its down and its up on the lock. */
  predicate Inside(pcs: Pcs, g: Shared, t: Tid, l: LockId) {
    HeldBy(g, l, t) || (t in pcs && Between(pcs[t], l))
  }

  /** Mutual exclusion, and no lock is lost: a lock's semaphore is 0 exactly while
      some thread is inside, and then only that one is. */
  lemma MutualExclusion(pcs: Pcs, g: Shared, l: LockId)
    requires Ok(pcs, g) && l in g.m.holder
    ensures forall t, u :: Inside(pcs, g, t, l) && Inside(pcs, g, u, l) ==> t == u
    ensures g.free[l] <= 1
    ensures g.free[l] == 0 <==> exists t :: Inside(pcs, g, t, l)
  {
    assert LockOk(g, l);
    forall t | Inside(pcs, g, t, l)
      ensures g.m.owner[l] == Some(t)
    {
      if t in pcs { assert PcOk(g, t, pcs[t]); }
    }
    if g.m.owner[l].Some? {
      assert Attended(pcs, g, l);
      assert Inside(pcs, g, g.m.owner[l].value, l);
    }
  }

  // ---------------------------------------------------------------- the moves

  /** A program counter outside locks and condition variables. */
  predicate Neutral(pc: Pc) {
    match pc
    case Down(k, _) => k.ToUser?
    case User => true
    case Asleep => true
    case IdleStart(_) => true
    case IdleLoop => true
    case IdleWait => true
    case _ => false
  }

  /** Moving a thread that is between nothing, shared state unchanged. */
  lemma Move(pcs: Pcs, g: Shared, t: Tid, pc: Pc)
    requires Ok(pcs, g) && (t in pcs ==> !pcs[t].SetHolder? && !pcs[t].UpLock?) && PcOk(g, t, pc)
    ensures Ok(pcs[t := pc], g)
  {
  }

  /** A thread outside all primitives dies. */
  lemma Leave(pcs: Pcs, g: Shared, t: Tid)
    requires Ok(pcs, g) && t in pcs && Neutral(pcs[t])
    ensures Ok(pcs - {t}, g)
  {
  }

  // Each move below comes in three parts: the shared state stays well formed,
  // what was true of the other threads stays true, and every unheld lock that is
  // owned still has its owner between two writes.

  /** The down of lock_acquire completes. */
  function EnterG(g: Shared, t: Tid, l: LockId): Shared {
    g.(free := g.free[l := 0], m := g.m.(owner := g.m.owner[l := Some(t)]))
  }

  lemma EnterShared(g: Shared, t: Tid, l: LockId)
    requires SharedOk(g) && l in g.free && g.free[l] > 0
    ensures SharedOk(EnterG(g, t, l))
  {
    var g' := EnterG(g, t, l);
    assert LockOk(g, l);
    forall m | m in g'.m.holder ensures LockOk(g', m) { assert LockOk(g, m); }
    forall c | c in g'.m.conds ensures CondOk(g', c) { assert CondOk(g, c); }
    forall w | w in g'.m.calls ensures CallOk(g', w) { assert CallOk(g, w); }
  }

  lemma EnterOther(g: Shared, t: Tid, l: LockId, u: Tid, pc: Pc)
    requires LockOk(g, l) && g.free[l] > 0 && PcOk(g, u, pc)
    ensures PcOk(EnterG(g, t, l), u, pc)
  {
  }

  lemma EnterPcs(pcs: Pcs, g: Shared, t: Tid, l: LockId, ctx: Ctx)
    requires PcsOk(pcs, g) && LockOk(g, l) && g.free[l] > 0 && (t in pcs ==> !pcs[t].SetHolder? && !pcs[t].UpLock?)
    requires CtxOk(g, t, l, ctx) && Late(g, ctx)
    ensures PcsOk(pcs[t := SetHolder(l, ctx)], EnterG(g, t, l))
  {
    var g', pcs' := EnterG(g, t, l), pcs[t := SetHolder(l, ctx)];
    forall u | u in pcs'
      ensures PcOk(g', u, pcs'[u])
    {
      if u != t { EnterOther(g, t, l, u, pcs[u]); }
    }
    forall m | m in g'.m.owner
      ensures Attended(pcs', g', m)
    {
      if m != l { assert Attended(pcs, g, m); }
    }
  }

  lemma EnterMove(pcs: Pcs, g: Shared, t: Tid, l: LockId, ctx: Ctx)
    requires Ok(pcs, g) && (t in pcs ==> !pcs[t].SetHolder? && !pcs[t].UpLock?)
    requires l in g.free && g.free[l] > 0 && CtxOk(g, t, l, ctx) && Late(g, ctx)
    ensures Ok(pcs[t := SetHolder(l, ctx)], EnterG(g, t, l))
  {
    assert LockOk(g, l);
    EnterShared(g, t, l);
    EnterPcs(pcs, g, t, l, ctx);
  }

  /** lock_acquire writes the holder; a call of cond_wait returns here. */
  function HoldG(g: Shared, t: Tid, l: LockId, ctx: Ctx): Shared {
    g.(m := g.m.(holder := g.m.holder[l := Some(t)],
                 returned := if ctx.ByWait? then g.m.returned + {ctx.w} else g.m.returned))
  }

  lemma HoldShared(g: Shared, t: Tid, l: LockId, ctx: Ctx)
    requires SharedOk(g) && PcOk(g, t, SetHolder(l, ctx))
    ensures SharedOk(HoldG(g, t, l, ctx))
  {
    var g' := HoldG(g, t, l, ctx);
    forall m | m in g'.m.holder ensures LockOk(g', m) { assert LockOk(g, m); }
    forall c | c in g'.m.conds ensures CondOk(g', c) { assert CondOk(g, c); }
    forall w | w in g'.m.calls ensures CallOk(g', w) { assert CallOk(g, w); }
  }

  lemma HoldOther(g: Shared, t: Tid, l: LockId, ctx: Ctx, u: Tid, pc: Pc)
    requires PcOk(g, t, SetHolder(l, ctx)) && PcOk(g, u, pc) && u != t
    ensures PcOk(HoldG(g, t, l, ctx), u, pc)
  {
  }

  lemma HoldPcs(pcs: Pcs, g: Shared, t: Tid, l: LockId, ctx: Ctx)
    requires PcsOk(pcs, g) && t in pcs && pcs[t] == SetHolder(l, ctx)
    ensures PcsOk(pcs[t := Acquired(l, ctx)], HoldG(g, t, l, ctx))
  {
    var g', pcs' := HoldG(g, t, l, ctx), pcs[t := Acquired(l, ctx)];
    assert PcOk(g, t, pcs[t]);
    forall u | u in pcs'
      ensures PcOk(g', u, pcs'[u])
    {
      if u != t { HoldOther(g, t, l, ctx, u, pcs[u]); }
    }
    forall m | m in g'.m.owner
      ensures Attended(pcs', g', m)
    {
      assert Attended(pcs, g, m);
    }
  }

  lemma HoldMove(pcs: Pcs, g: Shared, t: Tid, l: LockId, ctx: Ctx)
    requires Ok(pcs, g) && t in pcs && pcs[t] == SetHolder(l, ctx)
    ensures Ok(pcs[t := Acquired(l, ctx)], HoldG(g, t, l, ctx))
  {
    assert PcOk(g, t, pcs[t]);
    HoldShared(g, t, l, ctx);
    HoldPcs(pcs, g, t, l, ctx);
  }

  /** lock_release clears the holder. */
  function ClearG(g: Shared, l: LockId): Shared {
    g.(m := g.m.(holder := g.m.holder[l := None]))
  }

  lemma ClearShared(g: Shared, l: LockId)
    requires SharedOk(g) && l in g.m.holder
    ensures SharedOk(ClearG(g, l))
  {
    var g' := ClearG(g, l);
    forall m | m in g'.m.holder ensures LockOk(g', m) { assert LockOk(g, m); }
    forall c | c in g'.m.conds ensures CondOk(g', c) { assert CondOk(g, c); }
    forall w | w in g'.m.calls ensures CallOk(g', w) { assert CallOk(g, w); }
  }

  lemma ClearPcs(pcs: Pcs, g: Shared, t: Tid, l: LockId, ctx: Ctx)
    requires PcsOk(pcs, g) && LockOk(g, l) && t in pcs && pcs[t] == ClearHolder(l, ctx)
    ensures PcsOk(pcs[t := UpLock(l, ctx)], ClearG(g, l))
  {
    var g', pcs' := ClearG(g, l), pcs[t := UpLock(l, ctx)];
    assert PcOk(g, t, pcs[t]);
    forall u | u in pcs'
      ensures PcOk(g', u, pcs'[u])
    {
      if u != t { assert PcOk(g, u, pcs[u]); }
    }
    forall m | m in g'.m.owner
      ensures Attended(pcs', g', m)
    {
      assert Attended(pcs, g, m);
    }
  }

  lemma ClearMove(pcs: Pcs, g: Shared, t: Tid, l: LockId, ctx: Ctx)
    requires Ok(pcs, g) && t in pcs && pcs[t] == ClearHolder(l, ctx)
    ensures Ok(pcs[t := UpLock(l, ctx)], ClearG(g, l))
  {
    assert PcOk(g, t, pcs[t]) && LockOk(g, l);
    ClearShared(g, l);
    ClearPcs(pcs, g, t, l, ctx);
  }

  /** lock_release ups the lock. */
  function ExitG(g: Shared, l: LockId): Shared {
    g.(free := g.free[l := 1], m := g.m.(owner := g.m.owner[l := None]))
  }

  lemma ExitShared(g: Shared, l: LockId)
    requires SharedOk(g) && Unheld(g, l)
    ensures SharedOk(ExitG(g, l))
  {
    var g' := ExitG(g, l);
    forall m | m in g'.m.holder ensures LockOk(g', m) { assert LockOk(g, m); }
    forall c | c in g'.m.conds ensures CondOk(g', c) { assert CondOk(g, c); }
    forall w | w in g'.m.calls ensures CallOk(g', w) { assert CallOk(g, w); }
  }

  lemma ExitPcs(pcs: Pcs, g: Shared, t: Tid, l: LockId, ctx: Ctx)
    requires PcsOk(pcs, g) && t in pcs && pcs[t] == UpLock(l, ctx)
    ensures PcsOk(pcs[t := Released(l, ctx)], ExitG(g, l))
  {
    var g', pcs' := ExitG(g, l), pcs[t := Released(l, ctx)];
    assert PcOk(g, t, pcs[t]);
    forall u | u in pcs'
      ensures PcOk(g', u, pcs'[u])
    {
      if u != t { assert PcOk(g, u, pcs[u]); }
    }
    forall m | m in g'.m.owner
      ensures Attended(pcs', g', m)
    {
      if m != l { assert Attended(pcs, g, m); }
    }
  }

  lemma ExitMove(pcs: Pcs, g: Shared, t: Tid, l: LockId, ctx: Ctx)
    requires Ok(pcs, g) && t in pcs && pcs[t] == UpLock(l, ctx)
    ensures Ok(pcs[t := Released(l, ctx)], ExitG(g, l))
  {
    assert PcOk(g, t, pcs[t]);
    ExitShared(g, l);
    ExitPcs(pcs, g, t, l, ctx);
  }

  // ------------------------------------------------------- condition variables

  /** cond_wait queues a fresh waiter. */
  function EnlistG(g: Shared, t: Tid, c: CondId): Shared
    requires c in g.m.conds
  {
    var w, cond := g.m.nextWaiter, g.m.conds[c];
    g.(m := g.m.(conds := g.m.conds[c := cond.(waiters := cond.waiters + [w], queued := cond.queued + [w])],
                 calls := g.m.calls[w := Call(t, c)], nextWaiter := w + 1),
       ups := g.ups[w := 0], downs := g.downs[w := 0])
  }

  lemma EnlistShared(g: Shared, t: Tid, c: CondId)
    requires SharedOk(g) && c in g.m.conds
    ensures SharedOk(EnlistG(g, t, c))
  {
    var g', w0 := EnlistG(g, t, c), g.m.nextWaiter;
    assert w0 in g.m.calls ==> CallOk(g, w0);
    forall m | m in g'.m.holder ensures LockOk(g', m) { assert LockOk(g, m); }
    forall d | d in g'.m.conds ensures CondOk(g', d) {
      assert CondOk(g, d);
      EnlistCond(g, t, c, d);
    }
    forall w | w in g'.m.calls ensures CallOk(g', w) { if w != w0 { assert CallOk(g, w); } }
  }

  lemma EnlistCond(g: Shared, t: Tid, c: CondId, d: CondId)
    requires c in g.m.conds && d in g.m.conds && CondOk(g, d) && g.m.nextWaiter !in g.m.calls
    ensures CondOk(EnlistG(g, t, c), d)
  {
    if d == c { assert g.m.nextWaiter !in g.m.conds[c].queued; }
  }

  lemma EnlistPcs(pcs: Pcs, g: Shared, t: Tid, c: CondId)
    requires PcsOk(pcs, g) && g.m.nextWaiter !in g.m.calls && c in g.m.conds
    requires t in pcs && Neutral(pcs[t]) && HeldBy(g, g.m.conds[c].lock, t)
    ensures PcsOk(pcs[t := ClearHolder(g.m.conds[c].lock, ByWait(c, g.m.nextWaiter))], EnlistG(g, t, c))
  {
    var g', pcs' := EnlistG(g, t, c), pcs[t := ClearHolder(g.m.conds[c].lock, ByWait(c, g.m.nextWaiter))];
    forall u | u in pcs'
      ensures PcOk(g', u, pcs'[u])
    {
      if u != t { assert PcOk(g, u, pcs[u]); }
    }
    forall m | m in g'.m.owner
      ensures Attended(pcs', g', m)
    {
      assert Attended(pcs, g, m);
    }
  }

  /** cond_signal takes the front waiter off the list. */
  function SignalG(g: Shared, c: CondId): Shared
    requires c in g.m.conds && g.m.conds[c].waiters != []
  {
    var cond := g.m.conds[c];
    g.(m := g.m.(conds := g.m.conds[c := cond.(waiters := cond.waiters[1..],
                                               signalled := cond.signalled + [cond.waiters[0]])]))
  }

  /** The front waiter has not been signalled before. */
  predicate FrontNew(g: Shared, c: CondId)
    requires c in g.m.conds && g.m.conds[c].waiters != []
  {
    var w := g.m.conds[c].waiters[0];
    w !in g.m.conds[c].signalled && w in g.m.calls && g.m.calls[w].c == c && w in g.ups && g.ups[w] == 0
  }

  lemma FrontIsNew(g: Shared, c: CondId)
    requires SharedOk(g) && c in g.m.conds && g.m.conds[c].waiters != []
    ensures FrontNew(g, c)
  {
    var cond, w := g.m.conds[c], g.m.conds[c].waiters[0];
    assert CondOk(g, c);
    assert cond.queued[|cond.signalled|] == w;
    assert CallOk(g, w);
    forall i | 0 <= i < |cond.signalled|
      ensures cond.signalled[i] != w
    {
      assert cond.queued[i] == cond.signalled[i];
    }
  }

  lemma SignalShared(g: Shared, c: CondId)
    requires SharedOk(g) && c in g.m.conds && g.m.conds[c].waiters != []
    ensures SharedOk(SignalG(g, c))
  {
    var g' := SignalG(g, c);
    forall m | m in g'.m.holder ensures LockOk(g', m) { assert LockOk(g, m); }
    forall d | d in g'.m.conds ensures CondOk(g', d) {
      assert CondOk(g, d);
      if d == c {
        var cond := g.m.conds[c];
        assert cond.signalled + cond.waiters == (cond.signalled + [cond.waiters[0]]) + cond.waiters[1..];
      }
    }
    forall w | w in g'.m.calls ensures CallOk(g', w) { assert CallOk(g, w); }
  }

  lemma SignalPcs(pcs: Pcs, g: Shared, t: Tid, c: CondId, more: bool)
    requires PcsOk(pcs, g) && c in g.m.conds && g.m.conds[c].waiters != [] && FrontNew(g, c)
    requires t in pcs && !pcs[t].SetHolder? && !pcs[t].UpLock? && HeldBy(g, g.m.conds[c].lock, t)
    ensures PcsOk(pcs[t := UpWaiter(c, g.m.conds[c].waiters[0], more)], SignalG(g, c))
  {
    var g', pcs' := SignalG(g, c), pcs[t := UpWaiter(c, g.m.conds[c].waiters[0], more)];
    forall u | u in pcs'
      ensures PcOk(g', u, pcs'[u])
    {
      if u != t { assert PcOk(g, u, pcs[u]); }
    }
    forall m | m in g'.m.owner
      ensures Attended(pcs', g', m)
    {
      assert Attended(pcs, g, m);
    }
  }

  /** cond_signal ups the waiter's semaphore. */
  function UpG(g: Shared, w: WaiterId): Shared {
    g.(ups := g.ups[w := 1])
  }

  lemma UpShared(g: Shared, w: WaiterId)
    requires SharedOk(g) && w in g.m.calls && g.ups[w] == 0 && w in g.m.conds[g.m.calls[w].c].signalled
    ensures SharedOk(UpG(g, w))
  {
    var g' := UpG(g, w);
    forall m | m in g'.m.holder ensures LockOk(g', m) { assert LockOk(g, m); }
    forall c | c in g'.m.conds ensures CondOk(g', c) { assert CondOk(g, c); }
    forall x | x in g'.m.calls ensures CallOk(g', x) { assert CallOk(g, x); }
  }

  lemma UpPcs(pcs: Pcs, g: Shared, t: Tid, c: CondId, w: WaiterId, more: bool)
    requires PcsOk(pcs, g) && t in pcs && pcs[t] == UpWaiter(c, w, more)
    ensures PcsOk(pcs[t := if more then Broadcast(c) else User], UpG(g, w))
  {
    var g', pcs' := UpG(g, w), pcs[t := if more then Broadcast(c) else User];
    assert PcOk(g, t, pcs[t]);
    forall u | u in pcs'
      ensures PcOk(g', u, pcs'[u])
    {
      if u != t {
        // another thread about to up the same waiter would hold the same lock
        assert PcOk(g, u, pcs[u]);
      }
    }
    forall m | m in g'.m.owner
      ensures Attended(pcs', g', m)
    {
      assert Attended(pcs, g, m);
    }
  }

  /** The waiter's own down completes. */
  function DownG(g: Shared, w: WaiterId): Shared {
    g.(downs := g.downs[w := 1])
  }

  lemma DownShared(g: Shared, w: WaiterId)
    requires SharedOk(g) && w in g.m.calls && g.ups[w] == 1
    ensures SharedOk(DownG(g, w))
  {
    var g' := DownG(g, w);
    forall m | m in g'.m.holder ensures LockOk(g', m) { assert LockOk(g, m); }
    forall c | c in g'.m.conds ensures CondOk(g', c) { assert CondOk(g, c); }
    forall x | x in g'.m.calls ensures CallOk(g', x) { assert CallOk(g, x); }
  }

  lemma DownPcs(pcs: Pcs, g: Shared, t: Tid, c: CondId, w: WaiterId, l: LockId, waited: bool)
    requires PcsOk(pcs, g) && t in pcs && pcs[t] == Down(ToReacquire(c, w, l), waited) && w in g.m.calls && CallOk(g, w)
    ensures PcsOk(pcs[t := Down(ToHolder(l, ByWait(c, w)), false)], DownG(g, w))
  {
    var g', pcs' := DownG(g, w), pcs[t := Down(ToHolder(l, ByWait(c, w)), false)];
    assert PcOk(g, t, pcs[t]);
    forall u | u in pcs'
      ensures PcOk(g', u, pcs'[u])
    {
      if u != t { assert PcOk(g, u, pcs[u]); }
    }
    forall m | m in g'.m.owner
      ensures Attended(pcs', g', m)
    {
      assert Attended(pcs, g, m);
    }
  }

  // ------------------------------------------------------------------ creation

  function ConceiveG(g: Shared, t: Tid, child: Tid): Shared {
    g.(embryos := g.embryos[child := t])
  }

  function HatchG(g: Shared, child: Tid): Shared {
    g.(embryos := g.embryos - {child})
  }

  lemma ConceivedPcs(pcs: Pcs, g: Shared, t: Tid, child: Tid)
    requires PcsOk(pcs, g) && TID_LOCK in g.m.holder && t in pcs && Neutral(pcs[t]) && child !in g.embryos
    ensures PcsOk(pcs[t := Down(ToHolder(TID_LOCK, ByCreate(child)), false)], ConceiveG(g, t, child))
  {
    var g', pcs' := ConceiveG(g, t, child), pcs[t := Down(ToHolder(TID_LOCK, ByCreate(child)), false)];
    forall u | u in pcs' ensures PcOk(g', u, pcs'[u]) { if u != t { assert PcOk(g, u, pcs[u]); } }
    forall m | m in g'.m.owner ensures Attended(pcs', g', m) { assert Attended(pcs, g, m); }
  }

  /** The new thread can run; nobody else was creating it. */
  lemma HatchedPcs(pcs: Pcs, g: Shared, t: Tid, child: Tid)
    requires PcsOk(pcs, g) && t in pcs && pcs[t] == Unblock(child) && child !in pcs
    ensures PcsOk(pcs[t := User][child := User], HatchG(g, child))
  {
    var g', pcs' := HatchG(g, child), pcs[t := User][child := User];
    assert PcOk(g, t, pcs[t]);
    forall u | u in pcs' ensures PcOk(g', u, pcs'[u]) { if u != t && u != child { assert PcOk(g, u, pcs[u]); } }
    forall m | m in g'.m.owner ensures Attended(pcs', g', m) { assert Attended(pcs, g, m); }
  }

  lemma EmbryosShared(g: Shared, embryos: map<Tid, Tid>)
    requires SharedOk(g)
    ensures SharedOk(g.(embryos := embryos))
  {
    var g' := g.(embryos := embryos);
    forall m | m in g'.m.holder ensures LockOk(g', m) { assert LockOk(g, m); }
    forall c | c in g'.m.conds ensures CondOk(g', c) { assert CondOk(g, c); }
    forall x | x in g'.m.calls ensures CallOk(g', x) { assert CallOk(g, x); }
  }

  // ------------------------------------------------------------- whole moves

  lemma EnlistMove(pcs: Pcs, g: Shared, t: Tid, c: CondId)
    requires Ok(pcs, g) && c in g.m.conds && t in pcs && Neutral(pcs[t]) && HeldBy(g, g.m.conds[c].lock, t)
    ensures Ok(pcs[t := ClearHolder(g.m.conds[c].lock, ByWait(c, g.m.nextWaiter))], EnlistG(g, t, c))
  {
    assert g.m.nextWaiter in g.m.calls ==> CallOk(g, g.m.nextWaiter);
    EnlistShared(g, t, c);
    EnlistPcs(pcs, g, t, c);
  }

  lemma SignalMove(pcs: Pcs, g: Shared, t: Tid, c: CondId, more: bool)
    requires Ok(pcs, g) && c in g.m.conds && g.m.conds[c].waiters != []
    requires t in pcs && !pcs[t].SetHolder? && !pcs[t].UpLock? && HeldBy(g, g.m.conds[c].lock, t)
    ensures Ok(pcs[t := UpWaiter(c, g.m.conds[c].waiters[0], more)], SignalG(g, c))
  {
    FrontIsNew(g, c);
    SignalShared(g, c);
    SignalPcs(pcs, g, t, c, more);
  }

  lemma UpMove(pcs: Pcs, g: Shared, t: Tid, c: CondId, w: WaiterId, more: bool)
    requires Ok(pcs, g) && t in pcs && pcs[t] == UpWaiter(c, w, more)
    ensures Ok(pcs[t := if more then Broadcast(c) else User], UpG(g, w))
  {
    assert PcOk(g, t, pcs[t]);
    UpShared(g, w);
    UpPcs(pcs, g, t, c, w, more);
  }

  lemma DownMove(pcs: Pcs, g: Shared, t: Tid, c: CondId, w: WaiterId, l: LockId, waited: bool)
    requires Ok(pcs, g) && t in pcs && pcs[t] == Down(ToReacquire(c, w, l), waited) && w in g.ups && g.ups[w] == 1
    ensures Ok(pcs[t := Down(ToHolder(l, ByWait(c, w)), false)], DownG(g, w))
  {
    assert PcOk(g, t, pcs[t]) && CallOk(g, w);
    DownShared(g, w);
    DownPcs(pcs, g, t, c, w, l, waited);
  }

  lemma ConceiveMove(pcs: Pcs, g: Shared, t: Tid, child: Tid)
    requires Ok(pcs, g) && t in pcs && Neutral(pcs[t]) && child !in g.embryos
    ensures Ok(pcs[t := Down(ToHolder(TID_LOCK, ByCreate(child)), false)], ConceiveG(g, t, child))
  {
    EmbryosShared(g, g.embryos[child := t]);
    ConceivedPcs(pcs, g, t, child);
  }

  lemma HatchMove(pcs: Pcs, g: Shared, t: Tid, child: Tid)
    requires Ok(pcs, g) && t in pcs && pcs[t] == Unblock(child) && child !in pcs
    ensures Ok(pcs[t := User][child := User], HatchG(g, child))
  {
    EmbryosShared(g, g.embryos - {child});
    HatchedPcs(pcs, g, t, child);
  }
}
