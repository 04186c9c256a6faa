/** Every step of the machine is a monitor move or leaves locks and condition
    variables alone. */
module Simulation {
  import opened Wrappers
  import opened Machine
  import opened Monitors
  import opened Placement

  type Semas = map<SemaId, Semaphore>

  // ------------------------------------------------------------------- views

  predicate Live(pc: Pc) {
    !pc.Dead? && !pc.Embryo?
  }

  function PcsOf(th: Table): Pcs {
    map t | t in th && Live(th[t].pc) :: th[t].pc
  }

  function EmbryosOf(th: Table): map<Tid, Tid> {
    map t | t in th && th[t].pc.Embryo? :: th[t].pc.parent
  }

  function FreeOf(semas: Semas, m: Monitor): map<LockId, nat> {
    map l | l in m.holder && OfLock(l) in semas :: semas[OfLock(l)].value
  }

  function UpsOf(semas: Semas, m: Monitor): map<WaiterId, nat> {
    map w | w in m.calls && OfWaiter(w) in semas :: semas[OfWaiter(w)].ups
  }

  function DownsOf(semas: Semas, m: Monitor): map<WaiterId, nat> {
    map w | w in m.calls && OfWaiter(w) in semas :: semas[OfWaiter(w)].downs
  }

  function SharedOf(th: Table, semas: Semas, m: Monitor): Shared {
    Shared(m, FreeOf(semas, m), UpsOf(semas, m), DownsOf(semas, m), EmbryosOf(th))
  }

  /** Nothing was taken from or given to a semaphore that its counters do not show. */
  predicate Balanced(id: SemaId, x: Semaphore) {
    && x.value + x.downs == x.init + x.ups
    && (id.OfLock? ==> x.init == 1)
    && (id.OfWaiter? ==> x.init == 0)
  }

  ghost predicate SemasOk(semas: Semas, m: Monitor) {
    && POOL_LOCK in m.holder
    && (forall l :: l in m.holder <==> OfLock(l) in semas)
    && (forall w :: w in m.calls <==> OfWaiter(w) in semas)
    && (forall id :: id in semas ==> Balanced(id, semas[id]))
  }

  ghost predicate MonitorsOk(s: State) {
    SemasOk(s.semas, s.mon) && Ok(PcsOf(s.threads), SharedOf(s.threads, s.semas, s.mon))
  }

  /** Nothing locks and condition variables depend on is different. */
  predicate SameView(s: State, r: State) {
    && PcsOf(r.threads) == PcsOf(s.threads) && EmbryosOf(r.threads) == EmbryosOf(s.threads)
    && r.semas == s.semas && r.mon == s.mon
  }

  lemma SameOk(s: State, r: State)
    requires MonitorsOk(s) && SameView(s, r)
    ensures MonitorsOk(r)
  {
  }

  // ------------------------------------------------------ changing one thread

  lemma StatusView(th: Table, t: Tid, x: Thread)
    requires t in th && x.pc == th[t].pc
    ensures PcsOf(th[t := x]) == PcsOf(th) && EmbryosOf(th[t := x]) == EmbryosOf(th)
  {
  }

  lemma PcView(th: Table, t: Tid, x: Thread)
    requires t in th && Live(th[t].pc) && Live(x.pc)
    ensures PcsOf(th[t := x]) == PcsOf(th)[t := x.pc] && EmbryosOf(th[t := x]) == EmbryosOf(th)
  {
  }

  lemma ScheduleView(s: State)
    ensures SameView(s, Schedule(s))
  {
    var t := Schedule(s).cpu.current;
    if t in s.threads { StatusView(s.threads, t, s.threads[t].(status := Running)); }
  }

  lemma WakeView(s: State, t: Tid)
    ensures SameView(s, Wake(s, t))
  {
    if t in s.threads { StatusView(s.threads, t, s.threads[t].(status := Ready)); }
  }

  lemma {:induction false} WakeDueView(s: State)
    ensures SameView(s, WakeDue(s))
    decreases |s.clock.sleeping|
  {
    if s.clock.sleeping != [] && s.clock.ticks >= s.clock.earliest {
      WakeView(s, s.clock.sleeping[0]);
      WakeDueView(WakeFirst(s));
    }
  }

  lemma CountView(s: State)
    ensures SameView(s, Count(s))
  {
    WakeDueView(s.(clock := s.clock.(ticks := s.clock.ticks + 1), cpu := s.cpu.(sliceTicks := s.cpu.sliceTicks + 1)));
  }

  lemma RequeueView(s: State)
    ensures SameView(s, Requeue(s))
  {
    WakeView(s, s.cpu.current);
  }

  // ------------------------------------------------------ changing a semaphore

  lemma KeepSemas(semas: Semas, m: Monitor, id: SemaId, x: Semaphore)
    requires SemasOk(semas, m) && id in semas && Balanced(id, x)
    ensures SemasOk(semas[id := x], m)
  {
  }

  lemma FreeView(semas: Semas, m: Monitor, id: SemaId, x: Semaphore)
    requires SemasOk(semas, m) && id in semas
    ensures FreeOf(semas[id := x], m) == if id.OfLock? then FreeOf(semas, m)[id.l := x.value] else FreeOf(semas, m)
  {
  }

  lemma UpsView(semas: Semas, m: Monitor, id: SemaId, x: Semaphore)
    requires SemasOk(semas, m) && id in semas
    ensures UpsOf(semas[id := x], m) == if id.OfWaiter? then UpsOf(semas, m)[id.w := x.ups] else UpsOf(semas, m)
  {
  }

  lemma DownsView(semas: Semas, m: Monitor, id: SemaId, x: Semaphore)
    requires SemasOk(semas, m) && id in semas
    ensures DownsOf(semas[id := x], m) == if id.OfWaiter? then DownsOf(semas, m)[id.w := x.downs] else DownsOf(semas, m)
  {
  }

  /** A semaphore's counters change, as locks and condition variables see it. */
  lemma SemaView(th: Table, semas: Semas, m: Monitor, id: SemaId, x: Semaphore)
    requires SemasOk(semas, m) && id in semas && Balanced(id, x)
    ensures SemasOk(semas[id := x], m)
    ensures var g, g' := SharedOf(th, semas, m), SharedOf(th, semas[id := x], m);
            match id
            case Plain(_) => g' == g
            case OfLock(l) => g' == g.(free := g.free[l := x.value])
            case OfWaiter(w) => g' == g.(ups := g.ups[w := x.ups], downs := g.downs[w := x.downs])
  {
    KeepSemas(semas, m, id, x);
    FreeView(semas, m, id, x);
    UpsView(semas, m, id, x);
    DownsView(semas, m, id, x);
  }

  /** Writing back a counter that has not changed. */
  lemma SameCount<K, V>(f: map<K, V>, k: K, v: V)
    requires k in f && f[k] == v
    ensures f[k := v] == f
  {
  }

  lemma UpThreads(s: State, id: SemaId)
    ensures PcsOf(Up(s, id).threads) == PcsOf(s.threads) && EmbryosOf(Up(s, id).threads) == EmbryosOf(s.threads)
    ensures id in s.semas ==> Up(s, id).semas == s.semas[id := Upped(s.semas[id])]
  {
    var waiters := SemaOf(s, id).waiters;
    if id in s.semas && waiters != [] {
      WakeView(s.(semas := s.semas[id := Upped(s.semas[id])]), waiters[0]);
    }
  }

  // ------------------------------------------------- steps outside monitors

  lemma UpPlain(s: State, n: nat)
    requires MonitorsOk(s) && Plain(n) in s.semas
    ensures MonitorsOk(Up(s, Plain(n)))
  {
    var x := s.semas[Plain(n)];
    assert Balanced(Plain(n), x);
    UpThreads(s, Plain(n));
    SemaView(s.threads, s.semas, s.mon, Plain(n), Upped(x));
  }

  lemma TakePlain(s: State, n: nat)
    requires MonitorsOk(s) && Plain(n) in s.semas
    ensures MonitorsOk(Take(s, Plain(n)))
  {
    var x := s.semas[Plain(n)];
    assert Balanced(Plain(n), x);
    SemaView(s.threads, s.semas, s.mon, Plain(n), Taken(x));
  }

  lemma DropView(s: State)
    requires s.doomed != [] && (s.doomed[0] in s.threads ==> s.threads[s.doomed[0]].pc.Dead?)
    ensures SameView(s, DropFirst(s))
  {
  }

  /** The pool lock is taken and given back without anyone noticing. */
  lemma PoolView(s: State)
    requires SemasOk(s.semas, s.mon) && SemaOf(s, POOL).value > 0
    ensures var r := Up(Take(s, POOL), POOL);
            && PcsOf(r.threads) == PcsOf(s.threads) && SemasOk(r.semas, r.mon) && r.mon == s.mon
            && SharedOf(r.threads, r.semas, r.mon) == SharedOf(s.threads, s.semas, s.mon)
            && SemaOf(r, POOL).value > 0
  {
    var x := s.semas[POOL];
    var y := Upped(Taken(x));
    assert Balanced(POOL, x);
    UpThreads(Take(s, POOL), POOL);
    assert Up(Take(s, POOL), POOL).semas == s.semas[POOL := y];
    SemaView(s.threads, s.semas, s.mon, POOL, y);
    SameCount(FreeOf(s.semas, s.mon), POOL_LOCK, y.value);
  }

  /** One round of do_schedule's loop is as good as nothing to locks and conditions. */
  lemma FreeFirstView(s: State)
    requires SemasOk(s.semas, s.mon) && SemaOf(s, POOL).value > 0 && Placed(s) && s.doomed != []
    ensures var r := FreeFirst(s);
            && PcsOf(r.threads) == PcsOf(s.threads) && SemasOk(r.semas, r.mon) && r.mon == s.mon
            && SharedOf(r.threads, r.semas, r.mon) == SharedOf(s.threads, s.semas, s.mon)
            && SemaOf(r, POOL).value > 0
  {
    PoolView(s);
    TakeInv(s, POOL);
    UpInv(Take(s, POOL), POOL);
    var s2 := Up(Take(s, POOL), POOL);
    assert IsDoomed(s2.threads, s2.cpu.initial, s2.doomed[0]);
    DropView(s2);
  }

  lemma {:induction false} FreeAllView(s: State)
    requires SemasOk(s.semas, s.mon) && SemaOf(s, POOL).value > 0 && Placed(s)
    ensures var r := FreeAll(s);
            && PcsOf(r.threads) == PcsOf(s.threads) && SemasOk(r.semas, r.mon)
            && SharedOf(r.threads, r.semas, r.mon) == SharedOf(s.threads, s.semas, s.mon)
    decreases |s.doomed|
  {
    if s.doomed != [] {
      FreeFirstView(s);
      FreeFirstInv(s);
      FreeAllView(FreeFirst(s));
    }
  }

  lemma FreeAllOk(s: State)
    requires MonitorsOk(s) && !PoolBusy(s) && Placed(s)
    ensures MonitorsOk(FreeAll(s)) && PcsOf(FreeAll(s).threads) == PcsOf(s.threads)
  {
    if s.doomed != [] { FreeAllView(s); }
  }

  lemma YieldOk(s: State)
    requires MonitorsOk(s) && Inv(s) && !PoolBusy(s)
    ensures MonitorsOk(Yield(s))
  {
    RequeueView(s);
    RequeueInv(s);
    SameOk(s, Requeue(s));
    FreeAllOk(Requeue(s));
    ScheduleView(FreeAll(Requeue(s)));
    SameOk(FreeAll(Requeue(s)), Yield(s));
  }

  lemma TickOk(s: State)
    requires MonitorsOk(s) && Inv(s) && (SliceEnds(s) ==> !PoolBusy(s))
    ensures MonitorsOk(Tick(s))
  {
    CountView(s);
    CountInv(s);
    CountBusy(s);
    SameOk(s, Count(s));
    if SliceEnds(s) { YieldOk(Count(s)); }
  }

  lemma {:induction false} WakeDueDoomed(s: State)
    ensures WakeDue(s).doomed == s.doomed
    decreases |s.clock.sleeping|
  {
    if s.clock.sleeping != [] && s.clock.ticks >= s.clock.earliest { WakeDueDoomed(WakeFirst(s)); }
  }

  lemma CountDoomed(s: State)
    ensures Count(s).doomed == s.doomed
  {
    WakeDueDoomed(s.(clock := s.clock.(ticks := s.clock.ticks + 1), cpu := s.cpu.(sliceTicks := s.cpu.sliceTicks + 1)));
  }

  lemma CountBusy(s: State)
    ensures PoolBusy(Count(s)) == PoolBusy(s)
  {
    CountDoomed(s);
    CountView(s);
  }

  lemma DieView(s: State)
    requires s.cpu.current in s.threads && Live(s.Pc())
    ensures var r := Die(s);
            PcsOf(r.threads) == PcsOf(s.threads) - {s.cpu.current} && EmbryosOf(r.threads) == EmbryosOf(s.threads)
  {
  }

  lemma DieOk(s: State)
    requires MonitorsOk(s) && s.cpu.current in s.threads && s.Pc() == User
    ensures MonitorsOk(Die(s))
  {
    DieView(s);
    Leave(PcsOf(s.threads), SharedOf(s.threads, s.semas, s.mon), s.cpu.current);
  }

  lemma DepartOk(s: State)
    requires MonitorsOk(s) && Placed(s) && !PoolBusy(s) && s.Pc() == User
    ensures MonitorsOk(Depart(s))
  {
    var s1 := FreeAll(s);
    FreeAllOk(s);
    assert PcsOf(s1.threads)[s.cpu.current] == User;
    DieOk(s1);
    ScheduleView(Die(s1));
    SameOk(Die(s1), Depart(s));
  }

  // ------------------------------------------------------ steps of the monitors

  /** The running thread moves on; nothing shared changes. */
  lemma MoveOk(s: State, pc: Pc)
    requires MonitorsOk(s) && s.cpu.current in s.threads && Live(s.Pc()) && !s.Pc().SetHolder? && !s.Pc().UpLock?
    requires Live(pc) && PcOk(SharedOf(s.threads, s.semas, s.mon), s.cpu.current, pc)
    ensures MonitorsOk(SetPc(s, pc))
  {
    var t := s.cpu.current;
    PcView(s.threads, t, s.threads[t].(status := Running, pc := pc));
    Move(PcsOf(s.threads), SharedOf(s.threads, s.semas, s.mon), t, pc);
  }

  /** Changing holders, owners and condition variables, but not which there are. */
  lemma MonitorView(semas: Semas, m: Monitor, m': Monitor)
    requires SemasOk(semas, m) && m'.holder.Keys == m.holder.Keys && m'.calls == m.calls
    ensures FreeOf(semas, m') == FreeOf(semas, m) && UpsOf(semas, m') == UpsOf(semas, m)
            && DownsOf(semas, m') == DownsOf(semas, m)
    ensures SemasOk(semas, m')
  {
  }

  /** A thread that is in the table and can run. */
  predicate Runs(s: State) {
    s.cpu.current in s.threads && Live(s.Pc())
  }

  function View(s: State): Shared {
    SharedOf(s.threads, s.semas, s.mon)
  }

  /** The running thread's counter, a semaphore and the monitor all change. */
  lemma ChangeView(s: State, pc: Pc, semas: Semas, m: Monitor)
    requires Runs(s) && Live(pc)
    ensures var r := SetPc(s, pc).(semas := semas, mon := m);
            && PcsOf(r.threads) == PcsOf(s.threads)[s.cpu.current := pc]
            && View(r) == View(s).(m := m, free := FreeOf(semas, m), ups := UpsOf(semas, m), downs := DownsOf(semas, m))
  {
    PcView(s.threads, s.cpu.current, s.threads[s.cpu.current].(status := Running, pc := pc));
  }

  /** What a step makes of the program counters and the shared state. */
  ghost predicate Becomes(s: State, r: State, pc: Pc, g: Shared) {
    && SemasOk(r.semas, r.mon) && View(r) == g
    && PcsOf(r.threads) == PcsOf(s.threads)[s.cpu.current := pc]
  }

  lemma EnterView(s: State, l: LockId, ctx: Ctx)
    requires SemasOk(s.semas, s.mon) && Runs(s) && SemaOf(s, OfLock(l)).value == 1
    ensures Becomes(s, Through(s, ToHolder(l, ctx)), SetHolder(l, ctx), EnterG(View(s), s.cpu.current, l))
  {
    var x := s.semas[OfLock(l)];
    var semas, m := s.semas[OfLock(l) := Taken(x)], s.mon.(owner := s.mon.owner[l := Some(s.cpu.current)]);
    assert Balanced(OfLock(l), x);
    SemaView(s.threads, s.semas, s.mon, OfLock(l), Taken(x));
    MonitorView(semas, s.mon, m);
    ChangeView(s, SetHolder(l, ctx), semas, m);
  }

  /** The down of lock_acquire, or lock_try_acquire, completes. */
  lemma EnterOk(s: State, l: LockId, ctx: Ctx)
    requires MonitorsOk(s) && Runs(s) && !s.Pc().SetHolder? && !s.Pc().UpLock? && SemaOf(s, OfLock(l)).value > 0
    requires CtxOk(View(s), s.cpu.current, l, ctx) && Late(View(s), ctx)
    ensures MonitorsOk(Through(s, ToHolder(l, ctx)))
  {
    assert View(s).free[l] == SemaOf(s, OfLock(l)).value && LockOk(View(s), l);
    EnterView(s, l, ctx);
    EnterMove(PcsOf(s.threads), View(s), s.cpu.current, l, ctx);
  }

  lemma ReacquireView(s: State, c: CondId, w: WaiterId, l: LockId)
    requires SemasOk(s.semas, s.mon) && Runs(s) && OfWaiter(w) in s.semas && s.semas[OfWaiter(w)].downs == 0
             && s.semas[OfWaiter(w)].value > 0
    ensures Becomes(s, Through(s, ToReacquire(c, w, l)), Down(ToHolder(l, ByWait(c, w)), false), DownG(View(s), w))
  {
    var x := s.semas[OfWaiter(w)];
    var semas := s.semas[OfWaiter(w) := Taken(x)];
    assert Balanced(OfWaiter(w), x);
    SemaView(s.threads, s.semas, s.mon, OfWaiter(w), Taken(x));
    SameCount(View(s).ups, w, x.ups);
    ChangeView(s, Down(ToHolder(l, ByWait(c, w)), false), semas, s.mon);
  }

  /** cond_wait is woken and goes on to take the lock back. */
  lemma ReacquireOk(s: State, c: CondId, w: WaiterId, l: LockId)
    requires MonitorsOk(s) && Runs(s) && s.Pc().Down? && s.Pc().k == ToReacquire(c, w, l)
             && SemaOf(s, OfWaiter(w)).value > 0
    ensures MonitorsOk(Through(s, ToReacquire(c, w, l)))
  {
    ReacquireFacts(s, c, w, l);
    ReacquireView(s, c, w, l);
    DownMove(PcsOf(s.threads), View(s), s.cpu.current, c, w, l, s.Pc().waited);
  }

  lemma ReacquireFacts(s: State, c: CondId, w: WaiterId, l: LockId)
    requires MonitorsOk(s) && Runs(s) && s.Pc().Down? && s.Pc().k == ToReacquire(c, w, l)
             && SemaOf(s, OfWaiter(w)).value > 0
    ensures OfWaiter(w) in s.semas && s.semas[OfWaiter(w)].downs == 0
    ensures w in View(s).ups && View(s).ups[w] == 1
  {
    assert PcOk(View(s), s.cpu.current, PcsOf(s.threads)[s.cpu.current]);
    assert CallOk(View(s), w) && Balanced(OfWaiter(w), s.semas[OfWaiter(w)]);
  }

  /** sema_down's loop body: only the wait list changes. */
  lemma WaitOnView(s: State, k: Kont)
    requires SemasOk(s.semas, s.mon) && Runs(s) && k.Sema() in s.semas
    ensures Becomes(s, WaitOn(s, k), Down(k, true), View(s))
  {
    var x := s.semas[k.Sema()].(waiters := s.semas[k.Sema()].waiters + [s.cpu.current]);
    assert Balanced(k.Sema(), s.semas[k.Sema()]);
    SemaView(s.threads, s.semas, s.mon, k.Sema(), x);
    match k {
      case ToUser(_) =>
      case ToHolder(l, _) => SameCount(View(s).free, l, x.value);
      case ToReacquire(_, w, _) => SameCount(View(s).ups, w, x.ups); SameCount(View(s).downs, w, x.downs);
      case ToReap => SameCount(View(s).free, POOL_LOCK, x.value);
    }
    PcView(s.threads, s.cpu.current, s.threads[s.cpu.current].(status := Blocked, pc := Down(k, true)));
  }

  lemma WaitOnOk(s: State, k: Kont)
    requires MonitorsOk(s) && Runs(s) && s.Pc().Down? && s.Pc().k == k && k.Sema() in s.semas
    ensures MonitorsOk(Schedule(WaitOn(s, k)))
  {
    assert PcOk(View(s), s.cpu.current, PcsOf(s.threads)[s.cpu.current]);
    WaitOnMove(s, k);
  }

  lemma WaitOnMove(s: State, k: Kont)
    requires MonitorsOk(s) && Runs(s) && !s.Pc().SetHolder? && !s.Pc().UpLock? && k.Sema() in s.semas
    requires PcOk(View(s), s.cpu.current, Down(k, true))
    ensures MonitorsOk(Schedule(WaitOn(s, k)))
  {
    WaitOnView(s, k);
    Move(PcsOf(s.threads), View(s), s.cpu.current, Down(k, true));
    ScheduleView(WaitOn(s, k));
    SameOk(WaitOn(s, k), Schedule(WaitOn(s, k)));
  }

  lemma ExitOk(s: State)
    requires MonitorsOk(s) && Placed(s) && s.Pc() == User
    ensures MonitorsOk(Exit(s))
  {
    if PoolBusy(s) {
      assert IsDoomed(s.threads, s.cpu.initial, s.doomed[0]);
      DropView(s);
      SameOk(s, DropFirst(s));
      WaitOnMove(DropFirst(s), ToReap);
    } else {
      DepartOk(s);
    }
  }

  /** A thread that waited inside thread_exit takes the lock, gives it back and dies. */
  lemma ReapOk(s: State)
    requires MonitorsOk(s) && Inv(s) && s.Pc().Down? && s.Pc().k == ToReap && SemaOf(s, POOL).value > 0
    ensures MonitorsOk(Depart(Up(Through(s, ToReap), POOL)))
  {
    MoveOk(s, User);
    SetPcInv(s, User);
    ReapDeparts(SetPc(s, User));
  }

  lemma ReapDeparts(s: State)
    requires MonitorsOk(s) && Inv(s) && s.Pc() == User && SemaOf(s, POOL).value > 0
    ensures MonitorsOk(Depart(Up(Take(s, POOL), POOL)))
  {
    PoolView(s);
    TakeInv(s, POOL);
    UpFull(Take(s, POOL), POOL);
    assert PcsOf(Up(Take(s, POOL), POOL).threads)[s.cpu.current] == User;
    DepartOk(Up(Take(s, POOL), POOL));
  }

  lemma HoldView(s: State, l: LockId, ctx: Ctx)
    requires SemasOk(s.semas, s.mon) && Runs(s) && s.Pc() == SetHolder(l, ctx) && l in s.mon.holder
    ensures Becomes(s, Advance(s), Acquired(l, ctx), HoldG(View(s), s.cpu.current, l, ctx))
  {
    var m := Advance(s).mon;
    assert m.holder.Keys == s.mon.holder.Keys;
    MonitorView(s.semas, s.mon, m);
    ChangeView(s, Acquired(l, ctx), s.semas, m);
  }

  /** lock_acquire, or cond_wait's reacquisition, writes the holder. */
  lemma HoldOk(s: State, l: LockId, ctx: Ctx)
    requires MonitorsOk(s) && Runs(s) && s.Pc() == SetHolder(l, ctx)
    ensures MonitorsOk(Advance(s))
  {
    assert PcOk(View(s), s.cpu.current, PcsOf(s.threads)[s.cpu.current]);
    HoldView(s, l, ctx);
    HoldMove(PcsOf(s.threads), View(s), s.cpu.current, l, ctx);
  }

  lemma ClearView(s: State, l: LockId, ctx: Ctx)
    requires SemasOk(s.semas, s.mon) && Runs(s) && s.Pc() == ClearHolder(l, ctx) && l in s.mon.holder
    ensures Becomes(s, Advance(s), UpLock(l, ctx), ClearG(View(s), l))
  {
    var m := Advance(s).mon;
    assert m.holder.Keys == s.mon.holder.Keys;
    MonitorView(s.semas, s.mon, m);
    ChangeView(s, UpLock(l, ctx), s.semas, m);
  }

  /** lock_release clears the holder. */
  lemma ClearOk(s: State, l: LockId, ctx: Ctx)
    requires MonitorsOk(s) && Runs(s) && s.Pc() == ClearHolder(l, ctx)
    ensures MonitorsOk(Advance(s))
  {
    assert PcOk(View(s), s.cpu.current, PcsOf(s.threads)[s.cpu.current]);
    ClearView(s, l, ctx);
    ClearMove(PcsOf(s.threads), View(s), s.cpu.current, l, ctx);
  }

  /** A step that ends in an up. */
  lemma UpView(s: State, pc: Pc, m: Monitor, id: SemaId)
    requires SemasOk(s.semas, s.mon) && Runs(s) && Live(pc) && id in s.semas
    requires m.holder.Keys == s.mon.holder.Keys && m.calls == s.mon.calls
    ensures var semas, r := s.semas[id := Upped(s.semas[id])], Up(SetPc(s, pc).(mon := m), id);
            Becomes(s, r, pc,
                    View(s).(m := m, free := FreeOf(semas, s.mon), ups := UpsOf(semas, s.mon),
                             downs := DownsOf(semas, s.mon)))
  {
    var x := s.semas[id];
    var semas := s.semas[id := Upped(x)];
    assert Balanced(id, x);
    KeepSemas(s.semas, s.mon, id, Upped(x));
    MonitorView(semas, s.mon, m);
    ChangeView(s, pc, semas, m);
    UpThreads(SetPc(s, pc).(mon := m), id);
  }

  lemma ReleaseView(s: State, l: LockId, ctx: Ctx)
    requires SemasOk(s.semas, s.mon) && Runs(s) && s.Pc() == UpLock(l, ctx) && OfLock(l) in s.semas
             && s.semas[OfLock(l)].value == 0
    ensures Becomes(s, Advance(s), Released(l, ctx), ExitG(View(s), l))
  {
    var x := s.semas[OfLock(l)];
    FreeView(s.semas, s.mon, OfLock(l), Upped(x));
    UpsView(s.semas, s.mon, OfLock(l), Upped(x));
    DownsView(s.semas, s.mon, OfLock(l), Upped(x));
    UpView(s, Released(l, ctx), s.mon.(owner := s.mon.owner[l := None]), OfLock(l));
  }

  /** lock_release ups the lock's semaphore. */
  lemma ReleaseOk(s: State, l: LockId, ctx: Ctx)
    requires MonitorsOk(s) && Runs(s) && s.Pc() == UpLock(l, ctx)
    ensures MonitorsOk(Advance(s))
  {
    assert PcOk(View(s), s.cpu.current, PcsOf(s.threads)[s.cpu.current]);
    assert LockOk(View(s), l) && View(s).free[l] == s.semas[OfLock(l)].value;
    ReleaseView(s, l, ctx);
    ExitMove(PcsOf(s.threads), View(s), s.cpu.current, l, ctx);
  }

  lemma WakeWaiterView(s: State, c: CondId, w: WaiterId, more: bool)
    requires SemasOk(s.semas, s.mon) && Runs(s) && s.Pc() == UpWaiter(c, w, more) && OfWaiter(w) in s.semas
             && s.semas[OfWaiter(w)].ups == 0
    ensures Becomes(s, Advance(s), if more then Broadcast(c) else User, UpG(View(s), w))
  {
    var x := s.semas[OfWaiter(w)];
    FreeView(s.semas, s.mon, OfWaiter(w), Upped(x));
    UpsView(s.semas, s.mon, OfWaiter(w), Upped(x));
    assert DownsOf(s.semas[OfWaiter(w) := Upped(x)], s.mon) == DownsOf(s.semas, s.mon) by {
      DownsView(s.semas, s.mon, OfWaiter(w), Upped(x));
      SameCount(DownsOf(s.semas, s.mon), w, x.downs);
    }
    UpView(s, if more then Broadcast(c) else User, s.mon, OfWaiter(w));
  }

  /** cond_signal ups the semaphore of the waiter it took off the list. */
  lemma WakeWaiterOk(s: State, c: CondId, w: WaiterId, more: bool)
    requires MonitorsOk(s) && Runs(s) && s.Pc() == UpWaiter(c, w, more)
    ensures MonitorsOk(Advance(s))
  {
    assert PcOk(View(s), s.cpu.current, PcsOf(s.threads)[s.cpu.current]);
    WakeWaiterView(s, c, w, more);
    UpMove(PcsOf(s.threads), View(s), s.cpu.current, c, w, more);
  }

  lemma SignalView(s: State, c: CondId, more: bool)
    requires SemasOk(s.semas, s.mon) && Runs(s) && c in s.mon.conds && s.mon.conds[c].waiters != []
    ensures Becomes(s, Signal(s, c, more), UpWaiter(c, s.mon.conds[c].waiters[0], more), SignalG(View(s), c))
  {
    var m := Signal(s, c, more).mon;
    MonitorView(s.semas, s.mon, m);
    ChangeView(s, UpWaiter(c, s.mon.conds[c].waiters[0], more), s.semas, m);
  }

  /** cond_signal takes the front waiter off the list, or finds none. */
  lemma SignalOk(s: State, c: CondId, more: bool)
    requires MonitorsOk(s) && Runs(s) && !s.Pc().SetHolder? && !s.Pc().UpLock?
    requires c in s.mon.conds && HeldBy(View(s), s.mon.conds[c].lock, s.cpu.current)
    ensures MonitorsOk(Signal(s, c, more))
  {
    if s.mon.conds[c].waiters == [] {
      MoveOk(s, User);
    } else {
      SignalView(s, c, more);
      SignalMove(PcsOf(s.threads), View(s), s.cpu.current, c, more);
    }
  }

  lemma EnlistView(s: State, c: CondId)
    requires SemasOk(s.semas, s.mon) && Runs(s) && c in s.mon.conds
    ensures Becomes(s, Enlist(s, c), ClearHolder(s.mon.conds[c].lock, ByWait(c, s.mon.nextWaiter)),
                    EnlistG(View(s), s.cpu.current, c))
  {
    var w, m := s.mon.nextWaiter, Enlist(s, c).mon;
    var semas := s.semas[OfWaiter(w) := Semaphore(0, [], 0, 0, 0)];
    NewWaiter(s.semas, s.mon, m, w);
    ChangeView(s, ClearHolder(s.mon.conds[c].lock, ByWait(c, w)), semas, m);
  }

  lemma NewWaiter(semas: Semas, m: Monitor, m': Monitor, w: WaiterId)
    requires SemasOk(semas, m) && m'.holder == m.holder && (forall v :: v in m'.calls <==> v in m.calls || v == w)
    ensures var semas' := semas[OfWaiter(w) := Semaphore(0, [], 0, 0, 0)];
            && SemasOk(semas', m') && FreeOf(semas', m') == FreeOf(semas, m)
            && UpsOf(semas', m') == UpsOf(semas, m)[w := 0] && DownsOf(semas', m') == DownsOf(semas, m)[w := 0]
  {
  }

  /** cond_wait queues a waiter. */
  lemma EnlistOk(s: State, c: CondId)
    requires MonitorsOk(s) && Runs(s) && Neutral(s.Pc())
    requires c in s.mon.conds && HeldBy(View(s), s.mon.conds[c].lock, s.cpu.current)
    ensures MonitorsOk(Enlist(s, c))
  {
    EnlistView(s, c);
    EnlistMove(PcsOf(s.threads), View(s), s.cpu.current, c);
  }

  lemma EmbryoView(th: Table, t: Tid, child: Tid, x: Thread)
    requires child !in th && x.pc == Embryo(t)
    ensures PcsOf(th[child := x]) == PcsOf(th) && EmbryosOf(th[child := x]) == EmbryosOf(th)[child := t]
  {
  }

  lemma ConceiveView(s: State, child: Tid)
    requires SemasOk(s.semas, s.mon) && Runs(s) && child !in s.threads
    ensures Becomes(s, Do(s, CallCreate(child)), Down(ToHolder(TID_LOCK, ByCreate(child)), false),
                    ConceiveG(View(s), s.cpu.current, child))
  {
    var s1 := Conceive(s, child);
    EmbryoView(s.threads, s.cpu.current, child, s1.threads[child]);
    ChangeView(s1, Down(ToHolder(TID_LOCK, ByCreate(child)), false), s.semas, s.mon);
  }

  /** thread_create makes a thread nobody can run yet. */
  lemma ConceiveOk(s: State, child: Tid)
    requires MonitorsOk(s) && Runs(s) && Neutral(s.Pc()) && child !in s.threads
    ensures MonitorsOk(Do(s, CallCreate(child)))
  {
    ConceiveView(s, child);
    ConceiveMove(PcsOf(s.threads), View(s), s.cpu.current, child);
  }

  lemma BornView(th: Table, child: Tid, x: Thread)
    requires child in th && th[child].pc.Embryo? && x.pc == User
    ensures PcsOf(th[child := x]) == PcsOf(th)[child := User] && EmbryosOf(th[child := x]) == EmbryosOf(th) - {child}
  {
  }

  lemma HatchView(s: State, child: Tid)
    requires Runs(s) && child in s.threads && s.threads[child].pc.Embryo?
    ensures var r := Hatch(SetPc(s, User), child);
            && PcsOf(r.threads) == PcsOf(s.threads)[s.cpu.current := User][child := User]
            && r.semas == s.semas && r.mon == s.mon && View(r) == HatchG(View(s), child)
  {
    var s1 := SetPc(s, User);
    PcView(s.threads, s.cpu.current, s1.threads[s.cpu.current]);
    BornView(s1.threads, child, Hatch(s1, child).threads[child]);
  }

  /** thread_create makes it ready. */
  lemma HatchOk(s: State, child: Tid)
    requires MonitorsOk(s) && Runs(s) && s.Pc() == Unblock(child)
    ensures child in s.threads && s.threads[child].pc.Embryo?
    ensures MonitorsOk(Advance(s))
  {
    assert PcOk(View(s), s.cpu.current, PcsOf(s.threads)[s.cpu.current]);
    HatchView(s, child);
    HatchMove(PcsOf(s.threads), View(s), s.cpu.current, child);
  }
}
