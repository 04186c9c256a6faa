/** No wakeup is lost: while threads wait for a semaphore, every unit it holds has
    a thread that was woken for it and has yet to test the value again. */
module Wakeups {
  import opened Wrappers
  import opened Machine
  import opened Monitors
  import opened Placement
  import opened Simulation
  import opened Reachable

  /** Woken inside sema_down and yet to test the value again. */
  predicate IsWoken(th: Table, id: SemaId, t: Tid) {
    t in th && th[t].status != Blocked && th[t].pc.Down? && th[t].pc.waited && th[t].pc.k.Sema() == id
  }

  function Woken(th: Table, id: SemaId): set<Tid> {
    set t | t in th && IsWoken(th, id, t)
  }

  predicate Covered(th: Table, id: SemaId, x: Semaphore) {
    x.waiters != [] ==> x.value <= |Woken(th, id)|
  }

  ghost predicate NoLost(th: Table, semas: Semas) {
    forall id :: id in semas ==> Covered(th, id, semas[id])
  }

  // -------------------------------------------------------- changing one thread

  /** Inside or just out of thread_block, in sema_down. */
  predicate Waited(pc: Pc) {
    pc.Down? && pc.waited
  }

  /** Changing a thread that is not inside sema_down before or after. */
  lemma KeepLost(th: Table, semas: Semas, t: Tid, x: Thread)
    requires NoLost(th, semas) && (t in th ==> !Waited(th[t].pc)) && !Waited(x.pc)
    ensures NoLost(th[t := x], semas)
  {
    forall id | id in semas
      ensures Covered(th[t := x], id, semas[id])
    {
      assert Covered(th, id, semas[id]);
      assert Woken(th[t := x], id) == Woken(th, id);
    }
  }

  /** A thread that runs, or is ready to, changes its status only. */
  lemma RestatusLost(th: Table, semas: Semas, t: Tid, x: Thread)
    requires NoLost(th, semas) && t in th && x.pc == th[t].pc
    requires Waited(x.pc) ==> x.status != Blocked && th[t].status != Blocked
    ensures NoLost(th[t := x], semas)
  {
    forall id | id in semas
      ensures Covered(th[t := x], id, semas[id])
    {
      assert Covered(th, id, semas[id]);
      assert Woken(th[t := x], id) == Woken(th, id);
    }
  }

  /** sema_up moves the first waiter into the set. */
  lemma WakeLost(th: Table, semas: Semas, id: SemaId, t: Tid)
    requires NoLost(th, semas) && id in semas && semas[id].waiters != [] && t in th && IsWaiting(th, id, t)
    ensures NoLost(th[t := th[t].(status := Ready)], semas[id := Upped(semas[id])])
  {
    var th', semas' := th[t := th[t].(status := Ready)], semas[id := Upped(semas[id])];
    forall i | i in semas'
      ensures Covered(th', i, semas'[i])
    {
      assert Covered(th, i, semas[i]);
      if i == id {
        assert Woken(th', id) == Woken(th, id) + {t};
      } else {
        assert Woken(th', i) == Woken(th, i);
      }
    }
  }

  /** A woken thread takes the unit it was woken for. */
  lemma LeaveLost(th: Table, semas: Semas, id: SemaId, t: Tid, x: Thread)
    requires NoLost(th, semas) && id in semas && semas[id].value > 0 && IsWoken(th, id, t) && !Waited(x.pc)
    ensures NoLost(th[t := x], semas[id := Taken(semas[id])])
  {
    var th', semas' := th[t := x], semas[id := Taken(semas[id])];
    forall i | i in semas'
      ensures Covered(th', i, semas'[i])
    {
      assert Covered(th, i, semas[i]);
      if i == id {
        assert Woken(th', id) == Woken(th, id) - {t};
      } else {
        assert Woken(th', i) == Woken(th, i);
      }
    }
  }

  /** The running thread finds the value 0 and waits. */
  lemma WaitLost(th: Table, semas: Semas, id: SemaId, t: Tid, x: Thread, waiters: seq<Tid>)
    requires NoLost(th, semas) && id in semas && semas[id].value == 0 && t in th && x.status == Blocked
    requires Waited(th[t].pc) ==> IsWoken(th, id, t)
    ensures NoLost(th[t := x], semas[id := semas[id].(waiters := waiters)])
  {
    var th', semas' := th[t := x], semas[id := semas[id].(waiters := waiters)];
    forall i | i in semas'
      ensures Covered(th', i, semas'[i])
    {
      assert Covered(th, i, semas[i]);
      if i != id { assert Woken(th', i) == Woken(th, i); }
    }
  }

  // ---------------------------------------------------------- parts of steps

  lemma ScheduleLost(s: State)
    requires NoLost(s.threads, s.semas) && Placed(s)
    ensures NoLost(Schedule(s).threads, s.semas)
  {
    if CanSchedule(s) {
      var t := Schedule(s).cpu.current;
      if s.cpu.ready != [] { assert IsReady(s.threads, s.cpu.idle, t); }
      if t in s.threads { RestatusLost(s.threads, s.semas, t, s.threads[t].(status := Running)); }
    }
  }

  /** A barging thread or sema_try_down takes a unit. */
  lemma TakeLost(s: State, id: SemaId)
    requires NoLost(s.threads, s.semas)
    ensures NoLost(s.threads, Take(s, id).semas)
  {
    forall i | i in Take(s, id).semas
      ensures Covered(s.threads, i, Take(s, id).semas[i])
    {
      assert Covered(s.threads, i, s.semas[i]);
    }
  }

  lemma UpLost(s: State, id: SemaId)
    requires NoLost(s.threads, s.semas) && Placed(s)
    ensures NoLost(Up(s, id).threads, Up(s, id).semas)
  {
    if id in s.semas {
      var waiters := s.semas[id].waiters;
      if waiters == [] {
        forall i | i in Up(s, id).semas
          ensures Covered(s.threads, i, Up(s, id).semas[i])
        {
          assert Covered(s.threads, i, s.semas[i]);
        }
      } else {
        assert WaitOk(s.threads, id, waiters) && IsWaiting(s.threads, id, waiters[0]);
        WakeLost(s.threads, s.semas, id, waiters[0]);
      }
    }
  }

  lemma DropLost(s: State)
    requires NoLost(s.threads, s.semas) && Placed(s)
    ensures NoLost(DropFirst(s).threads, s.semas)
  {
    if s.doomed != [] {
      var th := DropFirst(s).threads;
      assert IsDoomed(s.threads, s.cpu.initial, s.doomed[0]);
      forall id | id in s.semas
        ensures Covered(th, id, s.semas[id])
      {
        assert Covered(s.threads, id, s.semas[id]);
        assert Woken(th, id) == Woken(s.threads, id);
      }
    }
  }

  lemma FreeFirstLost(s: State)
    requires NoLost(s.threads, s.semas) && Placed(s)
    ensures NoLost(FreeFirst(s).threads, FreeFirst(s).semas)
  {
    var s1 := Take(s, POOL);
    TakeLost(s, POOL);
    TakeInv(s, POOL);
    UpLost(s1, POOL);
    UpInv(s1, POOL);
    DropLost(Up(s1, POOL));
  }

  lemma {:induction false} FreeAllLost(s: State)
    requires NoLost(s.threads, s.semas) && Placed(s)
    ensures NoLost(FreeAll(s).threads, FreeAll(s).semas)
    decreases |s.doomed|
  {
    if s.doomed != [] {
      FreeFirstLost(s);
      FreeFirstInv(s);
      FreeAllLost(FreeFirst(s));
    }
  }

  lemma SwitchLost(s: State)
    requires NoLost(s.threads, s.semas) && Placed(s)
    ensures var r := Schedule(FreeAll(s)); NoLost(r.threads, r.semas)
  {
    FreeAllLost(s);
    FreeAllInv(s, s.cpu.current);
    ScheduleLost(FreeAll(s));
  }

  lemma YieldLost(s: State)
    requires NoLost(s.threads, s.semas) && Inv(s) && !PoolBusy(s)
    ensures NoLost(Yield(s).threads, Yield(s).semas)
  {
    RestatusLost(s.threads, s.semas, s.cpu.current, s.threads[s.cpu.current].(status := Ready));
    RequeueInv(s);
    SwitchLost(Requeue(s));
  }

  lemma DepartLost(s: State)
    requires NoLost(s.threads, s.semas) && Inv(s) && s.Pc() == User
    ensures NoLost(Depart(s).threads, Depart(s).semas)
  {
    FreeAllLost(s);
    FreeAllInv(s, s.cpu.current);
    FreeAllPc(s, s.cpu.current);
    DieLost(FreeAll(s));
  }

  lemma DieLost(s: State)
    requires NoLost(s.threads, s.semas) && Inv(s) && s.Pc() == User
    ensures var r := Schedule(Die(s)); NoLost(r.threads, r.semas)
  {
    KeepLost(s.threads, s.semas, s.cpu.current, Die(s).threads[s.cpu.current]);
    DieInv(s);
    ScheduleLost(Die(s));
  }

  /** The running thread finds the value 0, waits, and another runs. */
  lemma BlockLost(s: State, k: Kont)
    requires NoLost(s.threads, s.semas) && Inv(s) && k.Sema() in s.semas && s.semas[k.Sema()].value == 0
    requires s.cpu.idle != Some(s.cpu.current) && (Waited(s.Pc()) ==> s.Pc().k == k)
    ensures var r := Schedule(WaitOn(s, k)); NoLost(r.threads, r.semas)
  {
    var waiters := s.semas[k.Sema()].waiters + [s.cpu.current];
    WaitLost(s.threads, s.semas, k.Sema(), s.cpu.current, WaitOn(s, k).threads[s.cpu.current], waiters);
    WaitOnInv(s, k);
    ScheduleLost(WaitOn(s, k));
  }

  lemma ExitLost(s: State)
    requires NoLost(s.threads, s.semas) && Inv(s) && s.Pc() == User && POOL in s.semas
    ensures NoLost(Exit(s).threads, Exit(s).semas)
  {
    if PoolBusy(s) {
      DropLost(s);
      DropRuns(s);
      BlockLost(DropFirst(s), ToReap);
    } else {
      DepartLost(s);
    }
  }

  /** A thread that waited inside thread_exit gives the pool lock back and dies. */
  lemma ReapLost(s: State)
    requires NoLost(s.threads, s.semas) && Inv(s) && s.Pc() == User
    ensures var r := Depart(Up(s, POOL)); NoLost(r.threads, r.semas)
  {
    UpLost(s, POOL);
    UpFull(s, POOL);
    UpThreads(s, POOL);
    assert PcsOf(Up(s, POOL).threads)[s.cpu.current] == User;
    DepartLost(Up(s, POOL));
  }

  /** Freeing dead threads moves no live one. */
  lemma {:induction false} FreeAllPc(s: State, t: Tid)
    requires OnlyRuns(s.threads, t) && Placed(s)
    ensures t in FreeAll(s).threads && FreeAll(s).threads[t].pc == s.threads[t].pc
    decreases |s.doomed|
  {
    if s.doomed != [] {
      FreeFirstInv(s);
      FreeFirstRuns(s, t);
      FreeAllPc(FreeFirst(s), t);
    }
  }

  // ------------------------------------------------------------------- alarms

  lemma WakeFirstLost(s: State)
    requires NoLost(s.threads, s.semas) && Inv(s)
    ensures NoLost(WakeFirst(s).threads, s.semas)
  {
    if s.clock.sleeping != [] {
      var t := s.clock.sleeping[0];
      assert IsAsleep(s.threads, t);
      KeepLost(s.threads, s.semas, t, s.threads[t].(status := Ready));
    }
  }

  lemma {:induction false} WakeDueLost(s: State)
    requires NoLost(s.threads, s.semas) && Inv(s)
    ensures NoLost(WakeDue(s).threads, WakeDue(s).semas)
    decreases |s.clock.sleeping|
  {
    if s.clock.sleeping != [] && s.clock.ticks >= s.clock.earliest {
      WakeFirstInv(s);
      WakeFirstLost(s);
      WakeDueLost(WakeFirst(s));
    }
  }

  lemma CountLost(s: State)
    requires NoLost(s.threads, s.semas) && Inv(s)
    ensures NoLost(Count(s).threads, Count(s).semas)
  {
    var s1 := s.(clock := s.clock.(ticks := s.clock.ticks + 1), cpu := s.cpu.(sliceTicks := s.cpu.sliceTicks + 1));
    assert Inv(s1);
    WakeDueLost(s1);
  }

  lemma TickLost(s: State)
    requires NoLost(s.threads, s.semas) && Inv(s) && (SliceEnds(s) ==> !PoolBusy(s))
    ensures NoLost(Tick(s).threads, Tick(s).semas)
  {
    CountLost(s);
    CountInv(s);
    CountBusy(s);
    if SliceEnds(s) { YieldLost(Count(s)); }
  }

  // -------------------------------------------------------------------- steps

  /** The running thread, not inside sema_down, moves on. */
  lemma SetPcLost(s: State, pc: Pc)
    requires NoLost(s.threads, s.semas) && s.cpu.current in s.threads && !Waited(s.Pc()) && !Waited(pc)
    ensures NoLost(SetPc(s, pc).threads, s.semas)
  {
    KeepLost(s.threads, s.semas, s.cpu.current, SetPc(s, pc).threads[s.cpu.current]);
  }

  lemma ThroughLost(s: State, k: Kont)
    requires NoLost(s.threads, s.semas) && Inv(s) && k.Sema() in s.semas && SemaOf(s, k.Sema()).value > 0
    requires Waited(s.Pc()) ==> s.Pc().k == k
    ensures NoLost(Through(s, k).threads, Through(s, k).semas)
  {
    if Waited(s.Pc()) {
      LeaveLost(s.threads, s.semas, k.Sema(), s.cpu.current, Through(s, k).threads[s.cpu.current]);
    } else {
      TakeLost(s, k.Sema());
      SetPcLost(Take(s, k.Sema()), Completed(k));
    }
  }

  lemma TestLost(s: State, k: Kont)
    requires NoLost(s.threads, s.semas) && Inv(s) && s.Pc().Down? && s.Pc().k == k && k.Sema() in s.semas
             && s.cpu.idle != Some(s.cpu.current)
    ensures NoLost(TestValue(s, k).threads, TestValue(s, k).semas)
  {
    if s.semas[k.Sema()].value == 0 {
      BlockLost(s, k);
    } else {
      ThroughLost(s, k);
      if k.ToReap? {
        ThroughPlaced(s, k);
        ReapLost(Through(s, k));
      }
    }
  }

  /** A step that ends in an up. */
  lemma UpStepLost(s: State, pc: Pc, m: Monitor, id: SemaId)
    requires NoLost(s.threads, s.semas) && Inv(s) && !Waited(s.Pc()) && !Waited(pc)
    requires Live(pc) && (IdlePc(pc) <==> s.cpu.idle == Some(s.cpu.current)) && (pc.Down? ==> pc.k.Sema() in s.semas)
    ensures var r := Up(SetPc(s, pc).(mon := m), id); NoLost(r.threads, r.semas)
  {
    SetPcLost(s, pc);
    SetPcInv(s, pc);
    UpLost(SetPc(s, pc).(mon := m), id);
  }

  lemma IdleLost(s: State)
    requires NoLost(s.threads, s.semas) && Inv(s) && s.Pc() == IdleLoop
    ensures NoLost(Advance(s).threads, Advance(s).semas)
  {
    var s1 := SetThread(s, s.cpu.current, Blocked, IdleWait);
    KeepLost(s.threads, s.semas, s.cpu.current, s1.threads[s.cpu.current]);
    IdleBlocks(s);
    ScheduleLost(s1);
  }

  lemma HatchLost(s: State, child: Tid)
    requires NoLost(s.threads, s.semas) && s.cpu.current in s.threads && s.Pc() == Unblock(child)
    requires child in s.threads && s.threads[child].pc.Embryo?
    ensures NoLost(Advance(s).threads, Advance(s).semas)
  {
    SetPcLost(s, User);
    KeepLost(SetPc(s, User).threads, s.semas, child, Advance(s).threads[child]);
  }

  lemma AdvanceLost(s: State)
    requires NoLost(s.threads, s.semas) && Inv(s) && Ways(s)
    ensures NoLost(Advance(s).threads, Advance(s).semas)
  {
    match s.Pc() {
      case Down(k, _) => TestLost(s, k);
      case SetHolder(l, ctx) => SetPcLost(s, Acquired(l, ctx));
      case ClearHolder(l, ctx) => SetPcLost(s, UpLock(l, ctx));
      case UpLock(l, ctx) => UpStepLost(s, Released(l, ctx), s.mon.(owner := s.mon.owner[l := None]), OfLock(l));
      case UpWaiter(c, w, more) => UpStepLost(s, if more then Broadcast(c) else User, s.mon, OfWaiter(w));
      case Broadcast(c) => SignalLost(s, c, true);
      case Unblock(child) => HatchLost(s, child);
      case Asleep => SetPcLost(s, User);
      case IdleStart(n) => UpStepLost(s, IdleLoop, s.mon, Plain(n));
      case IdleLoop => IdleLost(s);
      case IdleWait => SetPcLost(s, IdleLoop);
      case User =>
    }
  }

  lemma SignalLost(s: State, c: CondId, more: bool)
    requires NoLost(s.threads, s.semas) && s.cpu.current in s.threads && !Waited(s.Pc())
    ensures NoLost(Signal(s, c, more).threads, s.semas)
  {
    SetPcLost(s, Signal(s, c, more).Pc());
  }

  lemma DozeLost(s: State, alarm: int)
    requires NoLost(s.threads, s.semas) && Inv(s) && s.Pc() == User
    ensures NoLost(Schedule(Doze(s, alarm)).threads, s.semas)
  {
    KeepLost(s.threads, s.semas, s.cpu.current, Doze(s, alarm).threads[s.cpu.current]);
    DozeInv(s, alarm);
    ScheduleLost(Doze(s, alarm));
  }

  lemma CreateLost(s: State, child: Tid)
    requires NoLost(s.threads, s.semas) && s.cpu.current in s.threads && !Waited(s.Pc()) && child !in s.threads
    ensures NoLost(Do(s, CallCreate(child)).threads, s.semas)
  {
    KeepLost(s.threads, s.semas, child, Conceive(s, child).threads[child]);
    SetPcLost(Conceive(s, child), Down(ToHolder(TID_LOCK, ByCreate(child)), false));
  }

  lemma EnlistLost(s: State, c: CondId)
    requires NoLost(s.threads, s.semas) && s.cpu.current in s.threads && !Waited(s.Pc())
    ensures NoLost(Enlist(s, c).threads, Enlist(s, c).semas)
  {
    var w := OfWaiter(s.mon.nextWaiter);
    SetPcLost(s, ClearHolder(CondOf(s, c).lock, ByWait(c, s.mon.nextWaiter)));
    forall id | id in Enlist(s, c).semas && id != w
      ensures Covered(Enlist(s, c).threads, id, Enlist(s, c).semas[id])
    {
      assert Covered(SetPc(s, ClearHolder(CondOf(s, c).lock, ByWait(c, s.mon.nextWaiter))).threads, id, s.semas[id]);
    }
  }

  lemma CallLost(s: State, step: Step)
    requires NoLost(s.threads, s.semas) && Inv(s) && Allowed(s, step) && s.Pc() == User && !step.Timer?
             && !step.Proceed?
    requires POOL in s.semas && (step.CallTryAcquire? ==> OfLock(step.l) in s.semas)
    ensures NoLost(Do(s, step).threads, Do(s, step).semas)
  {
    match step {
      case CallTryDown(n) => TakeLost(s, Plain(n));
      case CallUp(n) => UpLost(s, Plain(n));
      case CallTryAcquire(l) => if SemaOf(s, OfLock(l)).value > 0 { ThroughLost(s, ToHolder(l, ByUser)); }
      case CallWait(c) => EnlistLost(s, c);
      case CallSignal(c) => SignalLost(s, c, false);
      case CallCreate(child) => CreateLost(s, child);
      case CallSleep(alarm) => DozeLost(s, alarm);
      case CallYield => YieldLost(s);
      case CallExit => ExitLost(s);
      case IntrUp(n) => UpLost(s, Plain(n));
      case IntrTryDown(n) => TakeLost(s, Plain(n));
      case _ => SetPcLost(s, Do(s, step).Pc());
    }
  }

  lemma StepLost(s: State, step: Step)
    requires NoLost(s.threads, s.semas) && Good(s) && Allowed(s, step)
    ensures NoLost(Do(s, step).threads, Do(s, step).semas)
  {
    WhereTo(s);
    match step {
      case Proceed => AdvanceLost(s);
      case Timer => TickLost(s);
      case IntrUp(n) => UpLost(s, Plain(n));
      case IntrTryDown(n) => TakeLost(s, Plain(n));
      case _ => CallLost(s, step);
    }
  }

  lemma {:induction false} RunLost(s: State, steps: seq<Step>)
    requires NoLost(s.threads, s.semas) && Good(s) && Run(s, steps).Some?
    ensures var r := Run(s, steps).value; NoLost(r.threads, r.semas)
    decreases |steps|
  {
    if steps != [] {
      StepGood(s, steps[0]);
      StepLost(s, steps[0]);
      RunLost(Do(s, steps[0]), steps[1..]);
    }
  }
}
