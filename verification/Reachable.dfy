/** What holds in every state a run can reach. */
module Reachable {
  import opened Wrappers
  import opened Machine
  import opened Monitors
  import opened Placement
  import opened Simulation

  ghost predicate Good(s: State) {
    Inv(s) && MonitorsOk(s)
  }

  // ------------------------------------------------------ one list per thread

  /** The semaphores and threads the running thread will need next exist. */
  predicate Ways(s: State) {
    && Runs(s) && OfLock(TID_LOCK) in s.semas && POOL in s.semas && OfWaiter(s.mon.nextWaiter) !in s.semas
    && match s.Pc()
       case Down(ToReacquire(_, _, l), _) => OfLock(l) in s.semas
       case UpLock(l, ByWait(_, w)) => OfWaiter(w) in s.semas
       case Unblock(child) => child in s.threads && s.threads[child].pc.Embryo?
       case _ => true
  }

  lemma WhereTo(s: State)
    requires Good(s)
    ensures Ways(s) && PcOk(View(s), s.cpu.current, s.Pc())
  {
    assert PcOk(View(s), s.cpu.current, PcsOf(s.threads)[s.cpu.current]);
    assert s.mon.nextWaiter in s.mon.calls ==> CallOk(View(s), s.mon.nextWaiter);
  }

  lemma ThroughPlaced(s: State, k: Kont)
    requires Inv(s) && s.cpu.idle != Some(s.cpu.current) && (k.ToReacquire? ==> OfLock(k.l) in s.semas)
    ensures Inv(Through(s, k))
  {
    var s1 := Take(s, k.Sema());
    TakeInv(s, k.Sema());
    SetPcInv(s1, Completed(k));
  }

  lemma TestPlaced(s: State, k: Kont)
    requires Inv(s) && Ways(s) && s.Pc().Down? && s.Pc().k == k && (Blocks(s) ==> CanSchedule(s))
    ensures Inv(TestValue(s, k))
  {
    if SemaOf(s, k.Sema()).value == 0 {
      WaitOnInv(s, k);
      ScheduleInv(WaitOn(s, k));
    } else {
      ThroughPlaced(s, k);
      if k.ToReap? { ReapPlaced(Through(s, k)); }
    }
  }

  /** A thread that waited inside thread_exit gives the pool lock back and dies. */
  lemma ReapPlaced(s: State)
    requires Inv(s) && s.cpu.idle != Some(s.cpu.current) && CanSchedule(s)
    ensures Inv(Depart(Up(s, POOL)))
  {
    UpFull(s, POOL);
    DepartInv(Up(s, POOL));
  }

  lemma IdleBlocks(s: State)
    requires Inv(s) && s.Pc() == IdleLoop
    ensures var s1 := SetThread(s, s.cpu.current, Blocked, IdleWait); Placed(s1) && NoneRuns(s1.threads)
  {
    var x := s.threads[s.cpu.current].(status := Blocked, pc := IdleWait);
    KeepReady(s.threads, s.cpu.current, x, s.cpu.idle, s.cpu.ready);
    KeepSleep(s.threads, s.cpu.current, x, s.clock.sleeping);
    KeepDoomed(s.threads, s.cpu.current, x, s.cpu.initial, s.doomed);
    KeepWaits(s.threads, s.cpu.current, x, s.semas);
  }

  lemma IdlePlaced(s: State)
    requires Inv(s) && s.Pc() == IdleLoop && CanSchedule(s)
    ensures Inv(Advance(s))
  {
    IdleBlocks(s);
    ScheduleInv(SetThread(s, s.cpu.current, Blocked, IdleWait));
  }

  /** A step that ends in an up. */
  lemma UpPlaced(s: State, pc: Pc, m: Monitor, id: SemaId)
    requires Inv(s) && Live(pc) && (IdlePc(pc) <==> s.cpu.idle == Some(s.cpu.current))
             && (pc.Down? ==> pc.k.Sema() in s.semas)
    ensures Inv(Up(SetPc(s, pc).(mon := m), id))
  {
    SetPcInv(s, pc);
    UpFull(SetPc(s, pc).(mon := m), id);
  }

  lemma HatchPlaced(s: State, child: Tid)
    requires Inv(s) && Ways(s) && s.Pc() == Unblock(child)
    ensures Inv(Advance(s))
  {
    SetPcInv(s, User);
    HatchInv(SetPc(s, User), child);
  }

  lemma AdvancePlaced(s: State)
    requires Inv(s) && Ways(s) && s.Pc() != User && (Blocks(s) ==> CanSchedule(s))
    ensures Inv(Advance(s))
  {
    match s.Pc() {
      case Down(k, _) => TestPlaced(s, k);
      case SetHolder(l, ctx) => SetPcInv(s, Acquired(l, ctx));
      case ClearHolder(l, ctx) => SetPcInv(s, UpLock(l, ctx));
      case UpLock(l, ctx) => UpPlaced(s, Released(l, ctx), s.mon.(owner := s.mon.owner[l := None]), OfLock(l));
      case UpWaiter(c, w, more) => UpPlaced(s, if more then Broadcast(c) else User, s.mon, OfWaiter(w));
      case Broadcast(c) => SignalInv(s, c, true);
      case Unblock(child) => HatchPlaced(s, child);
      case Asleep => SetPcInv(s, User);
      case IdleStart(n) => UpPlaced(s, IdleLoop, s.mon, Plain(n));
      case IdleLoop => IdlePlaced(s);
      case IdleWait => SetPcInv(s, IdleLoop);
    }
  }

  lemma BecomeIdlePlaced(s: State, n: nat)
    requires Inv(s) && s.Pc() == User && s.cpu.idle == None
    ensures Inv(Do(s, BecomeIdle(n)))
  {
  }

  lemma TimerPlaced(s: State)
    requires Inv(s) && (SliceEnds(s) ==> !PoolBusy(s))
    ensures Inv(Tick(s))
  {
    CountInv(s);
    CountDoomed(s);
    CountView(s);
    if SliceEnds(s) { YieldInv(Count(s)); }
  }

  /** A call the running thread makes. */
  lemma CallPlaced(s: State, step: Step)
    requires Inv(s) && Ways(s) && Allowed(s, step) && s.Pc() == User && !step.Timer? && !step.Proceed?
    requires step.CallAcquire? ==> OfLock(step.l) in s.semas
    ensures Inv(Do(s, step))
  {
    match step {
      case CallDown(n) => SetPcInv(s, Down(ToUser(n), false));
      case CallTryDown(n) => TakeInv(s, Plain(n));
      case CallUp(n) => UpFull(s, Plain(n));
      case CallAcquire(l) => SetPcInv(s, Down(ToHolder(l, ByUser), false));
      case CallTryAcquire(l) => ThroughPlaced(s, ToHolder(l, ByUser));
      case CallRelease(l) => SetPcInv(s, ClearHolder(l, ByUser));
      case CallWait(c) => EnlistInv(s, c);
      case CallSignal(c) => SignalInv(s, c, false);
      case CallBroadcast(c) => SetPcInv(s, Broadcast(c));
      case CallCreate(child) => ConceiveInv(s, child);
        SetPcInv(Conceive(s, child), Down(ToHolder(TID_LOCK, ByCreate(child)), false));
      case CallSleep(alarm) => DozeInv(s, alarm); ScheduleInv(Doze(s, alarm));
      case CallYield => YieldInv(s);
      case CallExit => ExitInv(s);
      case BecomeIdle(n) => BecomeIdlePlaced(s, n);
      case IntrUp(n) => UpFull(s, Plain(n));
      case IntrTryDown(n) => TakeInv(s, Plain(n));
    }
  }

  lemma StepPlaced(s: State, step: Step)
    requires Good(s) && Allowed(s, step)
    ensures Inv(Do(s, step))
  {
    WhereTo(s);
    match step {
      case Proceed => AdvancePlaced(s);
      case Timer => TimerPlaced(s);
      case IntrUp(n) => UpFull(s, Plain(n));
      case IntrTryDown(n) => TakeInv(s, Plain(n));
      case _ => CallPlaced(s, step);
    }
  }

  // ---------------------------------------------------------------- monitors

  lemma DozeOk(s: State, alarm: int)
    requires MonitorsOk(s) && Runs(s) && s.Pc() == User
    ensures MonitorsOk(Schedule(Doze(s, alarm)))
  {
    var t, s1 := s.cpu.current, Doze(s, alarm);
    PcView(s.threads, t, s1.threads[t]);
    Move(PcsOf(s.threads), View(s), t, Asleep);
    ScheduleView(s1);
    SameOk(s1, Schedule(s1));
  }

  lemma IdleOk(s: State)
    requires MonitorsOk(s) && Runs(s) && s.Pc() == IdleLoop
    ensures MonitorsOk(Advance(s))
  {
    var t, s1 := s.cpu.current, SetThread(s, s.cpu.current, Blocked, IdleWait);
    PcView(s.threads, t, s1.threads[t]);
    Move(PcsOf(s.threads), View(s), t, IdleWait);
    ScheduleView(s1);
    SameOk(s1, Schedule(s1));
  }

  lemma ToUserOk(s: State, n: nat)
    requires MonitorsOk(s) && Runs(s) && s.Pc().Down? && Plain(n) in s.semas
    ensures MonitorsOk(Through(s, ToUser(n)))
  {
    TakePlain(s, n);
    MoveOk(Take(s, Plain(n)), User);
  }

  /** One test of the value. */
  lemma TestOk(s: State, k: Kont)
    requires MonitorsOk(s) && Inv(s) && Runs(s) && s.Pc().Down? && s.Pc().k == k && k.Sema() in s.semas
    requires PcOk(View(s), s.cpu.current, s.Pc())
    ensures MonitorsOk(TestValue(s, k))
  {
    if SemaOf(s, k.Sema()).value == 0 {
      WaitOnOk(s, k);
    } else {
      match k {
        case ToUser(n) => ToUserOk(s, n);
        case ToHolder(l, ctx) => EnterOk(s, l, ctx);
        case ToReacquire(c, w, l) => ReacquireOk(s, c, w, l);
        case ToReap => ReapOk(s);
      }
    }
  }

  lemma AdvanceOk(s: State)
    requires MonitorsOk(s) && Inv(s) && Runs(s) && PcOk(View(s), s.cpu.current, s.Pc())
    requires s.Pc().Down? ==> s.Pc().k.Sema() in s.semas
    ensures MonitorsOk(Advance(s))
  {
    match s.Pc() {
      case Down(k, _) => TestOk(s, k);
      case SetHolder(l, ctx) => HoldOk(s, l, ctx);
      case ClearHolder(l, ctx) => ClearOk(s, l, ctx);
      case UpLock(l, ctx) => ReleaseOk(s, l, ctx);
      case UpWaiter(c, w, more) => WakeWaiterOk(s, c, w, more);
      case Broadcast(c) => SignalOk(s, c, true);
      case Unblock(child) => HatchOk(s, child);
      case Asleep => MoveOk(s, User);
      case IdleStart(n) => MoveOk(s, IdleLoop); if Plain(n) in s.semas { UpPlain(SetPc(s, IdleLoop), n); }
      case IdleLoop => IdleOk(s);
      case IdleWait => MoveOk(s, IdleLoop);
      case User =>
    }
  }

  lemma CallMonitors(s: State, step: Step)
    requires MonitorsOk(s) && Runs(s) && Allowed(s, step) && s.Pc() == User
    requires !step.Timer? && !step.Proceed? && !step.CallYield? && !step.CallExit?
    ensures MonitorsOk(Do(s, step))
  {
    match step {
      case CallDown(n) => MoveOk(s, Down(ToUser(n), false));
      case CallTryDown(n) => TakePlain(s, n);
      case CallUp(n) => UpPlain(s, n);
      case CallAcquire(l) => MoveOk(s, Down(ToHolder(l, ByUser), false));
      case CallTryAcquire(l) => if SemaOf(s, OfLock(l)).value > 0 { EnterOk(s, l, ByUser); }
      case CallRelease(l) => MoveOk(s, ClearHolder(l, ByUser));
      case CallWait(c) => EnlistOk(s, c);
      case CallSignal(c) => SignalOk(s, c, false);
      case CallBroadcast(c) => MoveOk(s, Broadcast(c));
      case CallCreate(child) => ConceiveOk(s, child);
      case CallSleep(alarm) => DozeOk(s, alarm);
      case BecomeIdle(n) => MoveOk(s, IdleStart(n));
      case IntrUp(n) => UpPlain(s, n);
      case IntrTryDown(n) => TakePlain(s, n);
    }
  }

  lemma StepMonitors(s: State, step: Step)
    requires Good(s) && Allowed(s, step)
    ensures MonitorsOk(Do(s, step))
  {
    WhereTo(s);
    match step {
      case Proceed => AdvanceOk(s);
      case Timer => TickOk(s);
      case CallYield => YieldOk(s);
      case CallExit => ExitOk(s);
      case IntrUp(n) => UpPlain(s, n);
      case IntrTryDown(n) => TakePlain(s, n);
      case _ => CallMonitors(s, step);
    }
  }

  // -------------------------------------------------------------------- runs

  lemma InitShared(s: State)
    requires Init(s)
    ensures SharedOk(View(s))
  {
    assert forall l :: l in s.mon.holder ==> View(s).free[l] == 1;
  }

  lemma InitMonitors(s: State)
    requires Init(s)
    ensures MonitorsOk(s)
  {
    assert PcsOf(s.threads) == map[s.cpu.initial := User];
    InitShared(s);
  }

  lemma InitPlaced(s: State)
    requires Init(s)
    ensures Inv(s)
  {
  }

  lemma InitGood(s: State)
    requires Init(s)
    ensures Good(s)
  {
    InitMonitors(s);
    InitPlaced(s);
  }

  lemma StepGood(s: State, step: Step)
    requires Good(s) && Allowed(s, step)
    ensures Good(Do(s, step))
  {
    StepPlaced(s, step);
    StepMonitors(s, step);
  }

  lemma {:induction false} RunGood(s: State, steps: seq<Step>)
    requires Good(s) && Run(s, steps).Some?
    ensures Good(Run(s, steps).value)
    decreases |steps|
  {
    if steps != [] {
      StepGood(s, steps[0]);
      RunGood(Do(s, steps[0]), steps[1..]);
    }
  }
}
