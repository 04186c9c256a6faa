/** The idle thread gets the processor only when no other thread is ready. */
module Idling {
  import opened Wrappers
  import opened Machine
  import opened Placement
  import opened Simulation
  import opened Reachable
  import Fairness

  /** The idle thread is never on the ready list, so next_thread_to_run returns it only
      when the list is empty. */
  lemma PicksIdle(s: State)
    requires Placed(s)
    ensures s.cpu.idle == Some(Schedule(s).cpu.current) ==> Schedule(s).cpu.ready == []
  {
    if s.cpu.ready != [] { assert IsReady(s.threads, s.cpu.idle, s.cpu.ready[0]); }
  }

  lemma YieldIdles(s: State)
    requires Inv(s) && !PoolBusy(s) && s.cpu.idle == Some(Yield(s).cpu.current)
    ensures Yield(s).cpu.ready == []
  {
    RequeueInv(s);
    FreeAllInv(Requeue(s), s.cpu.current);
    PicksIdle(FreeAll(Requeue(s)));
  }

  lemma TickIdles(s: State)
    requires Inv(s) && (SliceEnds(s) ==> !PoolBusy(s)) && s.cpu.idle != Some(s.cpu.current)
             && s.cpu.idle == Some(Tick(s).cpu.current)
    ensures Tick(s).cpu.ready == []
  {
    CountInv(s);
    CountDoomed(s);
    CountView(s);
    Fairness.CountKeeps(s);
    if SliceEnds(s) { YieldIdles(Count(s)); }
  }

  lemma DepartIdles(s: State)
    requires Inv(s) && s.cpu.idle != Some(s.cpu.current)
    ensures s.cpu.idle == Some(Depart(s).cpu.current) ==> Depart(s).cpu.ready == []
  {
    FreeAllInv(s, s.cpu.current);
    DieInv(FreeAll(s));
    PicksIdle(Die(FreeAll(s)));
  }

  lemma BlockIdles(s: State, k: Kont)
    requires Inv(s) && k.Sema() in s.semas && s.cpu.idle != Some(s.cpu.current)
    ensures var r := Schedule(WaitOn(s, k)); s.cpu.idle == Some(r.cpu.current) ==> r.cpu.ready == []
  {
    WaitOnInv(s, k);
    PicksIdle(WaitOn(s, k));
  }

  lemma TestIdles(s: State, k: Kont)
    requires Inv(s) && k.Sema() in s.semas && s.cpu.idle != Some(s.cpu.current)
             && s.cpu.idle == Some(TestValue(s, k).cpu.current)
    requires k.ToReacquire? ==> OfLock(k.l) in s.semas
    ensures TestValue(s, k).cpu.ready == []
  {
    if SemaOf(s, k.Sema()).value == 0 {
      BlockIdles(s, k);
    } else if k.ToReap? {
      ThroughPlaced(s, k);
      UpFull(Through(s, k), POOL);
      DepartIdles(Up(Through(s, k), POOL));
    }
  }

  lemma AdvanceIdles(s: State)
    requires Good(s) && s.cpu.idle != Some(s.cpu.current) && s.cpu.idle == Some(Advance(s).cpu.current)
    ensures Advance(s).cpu.ready == []
  {
    WhereTo(s);
    if s.Pc().Down? { TestIdles(s, s.Pc().k); }
  }

  /** No other step changes the running thread. */
  lemma StaysPut(s: State, step: Step)
    requires !step.CallSleep? && !step.CallYield? && !step.CallExit? && !step.Proceed? && !step.Timer?
    ensures Do(s, step).cpu.current == s.cpu.current
  {
  }

  lemma ExitIdles(s: State)
    requires Inv(s) && POOL in s.semas && s.cpu.idle != Some(s.cpu.current) && s.cpu.idle == Some(Exit(s).cpu.current)
    ensures Exit(s).cpu.ready == []
  {
    if PoolBusy(s) {
      DropRuns(s);
      BlockIdles(DropFirst(s), ToReap);
    } else {
      DepartIdles(s);
    }
  }

  /** A step that gives the processor to the idle thread leaves the ready list empty. */
  lemma StepIdles(s: State, step: Step)
    requires Good(s) && Allowed(s, step) && s.cpu.idle != Some(s.cpu.current)
             && s.cpu.idle == Some(Do(s, step).cpu.current)
    ensures Do(s, step).cpu.ready == []
  {
    match step {
      case CallSleep(alarm) => DozeInv(s, alarm); PicksIdle(Doze(s, alarm));
      case CallYield => YieldIdles(s);
      case CallExit => WhereTo(s); ExitIdles(s);
      case Proceed => AdvanceIdles(s);
      case Timer => TickIdles(s);
      case _ => StaysPut(s, step);
    }
  }

  /** Every run: the idle thread is picked only when nothing is ready. */
  lemma RunsIdleLast(s: State, steps: seq<Step>, step: Step)
    requires Init(s) && Run(s, steps).Some? && Allowed(Run(s, steps).value, step)
    ensures var r := Run(s, steps).value;
            r.cpu.idle != Some(r.cpu.current) && r.cpu.idle == Some(Do(r, step).cpu.current) ==>
                Do(r, step).cpu.ready == []
  {
    InitGood(s);
    RunGood(s, steps);
    var r := Run(s, steps).value;
    if r.cpu.idle != Some(r.cpu.current) && r.cpu.idle == Some(Do(r, step).cpu.current) { StepIdles(r, step); }
  }
}
