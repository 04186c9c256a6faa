/** The alarm queue: sleepers are kept in the order of their alarms, each tick
    makes ready exactly those whose alarm has come, and nobody wakes early.  The
    queue may be empty when thread_wakeup reads the next alarm: it then reads the
    tail element as if it were inside a thread, so everything here is about ticks
    and alarms below that value. */
module Alarms {
  import opened Wrappers
  import opened Machine
  import opened Monitors
  import opened Placement
  import opened Simulation
  import opened Reachable

  /** Earlier alarm first; of equal alarms the one set last. */
  predicate Before(x: Thread, y: Thread) {
    x.alarm < y.alarm || (x.alarm == y.alarm && x.stamp > y.stamp)
  }

  predicate Sleeper(th: Table, clock: Clock, t: Tid) {
    t in th && th[t].alarm < clock.tailAlarm && th[t].stamp < clock.nextStamp
  }

  predicate NotEarly(x: Thread, ticks: int) {
    x.pc.Asleep? && x.status != Blocked ==> x.alarm <= ticks
  }

  ghost predicate InOrder(th: Table, list: seq<Tid>) {
    && (forall i :: 0 <= i < |list| ==> list[i] in th)
    && (forall i, j :: 0 <= i < j < |list| ==> Before(th[list[i]], th[list[j]]))
  }

  /** The cached wake-up tick is the front's, or out of reach. */
  predicate EarliestOk(th: Table, clock: Clock) {
    if clock.sleeping == [] then clock.earliest >= clock.tailAlarm
    else clock.sleeping[0] in th && clock.earliest == th[clock.sleeping[0]].alarm
  }

  ghost predicate AlarmsNow(th: Table, clock: Clock) {
    && InOrder(th, clock.sleeping) && EarliestOk(th, clock)
    && (forall t :: t in clock.sleeping ==> Sleeper(th, clock, t))
    && (forall t :: t in th ==> NotEarly(th[t], clock.ticks))
  }

  /** `AlarmsNow`, for proofs that only hand it on. */
  ghost predicate AlarmsOk(th: Table, clock: Clock) {
    && clock.ticks < clock.tailAlarm <= INT64_MAX
    && forall z: nat {:trigger Look(OfAlarms, z)} :: Look(OfAlarms, z) ==> AlarmsNow(th, clock)
  }

  // -------------------------------------------------------- changing one thread

  lemma KeepAlarms(th: Table, clock: Clock, t: Tid, x: Thread)
    requires AlarmsOk(th, clock) && NotEarly(x, clock.ticks)
    requires t in clock.sleeping ==> t in th && x.alarm == th[t].alarm && x.stamp == th[t].stamp
    ensures AlarmsOk(th[t := x], clock)
  {
    assert Look(OfAlarms, 0);
  }

  lemma DropAlarms(th: Table, clock: Clock, t: Tid)
    requires AlarmsOk(th, clock) && t !in clock.sleeping
    ensures AlarmsOk(th - {t}, clock)
  {
    assert Look(OfAlarms, 0);
  }

  // ------------------------------------------------------------------- waking

  /** How many sleepers at the front of the queue are due. */
  function Due(th: Table, list: seq<Tid>, tick: int): (k: nat)
    ensures k <= |list|
  {
    if list != [] && list[0] in th && th[list[0]].alarm <= tick then 1 + Due(th, list[1..], tick) else 0
  }

  /** They are exactly the sleepers whose alarm has come. */
  lemma {:induction false} DueExactly(th: Table, list: seq<Tid>, tick: int)
    requires InOrder(th, list)
    ensures forall i :: 0 <= i < |list| ==> (i < Due(th, list, tick) <==> th[list[i]].alarm <= tick)
  {
    if list != [] && th[list[0]].alarm <= tick {
      assert InOrder(th, list[1..]);
      DueExactly(th, list[1..], tick);
      forall i | 0 <= i < |list|
        ensures i < Due(th, list, tick) <==> th[list[i]].alarm <= tick
      {
        if i > 0 { assert list[i] == list[1..][i - 1]; }
      }
    }
  }

  /** A tick that reaches the cached alarm has somebody to wake. */
  lemma SomeoneDue(th: Table, clock: Clock)
    requires AlarmsOk(th, clock) && clock.earliest <= clock.ticks
    ensures clock.sleeping != []
  {
    assert Look(OfAlarms, 0);
  }

  /** One round of thread_wakeup. */
  lemma WakeFirstAlarms(s: State)
    requires AlarmsOk(s.threads, s.clock) && s.clock.sleeping != [] && s.clock.earliest <= s.clock.ticks
    ensures AlarmsOk(WakeFirst(s).threads, WakeFirst(s).clock)
  {
    assert Look(OfAlarms, 0);
    var t, rest := s.clock.sleeping[0], s.clock.sleeping[1..];
    assert Sleeper(s.threads, s.clock, t);
    KeepAlarms(s.threads, s.clock, t, s.threads[t].(status := Ready));
    forall u | u in rest
      ensures Sleeper(WakeFirst(s).threads, WakeFirst(s).clock, u)
    {
      assert Sleeper(s.threads, s.clock, u);
    }
    if rest != [] { assert Sleeper(s.threads, s.clock, rest[0]); }
  }

  lemma {:induction false} DueSame(th: Table, th': Table, list: seq<Tid>, tick: int)
    requires forall t :: t in list ==> (t in th <==> t in th') && (t in th ==> th'[t].alarm == th[t].alarm)
    ensures Due(th', list, tick) == Due(th, list, tick)
  {
    if list != [] && list[0] in th && th[list[0]].alarm <= tick { DueSame(th, th', list[1..], tick); }
  }

  lemma FirstDue(list: seq<Tid>, ready: seq<Tid>, k: nat)
    requires 0 < k <= |list|
    ensures list[1..][k - 1..] == list[k..]
    ensures (ready + [list[0]]) + list[1..][..k - 1] == ready + list[..k]
  {
    assert list[..k] == [list[0]] + list[1..][..k - 1];
  }

  /** What thread_wakeup leaves behind: the due sleepers are ready, in the order of
      their alarms, and the loop ends before it runs off the queue. */
  predicate WokeDue(s: State, r: State, k: nat)
    requires k <= |s.clock.sleeping|
  {
    && r.clock.sleeping == s.clock.sleeping[k..]
    && r.cpu.ready == s.cpu.ready + s.clock.sleeping[..k]
    && r.clock.ticks == s.clock.ticks < r.clock.earliest
  }

  lemma {:induction false} WakeDueExactly(s: State)
    requires AlarmsOk(s.threads, s.clock)
    ensures AlarmsOk(WakeDue(s).threads, WakeDue(s).clock)
    ensures WokeDue(s, WakeDue(s), Due(s.threads, s.clock.sleeping, s.clock.ticks))
    decreases |s.clock.sleeping|
  {
    assert Look(OfAlarms, 0);
    var list, tick := s.clock.sleeping, s.clock.ticks;
    if list != [] && tick >= s.clock.earliest {
      var s1 := WakeFirst(s);
      WakeFirstAlarms(s);
      WakeDueExactly(s1);
      DueSame(s.threads, s1.threads, list[1..], tick);
      FirstDue(list, s.cpu.ready, Due(s.threads, list, tick));
    } else {
      assert list[0..] == list && list[..0] == [];
    }
  }

  lemma TickLater(th: Table, clock: Clock)
    requires AlarmsOk(th, clock) && clock.ticks + 1 < clock.tailAlarm
    ensures AlarmsOk(th, clock.(ticks := clock.ticks + 1))
  {
    assert Look(OfAlarms, 0);
    forall t | t in clock.sleeping
      ensures Sleeper(th, clock.(ticks := clock.ticks + 1), t)
    {
      assert Sleeper(th, clock, t);
    }
  }

  /** Each tick makes ready exactly the sleepers whose alarm has come. */
  lemma CountWakes(s: State)
    requires AlarmsOk(s.threads, s.clock) && s.clock.ticks + 1 < s.clock.tailAlarm
    ensures var r, k := Count(s), Due(s.threads, s.clock.sleeping, s.clock.ticks + 1);
            && AlarmsOk(r.threads, r.clock)
            && r.clock.sleeping == s.clock.sleeping[k..] && r.cpu.ready == s.cpu.ready + s.clock.sleeping[..k]
            && r.clock.ticks == s.clock.ticks + 1 < r.clock.earliest
    ensures forall i :: 0 <= i < |s.clock.sleeping| ==>
              s.clock.sleeping[i] in s.threads &&
              (i < Due(s.threads, s.clock.sleeping, s.clock.ticks + 1) <==>
                 s.threads[s.clock.sleeping[i]].alarm <= s.clock.ticks + 1)
  {
    assert Look(OfAlarms, 0);
    var s1 := s.(clock := s.clock.(ticks := s.clock.ticks + 1), cpu := s.cpu.(sliceTicks := s.cpu.sliceTicks + 1));
    TickLater(s.threads, s.clock);
    WakeDueExactly(s1);
    DueExactly(s.threads, s.clock.sleeping, s.clock.ticks + 1);
  }

  // ----------------------------------------------------------------- sleeping

  /** list_insert_ordered stops at the first sleeper not before the new alarm. */
  lemma {:induction false} PassedEarlier(s: State, list: seq<Tid>, alarm: int)
    requires InOrder(s.threads, list)
    ensures var k := Passed(s, list, alarm);
            && (forall i :: 0 <= i < k ==> s.threads[list[i]].alarm < alarm)
            && (forall i :: k <= i < |list| ==> alarm <= s.threads[list[i]].alarm)
  {
    if list != [] && alarm > AlarmOf(s, list[0]) {
      assert InOrder(s.threads, list[1..]);
      PassedEarlier(s, list[1..], alarm);
      forall i | 0 < i < |list|
        ensures list[i] == list[1..][i - 1]
      {
      }
    }
  }

  /** Inserting a sleeper with the newest stamp behind the earlier alarms. */
  lemma InsertInOrder(th: Table, list: seq<Tid>, t: Tid, x: Thread, k: nat, list': seq<Tid>)
    requires InOrder(th, list) && t !in list && k <= |list| && list' == list[..k] + [t] + list[k..]
    requires forall i :: 0 <= i < k ==> th[list[i]].alarm < x.alarm
    requires forall i :: k <= i < |list| ==> x.alarm <= th[list[i]].alarm
    requires forall i :: 0 <= i < |list| ==> th[list[i]].stamp < x.stamp
    ensures InOrder(th[t := x], list')
  {
  }

  lemma DozeAlarms(s: State, alarm: int)
    requires AlarmsOk(s.threads, s.clock) && s.cpu.current in s.threads && s.cpu.current !in s.clock.sleeping
             && alarm < s.clock.tailAlarm
    ensures AlarmsOk(Doze(s, alarm).threads, Doze(s, alarm).clock)
  {
    assert Look(OfAlarms, 0);
    var t, list, x := s.cpu.current, s.clock.sleeping, Thread(Blocked, Asleep, alarm, s.clock.nextStamp);
    var k, clock := Passed(s, list, alarm), Doze(s, alarm).clock;
    PassedEarlier(s, list, alarm);
    assert forall i :: 0 <= i < |list| ==> Sleeper(s.threads, s.clock, list[i]);
    InsertInOrder(s.threads, list, t, x, k, clock.sleeping);
    forall u | u in clock.sleeping
      ensures Sleeper(Doze(s, alarm).threads, clock, u)
    {
      assert u == t || Sleeper(s.threads, s.clock, u);
    }
  }

  /** thread_wakeup runs off the empty queue exactly when everybody is due and the
      tick has reached the value read through the tail. */
  lemma {:induction false} RunsOffExactly(s: State)
    requires InOrder(s.threads, s.clock.sleeping) && s.clock.sleeping != [] && EarliestOk(s.threads, s.clock)
    ensures WakeDue(s).clock.ticks >= WakeDue(s).clock.earliest <==>
              s.clock.ticks >= s.clock.tailAlarm
                && Due(s.threads, s.clock.sleeping, s.clock.ticks) == |s.clock.sleeping|
    decreases |s.clock.sleeping|
  {
    var list, s1 := s.clock.sleeping, WakeFirst(s);
    if s.clock.ticks >= s.clock.earliest {
      if list[1..] == [] {
        assert Due(s.threads, list[1..], s.clock.ticks) == 0;
      } else {
        assert InOrder(s1.threads, list[1..]);
        RunsOffExactly(s1);
        DueSame(s.threads, s1.threads, list[1..], s.clock.ticks);
      }
    }
  }

  // ---------------------------------------------------------- the other steps

  /** The thread does not come out of thread_sleep, and keeps its alarm. */
  lemma MoveAlarms(th: Table, clock: Clock, t: Tid, status: Status, pc: Pc)
    requires AlarmsOk(th, clock) && t in th
             && (pc.Asleep? ==> pc == th[t].pc && (status == Blocked || th[t].status != Blocked))
    ensures AlarmsOk(th[t := th[t].(status := status, pc := pc)], clock)
  {
    assert Look(OfAlarms, 0);
    KeepAlarms(th, clock, t, th[t].(status := status, pc := pc));
  }

  lemma ScheduleAlarms(s: State)
    requires AlarmsOk(s.threads, s.clock) && Placed(s)
    ensures AlarmsOk(Schedule(s).threads, s.clock)
  {
    if CanSchedule(s) {
      var t := Schedule(s).cpu.current;
      if s.cpu.ready != [] { assert IsReady(s.threads, s.cpu.idle, t); }
      if t in s.threads { MoveAlarms(s.threads, s.clock, t, Running, s.threads[t].pc); }
    }
  }

  lemma UpAlarms(s: State, id: SemaId)
    requires AlarmsOk(s.threads, s.clock) && Placed(s)
    ensures AlarmsOk(Up(s, id).threads, s.clock)
  {
    if id in s.semas && s.semas[id].waiters != [] {
      var t := s.semas[id].waiters[0];
      assert WaitOk(s.threads, id, s.semas[id].waiters) && IsWaiting(s.threads, id, t);
      MoveAlarms(s.threads, s.clock, t, Ready, s.threads[t].pc);
    }
  }

  lemma {:induction false} FreeAllAlarms(s: State)
    requires AlarmsOk(s.threads, s.clock) && Placed(s)
    ensures AlarmsOk(FreeAll(s).threads, s.clock)
    decreases |s.doomed|
  {
    if s.doomed != [] {
      FreeFirstAlarms(s);
      FreeFirstInv(s);
      FreeAllAlarms(FreeFirst(s));
    }
  }

  lemma FreeFirstAlarms(s: State)
    requires AlarmsOk(s.threads, s.clock) && Placed(s) && s.doomed != []
    ensures AlarmsOk(FreeFirst(s).threads, s.clock)
  {
    var s1 := Up(Take(s, POOL), POOL);
    TakeInv(s, POOL);
    UpAlarms(Take(s, POOL), POOL);
    UpInv(Take(s, POOL), POOL);
    assert IsDoomed(s1.threads, s1.cpu.initial, s.doomed[0]) && !IsAsleep(s1.threads, s.doomed[0]);
    DropAlarms(s1.threads, s.clock, s.doomed[0]);
  }

  lemma RequeueAlarms(s: State)
    requires AlarmsOk(s.threads, s.clock) && Inv(s)
    ensures AlarmsOk(Requeue(s).threads, s.clock)
  {
    MoveAlarms(s.threads, s.clock, s.cpu.current, Ready, s.Pc());
  }

  lemma SwitchAlarms(s: State)
    requires AlarmsOk(s.threads, s.clock) && Placed(s)
    ensures AlarmsOk(Schedule(FreeAll(s)).threads, s.clock)
  {
    FreeAllAlarms(s);
    FreeAllInv(s, s.cpu.current);
    ScheduleAlarms(FreeAll(s));
  }

  lemma YieldAlarms(s: State)
    requires AlarmsOk(s.threads, s.clock) && Inv(s) && !PoolBusy(s)
    ensures AlarmsOk(Yield(s).threads, s.clock) && Yield(s).clock == s.clock
  {
    YieldClock(s);
    RequeueAlarms(s);
    RequeueInv(s);
    SwitchAlarms(Requeue(s));
  }

  lemma YieldClock(s: State)
    requires !PoolBusy(s)
    ensures Yield(s) == Schedule(FreeAll(Requeue(s))) && Requeue(s).clock == s.clock && Yield(s).clock == s.clock
  {
  }

  lemma DieAlarms(s: State)
    requires AlarmsOk(s.threads, s.clock) && Inv(s) && s.cpu.idle != Some(s.cpu.current)
    ensures AlarmsOk(Schedule(Die(s)).threads, s.clock)
  {
    MoveAlarms(s.threads, s.clock, s.cpu.current, Dying, Dead);
    DieInv(s);
    ScheduleAlarms(Die(s));
  }

  lemma DepartAlarms(s: State)
    requires AlarmsOk(s.threads, s.clock) && Inv(s) && s.cpu.idle != Some(s.cpu.current)
    ensures AlarmsOk(Depart(s).threads, s.clock) && Depart(s).clock == s.clock
  {
    FreeAllAlarms(s);
    FreeAllInv(s, s.cpu.current);
    DieAlarms(FreeAll(s));
  }

  lemma BlockAlarms(s: State, k: Kont)
    requires AlarmsOk(s.threads, s.clock) && Inv(s) && k.Sema() in s.semas && s.cpu.idle != Some(s.cpu.current)
    ensures AlarmsOk(Schedule(WaitOn(s, k)).threads, s.clock)
  {
    MoveAlarms(s.threads, s.clock, s.cpu.current, Blocked, Down(k, true));
    WaitOnInv(s, k);
    ScheduleAlarms(WaitOn(s, k));
  }

  lemma ExitAlarms(s: State)
    requires AlarmsOk(s.threads, s.clock) && Inv(s) && s.cpu.idle != Some(s.cpu.current) && POOL in s.semas
    ensures AlarmsOk(Exit(s).threads, s.clock) && Exit(s).clock == s.clock
  {
    if PoolBusy(s) {
      assert IsDoomed(s.threads, s.cpu.initial, s.doomed[0]) && !IsAsleep(s.threads, s.doomed[0]);
      DropAlarms(s.threads, s.clock, s.doomed[0]);
      DropRuns(s);
      BlockAlarms(DropFirst(s), ToReap);
    } else {
      DepartAlarms(s);
    }
  }

  /** A thread that waited inside thread_exit gives the pool lock back and dies. */
  lemma ReapAlarms(s: State)
    requires AlarmsOk(s.threads, s.clock) && Inv(s) && s.cpu.idle != Some(s.cpu.current)
    ensures AlarmsOk(Depart(Up(s, POOL)).threads, s.clock) && Depart(Up(s, POOL)).clock == s.clock
  {
    UpAlarms(s, POOL);
    UpFull(s, POOL);
    DepartAlarms(Up(s, POOL));
  }

  lemma TickAlarms(s: State)
    requires AlarmsOk(s.threads, s.clock) && Inv(s) && (SliceEnds(s) ==> !PoolBusy(s))
             && s.clock.ticks + 1 < s.clock.tailAlarm
    ensures AlarmsOk(Tick(s).threads, Tick(s).clock)
  {
    CountWakes(s);
    CountInv(s);
    CountDoomed(s);
    CountView(s);
    if SliceEnds(s) { YieldAlarms(Count(s)); }
  }

  lemma SetPcAlarms(s: State, pc: Pc)
    requires AlarmsOk(s.threads, s.clock) && s.cpu.current in s.threads && !pc.Asleep?
    ensures AlarmsOk(SetPc(s, pc).threads, s.clock)
  {
    MoveAlarms(s.threads, s.clock, s.cpu.current, Running, pc);
  }

  lemma TestAlarms(s: State, k: Kont)
    requires AlarmsOk(s.threads, s.clock) && Inv(s) && s.Pc().Down? && s.Pc().k == k && k.Sema() in s.semas
             && s.cpu.idle != Some(s.cpu.current)
    ensures AlarmsOk(TestValue(s, k).threads, s.clock) && TestValue(s, k).clock == s.clock
  {
    if s.semas[k.Sema()].value == 0 {
      BlockAlarms(s, k);
    } else {
      SetPcAlarms(s, Completed(k));
      if k.ToReap? {
        ThroughPlaced(s, k);
        ReapAlarms(Through(s, k));
      }
    }
  }

  /** A step that ends in an up. */
  lemma UpStepAlarms(s: State, pc: Pc, m: Monitor, id: SemaId)
    requires AlarmsOk(s.threads, s.clock) && Inv(s) && !pc.Asleep?
    requires Live(pc) && (IdlePc(pc) <==> s.cpu.idle == Some(s.cpu.current)) && (pc.Down? ==> pc.k.Sema() in s.semas)
    ensures AlarmsOk(Up(SetPc(s, pc).(mon := m), id).threads, s.clock)
  {
    SetPcAlarms(s, pc);
    SetPcInv(s, pc);
    UpAlarms(SetPc(s, pc).(mon := m), id);
  }

  lemma IdleAlarms(s: State)
    requires AlarmsOk(s.threads, s.clock) && Inv(s) && s.Pc() == IdleLoop
    ensures AlarmsOk(Advance(s).threads, s.clock) && Advance(s).clock == s.clock
  {
    MoveAlarms(s.threads, s.clock, s.cpu.current, Blocked, IdleWait);
    IdleBlocks(s);
    ScheduleAlarms(SetThread(s, s.cpu.current, Blocked, IdleWait));
  }

  lemma AdvanceAlarms(s: State)
    requires AlarmsOk(s.threads, s.clock) && Inv(s) && Ways(s)
    ensures AlarmsOk(Advance(s).threads, Advance(s).clock)
  {
    match s.Pc() {
      case Down(k, _) => TestAlarms(s, k);
      case SetHolder(l, ctx) => SetPcAlarms(s, Acquired(l, ctx));
      case ClearHolder(l, ctx) => SetPcAlarms(s, UpLock(l, ctx));
      case UpLock(l, ctx) => UpStepAlarms(s, Released(l, ctx), s.mon.(owner := s.mon.owner[l := None]), OfLock(l));
      case UpWaiter(c, w, more) => UpStepAlarms(s, if more then Broadcast(c) else User, s.mon, OfWaiter(w));
      case Broadcast(c) => SetPcAlarms(s, Signal(s, c, true).Pc());
      case Unblock(child) => SetPcAlarms(s, User); MoveAlarms(SetPc(s, User).threads, s.clock, child, Ready, User);
      case Asleep => SetPcAlarms(s, User);
      case IdleStart(n) => UpStepAlarms(s, IdleLoop, s.mon, Plain(n));
      case IdleLoop => IdleAlarms(s);
      case IdleWait => SetPcAlarms(s, IdleLoop);
      case User =>
    }
  }

  lemma SleepAlarms(s: State, alarm: int)
    requires AlarmsOk(s.threads, s.clock) && Inv(s) && s.Pc() == User && alarm < s.clock.tailAlarm
    ensures AlarmsOk(Schedule(Doze(s, alarm)).threads, Schedule(Doze(s, alarm)).clock)
  {
    assert !IsAsleep(s.threads, s.cpu.current);
    DozeAlarms(s, alarm);
    DozeInv(s, alarm);
    ScheduleAlarms(Doze(s, alarm));
  }

  lemma CreateAlarms(s: State, child: Tid)
    requires AlarmsOk(s.threads, s.clock) && Inv(s) && child !in s.threads
    ensures AlarmsOk(Do(s, CallCreate(child)).threads, s.clock)
  {
    assert !IsAsleep(s.threads, child);
    KeepAlarms(s.threads, s.clock, child, Conceive(s, child).threads[child]);
    SetPcAlarms(Conceive(s, child), Down(ToHolder(TID_LOCK, ByCreate(child)), false));
  }

  lemma CallAlarms(s: State, step: Step)
    requires AlarmsOk(s.threads, s.clock) && Inv(s) && Allowed(s, step) && s.Pc() == User && POOL in s.semas
    requires !step.Timer? && !step.Proceed?
    ensures AlarmsOk(Do(s, step).threads, Do(s, step).clock)
  {
    match step {
      case CallTryDown(_) =>
      case CallUp(n) => UpAlarms(s, Plain(n));
      case CallCreate(child) => CreateAlarms(s, child);
      case CallSleep(alarm) => SleepAlarms(s, alarm);
      case CallYield => YieldAlarms(s);
      case CallExit => ExitAlarms(s);
      case IntrUp(n) => UpAlarms(s, Plain(n));
      case IntrTryDown(_) =>
      case _ => SetPcAlarms(s, Do(s, step).Pc());
    }
  }

  lemma StepAlarms(s: State, step: Step)
    requires AlarmsOk(s.threads, s.clock) && Good(s) && Allowed(s, step)
    ensures AlarmsOk(Do(s, step).threads, Do(s, step).clock)
  {
    WhereTo(s);
    match step {
      case Proceed => AdvanceAlarms(s);
      case Timer => TickAlarms(s);
      case IntrUp(n) => UpAlarms(s, Plain(n));
      case IntrTryDown(_) =>
      case _ => CallAlarms(s, step);
    }
  }

  lemma {:induction false} RunAlarms(s: State, steps: seq<Step>)
    requires AlarmsOk(s.threads, s.clock) && Good(s) && Run(s, steps).Some?
    ensures var r := Run(s, steps).value; AlarmsOk(r.threads, r.clock)
    decreases |steps|
  {
    if steps != [] {
      StepGood(s, steps[0]);
      StepAlarms(s, steps[0]);
      RunAlarms(Do(s, steps[0]), steps[1..]);
    }
  }
}
