/** One list at a time: the `elem` field of a thread is shared by the ready list,
    the wait lists, the sleep list and the destruction list.  This module proves
    which list every thread is on in every reachable state. */
module Placement {
  import opened Wrappers
  import opened Machine

  predicate IsReady(th: Table, idle: Option<Tid>, t: Tid) {
    t in th && th[t].status == Ready && idle != Some(t)
  }

  predicate IsAsleep(th: Table, t: Tid) {
    t in th && th[t].status == Blocked && th[t].pc.Asleep?
  }

  predicate IsDoomed(th: Table, initial: Tid, t: Tid) {
    t in th && th[t].status == Dying && t != initial
  }

  /** Blocked inside the semaphore's sema_down. */
  predicate IsWaiting(th: Table, id: SemaId, t: Tid) {
    t in th && th[t].status == Blocked && th[t].pc.Down? && th[t].pc.waited && th[t].pc.k.Sema() == id
  }

  ghost predicate ReadyOk(th: Table, idle: Option<Tid>, ready: seq<Tid>) {
    NoDup(ready) && forall t :: t in ready <==> IsReady(th, idle, t)
  }

  ghost predicate SleepOk(th: Table, sleeping: seq<Tid>) {
    NoDup(sleeping) && forall t :: t in sleeping <==> IsAsleep(th, t)
  }

  ghost predicate DoomedOk(th: Table, initial: Tid, doomed: seq<Tid>) {
    NoDup(doomed) && forall t :: t in doomed <==> IsDoomed(th, initial, t)
  }

  ghost predicate WaitOk(th: Table, id: SemaId, waiters: seq<Tid>) {
    NoDup(waiters) && forall t :: t in waiters <==> IsWaiting(th, id, t)
  }

  ghost predicate WaitsOk(th: Table, semas: map<SemaId, Semaphore>) {
    forall id :: id in semas ==> WaitOk(th, id, semas[id].waiters)
  }

  predicate IdlePc(pc: Pc) {
    pc.IdleStart? || pc.IdleLoop? || pc.IdleWait?
  }

  /** A thread's status and program counter agree. */
  predicate Agrees(x: Thread, isIdle: bool) {
    && (x.pc.Embryo? ==> x.status == Blocked)
    && (x.pc.Dead? <==> x.status == Dying)
    && (IdlePc(x.pc) <==> isIdle)
    && (x.status == Blocked ==> (x.pc.Down? && x.pc.waited) || x.pc.Asleep? || x.pc.Embryo? || x.pc.IdleWait?)
  }

  ghost predicate TableOk(th: Table, idle: Option<Tid>, semas: map<SemaId, Semaphore>) {
    && (idle.Some? ==> idle.value in th)
    && (forall t :: t in th ==> Agrees(th[t], idle == Some(t)))
    && (forall t :: t in th && th[t].pc.Down? ==> th[t].pc.k.Sema() in semas)
  }

  /** Every list holds exactly the threads whose state says so. */
  ghost predicate Placed(s: State) {
    && ReadyOk(s.threads, s.cpu.idle, s.cpu.ready)
    && SleepOk(s.threads, s.clock.sleeping)
    && DoomedOk(s.threads, s.cpu.initial, s.doomed)
    && WaitsOk(s.threads, s.semas)
    && TableOk(s.threads, s.cpu.idle, s.semas)
  }

  /** `t` runs and no other thread does. */
  ghost predicate OnlyRuns(th: Table, t: Tid) {
    t in th && forall u :: u in th ==> (th[u].status == Running <==> u == t)
  }

  ghost predicate NoneRuns(th: Table) {
    forall u :: u in th ==> th[u].status != Running
  }

  ghost predicate Inv(s: State) {
    Placed(s) && OnlyRuns(s.threads, s.cpu.current)
  }

  // ------------------------------------------------------------------ places

  /** The place a thread's state puts it in. */
  function PlaceOf(th: Table, t: Tid): Place
    requires t in th
  {
    var x := th[t];
    if x.status == Ready then OnReady
    else if x.status == Dying then OnDoomed
    else if x.pc.Down? then OnSema(x.pc.k.Sema())
    else OnSleep
  }

  lemma ListedAt(s: State, p: Place, t: Tid)
    requires Placed(s) && t in ListAt(s, p)
    ensures t in s.threads && s.threads[t].status != Running && PlaceOf(s.threads, t) == p && NoDup(ListAt(s, p))
  {
    match p {
      case OnReady => assert IsReady(s.threads, s.cpu.idle, t);
      case OnSleep => assert IsAsleep(s.threads, t);
      case OnDoomed => assert IsDoomed(s.threads, s.cpu.initial, t);
      case OnSema(id) => assert WaitOk(s.threads, id, s.semas[id].waiters) && IsWaiting(s.threads, id, t);
    }
  }

  /** The running thread is on no list. */
  lemma RunnerNowhere(s: State, p: Place)
    requires Inv(s)
    ensures s.cpu.current !in ListAt(s, p)
  {
    if s.cpu.current in ListAt(s, p) { ListedAt(s, p, s.cpu.current); }
  }

  lemma EmbryoNowhere(s: State, p: Place, t: Tid)
    requires Placed(s) && t in s.threads && s.threads[t].pc.Embryo?
    ensures t !in ListAt(s, p)
  {
    assert Agrees(s.threads[t], s.cpu.idle == Some(t));
    assert p.OnSema? && p.id in s.semas ==> WaitOk(s.threads, p.id, s.semas[p.id].waiters);
  }

  // ------------------------------------------------------------------ lists

  lemma Appended<X>(s: seq<X>, x: X)
    requires NoDup(s) && x !in s
    ensures NoDup(s + [x])
  {
  }

  // ------------------------------------- changing one thread: lists it is not on

  lemma KeepReady(th: Table, t: Tid, x: Thread, idle: Option<Tid>, ready: seq<Tid>)
    requires ReadyOk(th, idle, ready) && !IsReady(th, idle, t) && !IsReady(th[t := x], idle, t)
    ensures ReadyOk(th[t := x], idle, ready)
  {
  }

  lemma KeepSleep(th: Table, t: Tid, x: Thread, sleeping: seq<Tid>)
    requires SleepOk(th, sleeping) && !IsAsleep(th, t) && !IsAsleep(th[t := x], t)
    ensures SleepOk(th[t := x], sleeping)
  {
  }

  lemma KeepDoomed(th: Table, t: Tid, x: Thread, initial: Tid, doomed: seq<Tid>)
    requires DoomedOk(th, initial, doomed) && !IsDoomed(th, initial, t) && !IsDoomed(th[t := x], initial, t)
    ensures DoomedOk(th[t := x], initial, doomed)
  {
  }

  predicate Waits(th: Table, t: Tid) {
    t in th && IsWaiting(th, if th[t].pc.Down? then th[t].pc.k.Sema() else Plain(0), t)
  }

  lemma KeepWaits(th: Table, t: Tid, x: Thread, semas: map<SemaId, Semaphore>)
    requires WaitsOk(th, semas) && !Waits(th, t) && !Waits(th[t := x], t)
    ensures WaitsOk(th[t := x], semas)
  {
    forall id | id in semas
      ensures WaitOk(th[t := x], id, semas[id].waiters)
    {
      assert WaitOk(th, id, semas[id].waiters);
    }
  }

  // ------------------------------------------------- what each part preserves

  lemma ScheduleInv(s: State)
    requires Placed(s) && NoneRuns(s.threads) && CanSchedule(s)
    ensures Inv(Schedule(s))
  {
    if s.cpu.ready != [] {
      TailOf(s.cpu.ready);
      assert IsReady(s.threads, s.cpu.idle, s.cpu.ready[0]);
    }
    var t := Schedule(s).cpu.current;
    var x := s.threads[t].(status := Running);
    assert s.threads[t].status == Blocked ==> IdlePc(s.threads[t].pc);
    KeepSleep(s.threads, t, x, s.clock.sleeping);
    KeepDoomed(s.threads, t, x, s.cpu.initial, s.doomed);
    KeepWaits(s.threads, t, x, s.semas);
  }

  /** Moving a blocked thread from a list it has left to the ready list. */
  lemma WakeReady(th: Table, idle: Option<Tid>, ready: seq<Tid>, t: Tid)
    requires ReadyOk(th, idle, ready) && t in th && th[t].status == Blocked && idle != Some(t)
    ensures ReadyOk(th[t := th[t].(status := Ready)], idle, ready + [t])
  {
    assert !IsReady(th, idle, t);
    Appended(ready, t);
  }

  lemma UpInv(s: State, id: SemaId)
    requires Placed(s)
    ensures Placed(Up(s, id))
  {
    var sema := SemaOf(s, id);
    if id in s.semas && sema.waiters != [] {
      var t := sema.waiters[0];
      assert WaitOk(s.threads, id, sema.waiters);
      assert IsWaiting(s.threads, id, t);
      TailOf(sema.waiters);
      WakeReady(s.threads, s.cpu.idle, s.cpu.ready, t);
      assert WaitOk(Up(s, id).threads, id, sema.waiters[1..]);
    }
  }

  lemma TakeInv(s: State, id: SemaId)
    requires Placed(s)
    ensures Placed(Take(s, id))
  {
  }

  /** Changing the running thread's program counter. */
  lemma SetPcInv(s: State, pc: Pc)
    requires Inv(s) && !pc.Embryo? && !pc.Dead? && (IdlePc(pc) <==> s.cpu.idle == Some(s.cpu.current))
    requires pc.Down? ==> pc.k.Sema() in s.semas
    ensures Inv(SetPc(s, pc))
  {
    var x := s.threads[s.cpu.current].(pc := pc);
    KeepReady(s.threads, s.cpu.current, x, s.cpu.idle, s.cpu.ready);
    KeepSleep(s.threads, s.cpu.current, x, s.clock.sleeping);
    KeepDoomed(s.threads, s.cpu.current, x, s.cpu.initial, s.doomed);
    KeepWaits(s.threads, s.cpu.current, x, s.semas);
  }

  /** Blocking the running thread on a semaphore. */
  lemma WaitOnInv(s: State, k: Kont)
    requires Inv(s) && k.Sema() in s.semas && s.cpu.idle != Some(s.cpu.current)
    ensures Placed(WaitOn(s, k)) && NoneRuns(WaitOn(s, k).threads)
  {
    var id, x := k.Sema(), s.threads[s.cpu.current].(status := Blocked, pc := Down(k, true));
    KeepReady(s.threads, s.cpu.current, x, s.cpu.idle, s.cpu.ready);
    KeepSleep(s.threads, s.cpu.current, x, s.clock.sleeping);
    KeepDoomed(s.threads, s.cpu.current, x, s.cpu.initial, s.doomed);
    assert WaitOk(s.threads, id, s.semas[id].waiters);
    assert !IsWaiting(s.threads, id, s.cpu.current);
    Appended(s.semas[id].waiters, s.cpu.current);
    assert WaitOk(WaitOn(s, k).threads, id, s.semas[id].waiters + [s.cpu.current]);
  }

  /** Taking the first thread off the destruction list and freeing its page. */
  lemma DropDoomed(s: State)
    requires Placed(s)
    ensures Placed(DropFirst(s))
  {
    if s.doomed != [] {
      TailOf(s.doomed);
      assert IsDoomed(s.threads, s.cpu.initial, s.doomed[0]);
    }
  }

  lemma FreeFirstInv(s: State)
    requires Placed(s)
    ensures Placed(FreeFirst(s))
  {
    TakeInv(s, POOL);
    UpInv(Take(s, POOL), POOL);
    DropDoomed(Up(Take(s, POOL), POOL));
  }

  /** An up only makes blocked threads ready. */
  lemma UpRuns(s: State, id: SemaId, t: Tid)
    requires Placed(s)
    ensures OnlyRuns(s.threads, t) ==> OnlyRuns(Up(s, id).threads, t)
    ensures NoneRuns(s.threads) ==> NoneRuns(Up(s, id).threads)
  {
    var sema := SemaOf(s, id);
    if id in s.semas && sema.waiters != [] {
      assert WaitOk(s.threads, id, sema.waiters);
      assert IsWaiting(s.threads, id, sema.waiters[0]);
    }
  }

  lemma UpFull(s: State, id: SemaId)
    requires Inv(s)
    ensures Inv(Up(s, id))
  {
    UpInv(s, id);
    UpRuns(s, id, s.cpu.current);
  }

  lemma FreeFirstRuns(s: State, t: Tid)
    requires Placed(s)
    ensures OnlyRuns(s.threads, t) ==> OnlyRuns(FreeFirst(s).threads, t)
    ensures NoneRuns(s.threads) ==> NoneRuns(FreeFirst(s).threads)
  {
    var s1 := Take(s, POOL);
    TakeInv(s, POOL);
    UpRuns(s1, POOL, t);
    UpInv(s1, POOL);
    if s.doomed != [] {
      assert IsDoomed(Up(s1, POOL).threads, Up(s1, POOL).cpu.initial, s.doomed[0]);
    }
  }

  lemma {:induction false} FreeAllInv(s: State, t: Tid)
    requires Placed(s)
    ensures Placed(FreeAll(s))
    ensures OnlyRuns(s.threads, t) ==> OnlyRuns(FreeAll(s).threads, t)
    ensures NoneRuns(s.threads) ==> NoneRuns(FreeAll(s).threads)
    decreases |s.doomed|
  {
    if s.doomed != [] {
      FreeFirstInv(s);
      FreeFirstRuns(s, t);
      FreeAllInv(FreeFirst(s), t);
    }
  }

  lemma RequeueInv(s: State)
    requires Inv(s)
    ensures Placed(Requeue(s)) && NoneRuns(Requeue(s).threads) && CanSchedule(Requeue(s))
  {
    var x := s.threads[s.cpu.current].(status := Ready);
    KeepSleep(s.threads, s.cpu.current, x, s.clock.sleeping);
    KeepDoomed(s.threads, s.cpu.current, x, s.cpu.initial, s.doomed);
    KeepWaits(s.threads, s.cpu.current, x, s.semas);
    if s.cpu.idle != Some(s.cpu.current) {
      assert !IsReady(s.threads, s.cpu.idle, s.cpu.current);
      Appended(s.cpu.ready, s.cpu.current);
    } else {
      KeepReady(s.threads, s.cpu.current, x, s.cpu.idle, s.cpu.ready);
    }
  }

  lemma YieldInv(s: State)
    requires Inv(s) && !PoolBusy(s)
    ensures Inv(Yield(s))
  {
    RequeueInv(s);
    FreeAllInv(Requeue(s), s.cpu.current);
    ScheduleInv(FreeAll(Requeue(s)));
  }

  lemma DieDoomed(th: Table, initial: Tid, doomed: seq<Tid>, t: Tid)
    requires DoomedOk(th, initial, doomed) && t in th && th[t].status == Running
    ensures DoomedOk(th[t := th[t].(status := Dying, pc := Dead)], initial,
                     if t == initial then doomed else doomed + [t])
  {
    assert !IsDoomed(th, initial, t);
    Appended(doomed, t);
  }

  lemma DieInv(s: State)
    requires Inv(s) && s.cpu.idle != Some(s.cpu.current)
    ensures Placed(Die(s)) && NoneRuns(Die(s).threads)
  {
    var x := s.threads[s.cpu.current].(status := Dying, pc := Dead);
    KeepReady(s.threads, s.cpu.current, x, s.cpu.idle, s.cpu.ready);
    KeepSleep(s.threads, s.cpu.current, x, s.clock.sleeping);
    KeepWaits(s.threads, s.cpu.current, x, s.semas);
    DieDoomed(s.threads, s.cpu.initial, s.doomed, s.cpu.current);
  }

  lemma DepartInv(s: State)
    requires Inv(s) && s.cpu.idle != Some(s.cpu.current) && CanSchedule(s)
    ensures Inv(Depart(s))
  {
    FreeAllInv(s, s.cpu.current);
    DieInv(FreeAll(s));
    ScheduleInv(Die(FreeAll(s)));
  }

  lemma DropRuns(s: State)
    requires Inv(s)
    ensures Inv(DropFirst(s))
  {
    DropDoomed(s);
    if s.doomed != [] { assert IsDoomed(s.threads, s.cpu.initial, s.doomed[0]); }
  }

  lemma ExitInv(s: State)
    requires Inv(s) && s.cpu.idle != Some(s.cpu.current) && CanSchedule(s) && POOL in s.semas
    ensures Inv(Exit(s))
  {
    if PoolBusy(s) {
      DropRuns(s);
      WaitOnInv(DropFirst(s), ToReap);
      ScheduleInv(WaitOn(DropFirst(s), ToReap));
    } else {
      DepartInv(s);
    }
  }

  // ------------------------------------------------------------ sleep, wakeup

  lemma Inserted<X>(s: seq<X>, k: nat, x: X)
    requires NoDup(s) && x !in s && k <= |s|
    ensures NoDup(s[..k] + [x] + s[k..])
    ensures forall t :: t in s[..k] + [x] + s[k..] <==> t in s || t == x
  {
    assert s == s[..k] + s[k..];
  }

  lemma DozeInv(s: State, alarm: int)
    requires Inv(s) && s.cpu.idle != Some(s.cpu.current)
    ensures Placed(Doze(s, alarm)) && NoneRuns(Doze(s, alarm).threads)
  {
    var x := Thread(Blocked, Asleep, alarm, s.clock.nextStamp);
    KeepReady(s.threads, s.cpu.current, x, s.cpu.idle, s.cpu.ready);
    KeepDoomed(s.threads, s.cpu.current, x, s.cpu.initial, s.doomed);
    KeepWaits(s.threads, s.cpu.current, x, s.semas);
    assert !IsAsleep(s.threads, s.cpu.current);
    Inserted(s.clock.sleeping, Passed(s, s.clock.sleeping, alarm), s.cpu.current);
  }

  lemma WakeFirstInv(s: State)
    requires Inv(s)
    ensures Inv(WakeFirst(s))
  {
    if s.clock.sleeping != [] {
      TailOf(s.clock.sleeping);
      assert IsAsleep(s.threads, s.clock.sleeping[0]);
      WakeReady(s.threads, s.cpu.idle, s.cpu.ready, s.clock.sleeping[0]);
    }
  }

  lemma {:induction false} WakeDueInv(s: State)
    requires Inv(s)
    ensures Inv(WakeDue(s))
    decreases |s.clock.sleeping|
  {
    if s.clock.sleeping != [] && s.clock.ticks >= s.clock.earliest {
      WakeFirstInv(s);
      WakeDueInv(WakeFirst(s));
    }
  }

  lemma CountInv(s: State)
    requires Inv(s)
    ensures Inv(Count(s))
  {
    var s1 := s.(clock := s.clock.(ticks := s.clock.ticks + 1), cpu := s.cpu.(sliceTicks := s.cpu.sliceTicks + 1));
    assert Inv(s1);
    WakeDueInv(s1);
  }

  // ------------------------------------------------------- creation, the rest

  lemma ConceiveInv(s: State, child: Tid)
    requires Inv(s) && child !in s.threads
    ensures Inv(Conceive(s, child))
  {
  }

  lemma HatchInv(s: State, child: Tid)
    requires Inv(s) && child in s.threads && s.threads[child].pc.Embryo?
    ensures Inv(Hatch(s, child))
  {
    var x := s.threads[child].(status := Ready, pc := User);
    KeepSleep(s.threads, child, x, s.clock.sleeping);
    KeepDoomed(s.threads, child, x, s.cpu.initial, s.doomed);
    KeepWaits(s.threads, child, x, s.semas);
    assert !IsReady(s.threads, s.cpu.idle, child);
    Appended(s.cpu.ready, child);
  }

  lemma EnlistInv(s: State, c: CondId)
    requires Inv(s) && s.cpu.idle != Some(s.cpu.current) && OfWaiter(s.mon.nextWaiter) !in s.semas
    requires forall t :: t in s.threads ==> !IsWaiting(s.threads, OfWaiter(s.mon.nextWaiter), t)
    ensures Inv(Enlist(s, c))
  {
    var s1 := Enlist(s, c);
    SetPcInv(s, ClearHolder(CondOf(s, c).lock, ByWait(c, s.mon.nextWaiter)));
  }

  lemma SignalInv(s: State, c: CondId, more: bool)
    requires Inv(s) && s.cpu.idle != Some(s.cpu.current)
    ensures Inv(Signal(s, c, more))
  {
    SetPcInv(s, User);
    var cond := CondOf(s, c);
    if cond.waiters != [] {
      SetPcInv(s, UpWaiter(c, cond.waiters[0], more));
    }
  }
}
