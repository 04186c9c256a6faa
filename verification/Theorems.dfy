/** The thread system's guarantees, for every run from the state thread_init
    leaves: any sequence of calls the kernel's assertions allow, interleaved with
    interrupts wherever they can come. */
module Theorems {
  import opened Wrappers
  import opened Machine
  import opened Monitors
  import opened Placement
  import opened Simulation
  import opened Reachable
  import Wakeups
  import Alarms
  import Fairness

  // ------------------------------------------------------------ one list each

  /** No thread is twice on a list or on two lists, the running thread is on none,
      and a thread is on none only if it runs, idles, was just created, or is the
      dead initial thread. */
  ghost predicate OneListEach(s: State) {
    && (forall p :: NoDup(ListAt(s, p)))
    && (forall p, q, t :: t in ListAt(s, p) && t in ListAt(s, q) ==> p == q)
    && (forall p :: s.cpu.current !in ListAt(s, p))
    && (forall p, t :: t in ListAt(s, p) ==> t in s.threads)
    && (forall t :: t in s.threads && (forall p :: t !in ListAt(s, p)) ==>
          || t == s.cpu.current || s.cpu.idle == Some(t) || s.threads[t].pc.Embryo?
          || (t == s.cpu.initial && s.threads[t].status == Dying))
  }

  /** A thread's status says which kind of list it is on: the ready list if and only if
      it is READY, a wait list or the sleep list if and only if it is BLOCKED, the
      destruction list if and only if it is DYING; but for the idle thread, a thread that
      was just created and the initial thread. */
  ghost predicate StatusSays(s: State, t: Tid) {
    && t in s.threads
    && (t in ListAt(s, OnReady) <==> s.threads[t].status == Ready && s.cpu.idle != Some(t))
    && (t in ListAt(s, OnDoomed) <==> s.threads[t].status == Dying && t != s.cpu.initial)
    && (t in ListAt(s, OnSleep) || (exists id :: t in ListAt(s, OnSema(id))) <==>
          s.threads[t].status == Blocked && s.cpu.idle != Some(t) && !s.threads[t].pc.Embryo?)
  }

  lemma InvStatus(s: State, t: Tid)
    requires Inv(s) && t in s.threads
    ensures StatusSays(s, t)
  {
    var x := s.threads[t];
    assert Agrees(x, s.cpu.idle == Some(t));
    forall id | t in ListAt(s, OnSema(id))
      ensures IsWaiting(s.threads, id, t)
    {
      assert WaitOk(s.threads, id, s.semas[id].waiters);
    }
    if x.status == Blocked && x.pc.Down? {
      var id := x.pc.k.Sema();
      assert WaitOk(s.threads, id, s.semas[id].waiters) && t in ListAt(s, OnSema(id));
    }
  }

  lemma NowhereOnlyIf(s: State, t: Tid)
    requires Inv(s) && t in s.threads && t !in ListAt(s, PlaceOf(s.threads, t))
    ensures || t == s.cpu.current || s.cpu.idle == Some(t) || s.threads[t].pc.Embryo?
            || (t == s.cpu.initial && s.threads[t].status == Dying)
  {
    var x := s.threads[t];
    assert Agrees(x, s.cpu.idle == Some(t));
    if x.status == Blocked && x.pc.Down? {
      assert WaitOk(s.threads, x.pc.k.Sema(), s.semas[x.pc.k.Sema()].waiters);
    }
  }

  lemma InvOneList(s: State)
    requires Inv(s)
    ensures OneListEach(s)
  {
    forall p, t | t in ListAt(s, p)
      ensures t in s.threads && s.threads[t].status != Running && PlaceOf(s.threads, t) == p
    {
      ListedAt(s, p, t);
    }
    forall p
      ensures NoDup(ListAt(s, p))
    {
      if ListAt(s, p) != [] { ListedAt(s, p, ListAt(s, p)[0]); }
    }
    forall t | t in s.threads && t !in ListAt(s, PlaceOf(s.threads, t))
      ensures || t == s.cpu.current || s.cpu.idle == Some(t) || s.threads[t].pc.Embryo?
              || (t == s.cpu.initial && s.threads[t].status == Dying)
    {
      NowhereOnlyIf(s, t);
    }
  }

  /** Every run: exactly one thread runs, and every other is on the one list its
      status says, or on none for one of the four reasons. */
  lemma RunsKeepOneList(s: State, steps: seq<Step>)
    requires Init(s) && Run(s, steps).Some?
    ensures var r := Run(s, steps).value;
            OneListEach(r) && OnlyRuns(r.threads, r.cpu.current) && forall t :: t in r.threads ==> StatusSays(r, t)
  {
    InitGood(s);
    RunGood(s, steps);
    var r := Run(s, steps).value;
    InvOneList(r);
    forall t | t in r.threads ensures StatusSays(r, t) { InvStatus(r, t); }
  }

  // ----------------------------------------- yielding while the pool lock is taken

  /** Where the kernel does not panic, thread_yield keeps the invariant exactly when it
      need not wait for the pool lock.  With a dead thread to free and the lock in
      another thread's hands, the yielding thread ends up on the lock's wait list and, at
      the same time, on the ready list, or running again if it was picked, or it is the
      idle thread waiting for a lock. */
  lemma YieldKeepsExactly(s: State)
    requires Inv(s) && POOL in s.semas && !Panics(s)
    ensures Inv(Yield(s)) <==> !PoolBusy(s)
  {
    if PoolBusy(s) {
      BusyYieldBreaks(s);
    } else {
      YieldInv(s);
    }
  }

  /** thread_exit needs no such condition: it keeps the invariant in every state where
      there is a thread to switch to. */
  lemma ExitKeeps(s: State)
    requires Inv(s) && POOL in s.semas && s.cpu.idle != Some(s.cpu.current) && CanSchedule(s)
    ensures Inv(Exit(s))
    ensures PoolBusy(s) ==> forall p :: s.cpu.current in ListAt(Exit(s), p) <==> p == OnSema(POOL)
  {
    ExitInv(s);
    if PoolBusy(s) {
      ExitLists(s);
      forall p | s.cpu.current in ListAt(Exit(s), p) ensures p == OnSema(POOL) {
        ListedAt(Exit(s), p, s.cpu.current);
        ListedAt(Exit(s), OnSema(POOL), s.cpu.current);
      }
    }
  }

  lemma ExitLists(s: State)
    requires POOL in s.semas && PoolBusy(s)
    ensures s.cpu.current in ListAt(Exit(s), OnSema(POOL))
  {
    assert Exit(s).semas[POOL].waiters[|s.semas[POOL].waiters|] == s.cpu.current;
  }

  lemma BusyYieldLists(s: State)
    requires POOL in s.semas && PoolBusy(s) && !Panics(s)
    ensures var t, r := s.cpu.current, Yield(s);
            && t in ListAt(r, OnSema(POOL))
            && (s.cpu.idle != Some(t) && r.cpu.current != t ==> t in ListAt(r, OnReady))
  {
    var t, r := s.cpu.current, Yield(s);
    assert r.semas[POOL].waiters[|s.semas[POOL].waiters|] == t;
    if s.cpu.idle != Some(t) && r.cpu.current != t {
      assert (s.cpu.ready + [t])[|s.cpu.ready|] == t;
      if s.cpu.ready != [] { assert (s.cpu.ready + [t])[1..][|s.cpu.ready| - 1] == t; }
    }
  }

  lemma BusyYieldBreaks(s: State)
    requires Inv(s) && POOL in s.semas && PoolBusy(s) && !Panics(s)
    ensures !Inv(Yield(s))
  {
    var t, r := s.cpu.current, Yield(s);
    BusyYieldLists(s);
    if Inv(r) {
      ListedAt(r, OnSema(POOL), t);
      if s.cpu.idle != Some(t) && r.cpu.current != t { ListedAt(r, OnReady, t); }
    }
  }

  // ------------------------------------------------------------------- locks

  /** The thread is past the down and not yet at the up of the lock: it holds the
      lock or is at one of the two writes beside the semaphore operations. */
  predicate InLock(s: State, t: Tid, l: LockId) {
    || (l in s.mon.holder && s.mon.holder[l] == Some(t))
    || (t in s.threads && Between(s.threads[t].pc, l))
  }

  lemma LockExcludes(s: State, l: LockId)
    requires MonitorsOk(s) && l in s.mon.holder
    ensures forall t, u :: InLock(s, t, l) && InLock(s, u, l) ==> t == u
    ensures SemaOf(s, OfLock(l)).value == if exists t :: InLock(s, t, l) then 0 else 1
  {
    var pcs, g := PcsOf(s.threads), View(s);
    assert forall t :: InLock(s, t, l) <==> Inside(pcs, g, t, l);
    assert g.free[l] == SemaOf(s, OfLock(l)).value;
    MutualExclusion(pcs, g, l);
  }

  /** Every run: a lock has at most one thread inside, and its semaphore is 0 while
      one is and 1 while none is. */
  lemma RunsKeepMutualExclusion(s: State, steps: seq<Step>, l: LockId)
    requires Init(s) && Run(s, steps).Some? && l in Run(s, steps).value.mon.holder
    ensures var r := Run(s, steps).value;
            && (forall t, u :: InLock(r, t, l) && InLock(r, u, l) ==> t == u)
            && SemaOf(r, OfLock(l)).value == if exists t :: InLock(r, t, l) then 0 else 1
  {
    InitGood(s);
    RunGood(s, steps);
    LockExcludes(Run(s, steps).value, l);
  }

  // ------------------------------------------------------------- semaphores

  /** Every run: what a semaphore holds is what it started with, plus the ups, less
      the downs; and while threads wait for it, each unit it holds has a thread that
      was woken for it and is on its way. */
  lemma RunsKeepSemaphores(s: State, steps: seq<Step>, id: SemaId)
    requires Init(s) && Run(s, steps).Some? && id in Run(s, steps).value.semas
    ensures var r, x := Run(s, steps).value, Run(s, steps).value.semas[id];
            && x.value + x.downs == x.init + x.ups
            && (x.waiters != [] ==> x.value <= |Wakeups.Woken(r.threads, id)|)
  {
    var r := Run(s, steps).value;
    InitGood(s);
    RunGood(s, steps);
    Wakeups.RunLost(s, steps);
    assert Balanced(id, r.semas[id]) && Wakeups.Covered(r.threads, id, r.semas[id]);
  }

  // ---------------------------------------------------- condition variables

  /** Every run: waiters are signalled in the order they came and each at most
      once, and every call of cond_wait that has returned was signalled, with one
      up and one down of its own semaphore. */
  lemma RunsKeepSignals(s: State, steps: seq<Step>, c: CondId)
    requires Init(s) && Run(s, steps).Some? && c in Run(s, steps).value.mon.conds
    ensures var r := Run(s, steps).value;
            var cond := r.mon.conds[c];
            && cond.queued == cond.signalled + cond.waiters && NoDup(cond.queued)
            && forall w :: w in r.mon.returned && w in r.mon.calls && r.mon.calls[w].c == c ==>
                 w in cond.signalled && SemaOf(r, OfWaiter(w)).ups == 1 && SemaOf(r, OfWaiter(w)).downs == 1
  {
    var r := Run(s, steps).value;
    InitGood(s);
    RunGood(s, steps);
    assert CondOk(View(r), c);
    forall w | w in r.mon.returned && w in r.mon.calls && r.mon.calls[w].c == c
      ensures w in r.mon.conds[c].signalled && SemaOf(r, OfWaiter(w)).ups == 1 && SemaOf(r, OfWaiter(w)).downs == 1
    {
      assert CallOk(View(r), w);
    }
  }

  lemma AdvanceReturns(s: State)
    ensures Advance(s).mon.returned ==
              s.mon.returned + if s.Pc().SetHolder? && s.Pc().ctx.ByWait? then {s.Pc().ctx.w} else {}
  {
  }

  /** The only step that ends a call of cond_wait. */
  lemma ReturnsOnlyAt(s: State, step: Step)
    requires Do(s, step).mon.returned != s.mon.returned
    ensures step.Proceed? && s.Pc().SetHolder? && s.Pc().ctx.ByWait?
            && Do(s, step).mon.returned == s.mon.returned + {s.Pc().ctx.w}
  {
    match step {
      case Proceed => AdvanceReturns(s);
      case _ =>
    }
  }

  /** A call of cond_wait returns to the thread that made it, holding the lock. */
  lemma WaitReturnsHolding(s: State, step: Step, w: WaiterId)
    requires Good(s) && w !in s.mon.returned && w in Do(s, step).mon.returned
    ensures var r := Do(s, step);
            && w in r.mon.calls && r.mon.calls[w].t == r.cpu.current && r.Pc() == User
            && r.mon.calls[w].c in r.mon.conds && Holds(r, r.mon.conds[r.mon.calls[w].c].lock)
  {
    WhereTo(s);
    WaitReturns(s, step, w);
  }

  lemma WaitReturns(s: State, step: Step, w: WaiterId)
    requires Runs(s) && PcOk(View(s), s.cpu.current, s.Pc()) && w !in s.mon.returned && w in Do(s, step).mon.returned
    ensures var r := Do(s, step);
            && w in r.mon.calls && r.mon.calls[w].t == r.cpu.current && r.Pc() == User
            && r.mon.calls[w].c in r.mon.conds && Holds(r, r.mon.conds[r.mon.calls[w].c].lock)
  {
    ReturnsOnlyAt(s, step);
    HoldReturns(s, s.Pc().l, s.Pc().ctx.c, w);
  }

  lemma HoldReturns(s: State, l: LockId, c: CondId, w: WaiterId)
    requires s.cpu.current in s.threads && s.Pc() == SetHolder(l, ByWait(c, w))
    requires w in s.mon.calls && s.mon.calls[w] == Call(s.cpu.current, c) && c in s.mon.conds
             && s.mon.conds[c].lock == l
    ensures var r := Advance(s);
            && r.mon.calls == s.mon.calls && r.mon.conds == s.mon.conds && r.cpu == s.cpu
            && r.Pc() == User && Holds(r, l)
  {
  }

  // ---------------------------------------------------------------- the clock

  lemma InitAlarms(s: State)
    requires Init(s)
    ensures Alarms.AlarmsOk(s.threads, s.clock)
  {
  }

  /** Sleepers are in alarm order, nobody has been woken before its alarm, and the
      next tick, if it is below the value read through the tail, makes ready exactly
      the sleepers whose alarm it reaches. */
  ghost predicate AlarmClock(s: State) {
    var list, tick := s.clock.sleeping, s.clock.ticks + 1;
    var k := Alarms.Due(s.threads, list, tick);
    && Alarms.InOrder(s.threads, list)
    && (forall t :: t in s.threads ==> Alarms.NotEarly(s.threads[t], s.clock.ticks))
    && (forall i :: 0 <= i < |list| ==> (i < k <==> s.threads[list[i]].alarm <= tick))
    && (tick < s.clock.tailAlarm ==>
          Count(s).clock.sleeping == list[k..] && Count(s).cpu.ready == s.cpu.ready + list[..k])
  }

  lemma AlarmsTick(s: State)
    requires Alarms.AlarmsOk(s.threads, s.clock)
    ensures AlarmClock(s)
  {
    assert Look(OfAlarms, 0);
    Alarms.DueExactly(s.threads, s.clock.sleeping, s.clock.ticks + 1);
    if s.clock.ticks + 1 < s.clock.tailAlarm { Alarms.CountWakes(s); }
  }

  lemma RunsKeepAlarms(s: State, steps: seq<Step>)
    requires Init(s) && Run(s, steps).Some?
    ensures AlarmClock(Run(s, steps).value)
  {
    InitGood(s);
    InitAlarms(s);
    Alarms.RunAlarms(s, steps);
    AlarmsTick(Run(s, steps).value);
  }

  /** Every run: a ready thread runs before four more ticks for itself and each
      thread ahead of it have passed. */
  lemma RunsAreFair(s: State, steps: seq<Step>, more: seq<Step>, k: nat)
    requires Init(s) && Run(s, steps).Some? && Run(Run(s, steps).value, more).Some?
    requires k < |Run(s, steps).value.cpu.ready| && Fairness.Ticks(more) >= TIME_SLICE * (k + 1)
    ensures exists j :: 0 < j <= |more| && Fairness.PickedAt(Run(s, steps).value, more, j, k)
  {
    Fairness.RunSlice(s, steps);
    Fairness.BoundedWaiting(Run(s, steps).value, more, k);
  }
}
