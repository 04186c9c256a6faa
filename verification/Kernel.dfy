/** The code of threads/thread.c, devices/timer.c and the semaphores of
    threads/synch.c, as it updates the kernel's variables and relinks the `elem` fields
    of threads.  Each method does what the machine's function says and leaves every list
    linked; what a method needs to know before it links a thread, that the thread is on
    no list, comes from the one-list invariant. */
module KernelCode {
  import opened Wrappers
  import opened Machine
  import opened Placement
  import opened Simulation
  import opened Queues
  import Alarms
  import KernelList
  import Runs

  /** A semaphore without its wait list. */
  datatype Counter = Counter(value: nat, init: nat, ups: nat, downs: nat)

  function Whole(x: Counter, waiters: seq<Tid>): Semaphore {
    Semaphore(x.value, waiters, x.init, x.ups, x.downs)
  }

  type Counters = map<SemaId, Counter>

  /** There is a list for every semaphore, and `shown` is the semaphores with their
      lists. */
  ghost predicate Agree(semas: Counters, shown: map<SemaId, Semaphore>, qs: Threads) {
    && OnReady in qs && OnSleep in qs && OnDoomed in qs && shown.Keys == semas.Keys
    && forall z: nat {:trigger Look(OfQueues, z)} :: Look(OfQueues, z) ==>
         && (forall p :: p in qs && p.OnSema? ==> p.id in semas)
         && (forall id :: id in semas ==> OnSema(id) in qs && shown[id] == Whole(semas[id], qs[OnSema(id)]))
  }

  lemma AgreePlace(semas: Counters, shown: map<SemaId, Semaphore>, qs: Threads, p: Place, q: seq<Tid>)
    requires Agree(semas, shown, qs) && !p.OnSema? && p in qs
    ensures Agree(semas, shown, qs[p := q])
  {
    assert Look(OfQueues, 0);
  }

  lemma AgreeSema(semas: Counters, shown: map<SemaId, Semaphore>, qs: Threads, id: SemaId, x: Counter, q: seq<Tid>)
    requires Agree(semas, shown, qs) && id in semas
    ensures Agree(semas[id := x], shown[id := Whole(x, q)], qs[OnSema(id) := q])
  {
    assert Look(OfQueues, 0);
  }

  lemma AgreeAt(semas: Counters, shown: map<SemaId, Semaphore>, qs: Threads, id: SemaId)
    requires Agree(semas, shown, qs) && id in semas
    ensures OnSema(id) in qs && shown[id] == Whole(semas[id], qs[OnSema(id)])
  {
    assert Look(OfQueues, 0);
  }

  /** The machine with another list at a place. */
  function WithList(s: State, p: Place, q: seq<Tid>): State {
    match p
    case OnReady => s.(cpu := s.cpu.(ready := q))
    case OnSleep => s.(clock := s.clock.(sleeping := q))
    case OnDoomed => s.(doomed := q)
    case OnSema(id) => if id in s.semas then s.(semas := s.semas[id := s.semas[id].(waiters := q)]) else s
  }

  /** What another list at a place makes of the semaphores. */
  ghost function Reshown(shown: map<SemaId, Semaphore>, p: Place, q: seq<Tid>): map<SemaId, Semaphore> {
    if p.OnSema? && p.id in shown then shown[p.id := shown[p.id].(waiters := q)] else shown
  }

  lemma AgreeReshown(semas: Counters, shown: map<SemaId, Semaphore>, qs: Threads, p: Place, q: seq<Tid>)
    requires Agree(semas, shown, qs) && p in qs
    ensures Agree(semas, Reshown(shown, p, q), qs[p := q])
  {
    if p.OnSema? {
      AgreeIn(semas, shown, qs, p);
      AgreeAt(semas, shown, qs, p.id);
      AgreeSema(semas, shown, qs, p.id, semas[p.id], q);
      assert semas[p.id := semas[p.id]] == semas;
    } else {
      AgreePlace(semas, shown, qs, p, q);
    }
  }

  /** The machine that goes with another list at a place. */
  lemma Relisted(s: State, qs: Threads, p: Place, q: seq<Tid>)
    requires OnReady in qs && OnSleep in qs && OnDoomed in qs && p in qs
    requires s.cpu.ready == qs[OnReady] && s.clock.sleeping == qs[OnSleep] && s.doomed == qs[OnDoomed]
    ensures var ps := qs[p := q];
            WithList(s, p, q) == State(s.threads, s.cpu.(ready := ps[OnReady]), s.clock.(sleeping := ps[OnSleep]),
                                       ps[OnDoomed],
                                       Reshown(s.semas, p, q), s.mon)
  {
  }

  /** The list a place of the machine stands for. */
  lemma AgreeList(s: State, semas: Counters, qs: Threads, p: Place)
    requires Agree(semas, s.semas, qs) && p in qs
    requires s.cpu.ready == qs[OnReady] && s.clock.sleeping == qs[OnSleep] && s.doomed == qs[OnDoomed]
    ensures ListAt(s, p) == qs[p]
  {
    assert Look(OfQueues, 0);
  }

  /** The thread system just after thread_init. */
  function Started(tailAlarm: int): State {
    var locks := map[TID_LOCK := None, POOL_LOCK := None];
    State(map[0 := Thread(Running, User, 0, 0)], Cpu(0, 0, None, [], 0, 0), Clock([], INT64_MAX, tailAlarm, 0, 0), [],
          map[OfLock(TID_LOCK) := Semaphore(1, [], 1, 0, 0), POOL := Semaphore(1, [], 1, 0, 0)],
          Monitor(locks, map[], locks, map[], {}, 0))
  }

  /** sema_up's first half. */
  function WakeFrom(s: State, id: SemaId): State {
    var waiters := SemaOf(s, id).waiters;
    if waiters == [] then s else Wake(WithList(s, OnSema(id), waiters[1..]), waiters[0])
  }

  /** sema_up is its two halves. */
  lemma UpParts(s: State, id: SemaId)
    requires id in s.semas
    ensures var w := WakeFrom(s, id);
            && id in w.semas
            && var x := w.semas[id];
               Up(s, id) == w.(semas := w.semas[id := x.(value := x.value + 1, ups := x.ups + 1, downs := x.downs)])
  {
  }

  lemma StartsRight(tailAlarm: int)
    requires 0 < tailAlarm <= INT64_MAX
    ensures Init(Started(tailAlarm))
  {
  }

  class Kernel {
    var threads: Table
    var current: Tid
    var initial: Tid
    var idle: Option<Tid>
    var earliest: int
    var ticks: int
    var sliceTicks: nat
    var semas: map<SemaId, Counter>
    const tailAlarm: int
    const lists: Lists
    ghost var shown: map<SemaId, Semaphore>     // the semaphores with their wait lists
    ghost var picks: nat
    var nextStamp: nat
    ghost var mon: Monitor

    /** The thread system as the machine sees it. */
    ghost function View(): State
      reads this, lists
      requires OnReady in lists.queues && OnSleep in lists.queues && OnDoomed in lists.queues
    {
      State(threads, Cpu(current, initial, idle, lists.queues[OnReady], sliceTicks, picks),
            Clock(lists.queues[OnSleep], earliest, tailAlarm, ticks, nextStamp), lists.queues[OnDoomed], shown, mon)
    }

    /** The lists are linked, there is one for every semaphore, and every thread has a
        node. */
    ghost predicate Linked()
      reads `threads, `semas, `shown, lists, lists.objs, lists.all
    {
      lists.Sound() && lists.elem.Keys == threads.Keys && Agree(semas, shown, lists.queues)
    }

    /** `Linked`, for proofs that only hand it on. */
    ghost predicate Valid()
      reads `threads, `semas, `shown, lists, lists.objs, lists.all
    {
      && OnReady in lists.queues && OnSleep in lists.queues && OnDoomed in lists.queues
      && forall z: nat {:trigger Look(OfKernel, z)} :: Look(OfKernel, z) ==> Linked()
    }

    /** `Valid` and the machine's invariant, for proofs that only hand it on. */
    ghost predicate Steady()
      reads this, lists, lists.objs, lists.all
    {
      Valid() && forall z: nat {:trigger Look(OfSteady, z)} :: Look(OfSteady, z) ==> Inv(View())
    }

    lemma Unseal()
      requires Steady()
      ensures var inv := Inv(View()); inv
    {
      assert Look(OfSteady, 0);
    }

    lemma Join()
      requires OnReady in lists.queues && OnSleep in lists.queues && OnDoomed in lists.queues
      requires lists.elem.Keys == threads.Keys
      requires var linked := lists.Sound() && Agree(semas, shown, lists.queues); linked
      ensures var valid := Valid(); valid
    {
    }

    lemma SemaListed(id: SemaId)
      requires Valid() && id in semas
      ensures OnSema(id) in lists.queues && id in shown && shown[id] == Whole(semas[id], lists.queues[OnSema(id)])
    {
      assert Look(OfKernel, 0);
      AgreeAt(semas, shown, lists.queues, id);
    }

    /** The running thread is on no list. */
    lemma RunnerFree()
      requires Steady()
      ensures Nowhere(lists.queues, current)
    {
      Unseal();
      assert Look(OfKernel, 0);
      forall p | p in lists.queues ensures current !in lists.queues[p] {
        AgreeList(View(), semas, lists.queues, p);
        RunnerNowhere(View(), p);
      }
    }

    /** In the machine's invariant no thread is on two lists. */
    lemma PlacedApart()
      requires Valid() && Placed(View())
      ensures Separate(lists.queues, threads.Keys)
    {
      assert Look(OfKernel, 0);
      forall p | p in lists.queues ensures ListAt(View(), p) == lists.queues[p] {
        AgreeList(View(), semas, lists.queues, p);
      }
      ListsApart(View(), lists.queues);
    }

    /** thread_init */
    constructor (tailAlarm: int)
      requires 0 < tailAlarm <= INT64_MAX
      ensures var valid := Valid() && Init(View()); valid
      ensures this.tailAlarm == tailAlarm && ticks == 0
    {
      var places := [OnReady, OnSleep, OnDoomed, OnSema(OfLock(TID_LOCK)), OnSema(POOL)];
      var l := Boot(places, 0);
      this.tailAlarm, lists := tailAlarm, l;
      current, initial, idle := 0, 0, None;
      threads := map[0 := Thread(Running, User, 0, 0)];
      earliest, ticks, sliceTicks := INT64_MAX, 0, 0;
      semas := map[OfLock(TID_LOCK) := Counter(1, 1, 0, 0), POOL := Counter(1, 1, 0, 0)];
      shown, mon := Started(tailAlarm).semas, Started(tailAlarm).mon;
      picks, nextStamp := 0, 0;
      new;
      AgreeFirst(places, semas, shown, l.queues);
      StartsRight(tailAlarm);
      assert View() == Started(tailAlarm);
    }

    method Link(p: Place, t: Tid)
      requires Valid() && p in lists.queues && t in threads && Nowhere(lists.queues, t)
      modifies `shown, lists`chains, lists`queues, lists.objs, lists.all
      ensures var valid := Valid(); valid
      ensures lists.queues == old(lists.queues)[p := old(lists.queues[p]) + [t]]
      ensures shown == Reshown(old(shown), p, lists.queues[p])
    {
      assert Look(OfKernel, 0);
      ghost var q := lists.queues[p] + [t];
      AgreeReshown(semas, shown, lists.queues, p, q);
      shown := Reshown(shown, p, q);
      lists.PushBack(p, t);
      Join();
    }

    /** list_push_back */
    method Push(p: Place, t: Tid)
      requires Valid() && p in lists.queues && t in threads && Nowhere(lists.queues, t)
      modifies `shown, lists`chains, lists`queues, lists.objs, lists.all
      ensures Valid() && View() == WithList(old(View()), p, old(lists.queues[p]) + [t])
      ensures lists.queues == old(lists.queues)[p := old(lists.queues[p]) + [t]]
    {
      Relisted(View(), lists.queues, p, lists.queues[p] + [t]);
      Link(p, t);
    }

    method Unlink(p: Place) returns (t: Tid)
      requires Valid() && p in lists.queues && lists.queues[p] != []
      modifies `shown, lists`chains, lists`queues, lists.objs, lists.all
      ensures var valid := Valid(); valid
      ensures lists.queues == old(lists.queues)[p := old(lists.queues[p])[1..]]
      ensures shown == Reshown(old(shown), p, lists.queues[p]) && t == old(lists.queues[p])[0]
    {
      assert Look(OfKernel, 0);
      ghost var q := lists.queues[p][1..];
      AgreeReshown(semas, shown, lists.queues, p, q);
      shown := Reshown(shown, p, q);
      t := lists.PopFront(p);
      Join();
    }

    /** list_pop_front */
    method Pop(p: Place) returns (t: Tid)
      requires Valid() && Separate(lists.queues, threads.Keys) && p in lists.queues && lists.queues[p] != []
      modifies `shown, lists`chains, lists`queues, lists.objs, lists.all
      ensures Valid() && View() == WithList(old(View()), p, old(lists.queues[p])[1..])
      ensures lists.queues == old(lists.queues)[p := old(lists.queues[p])[1..]]
      ensures t == old(lists.queues[p])[0] && t in threads
      ensures Nowhere(lists.queues, t) && Separate(lists.queues, threads.Keys)
    {
      SeparatePop(lists.queues, threads.Keys, p);
      Relisted(View(), lists.queues, p, lists.queues[p][1..]);
      t := Unlink(p);
    }

    method SetStatus(t: Tid, status: Status)
      requires Valid() && t in threads
      modifies `threads
      ensures Valid() && View() == Machine.SetStatus(old(View()), t, status)
    {
      assert Look(OfKernel, 0);
      threads := threads[t := threads[t].(status := status)];
    }

    /** thread_unblock of a thread that is on no list. */
    method Unblock(t: Tid)
      requires Valid() && t in threads && Nowhere(lists.queues, t)
      modifies `threads, `shown, lists`chains, lists`queues, lists.objs, lists.all
      ensures Valid() && View() == Wake(old(View()), t) && threads.Keys == old(threads.Keys)
      ensures lists.queues == old(lists.queues)[OnReady := old(lists.queues[OnReady]) + [t]]
    {
      Push(OnReady, t);
      SetStatus(t, Ready);
    }

    /** There is a thread to switch to, and the lists are apart. */
    ghost predicate CanSwitch()
      reads this, lists
    {
      && OnReady in lists.queues && (lists.queues[OnReady] != [] || idle.Some?)
      && (idle.Some? ==> idle.value in threads)
      && Separate(lists.queues, threads.Keys)
    }

    /** next_thread_to_run, for a thread system that is never without a thread to run. */
    method PickNext() returns (next: Tid, none: bool)
      requires Valid() && CanSwitch()
      modifies `shown, lists`chains, lists`queues, lists.objs, lists.all
      ensures var valid := Valid(); valid
      ensures none == (old(lists.queues[OnReady]) == []) && next in threads
      ensures next == if none then idle.value else old(lists.queues[OnReady])[0]
      ensures View() == if none then old(View()) else WithList(old(View()), OnReady, old(lists.queues[OnReady])[1..])
    {
      none := IsEmpty(OnReady);
      if none {
        next := idle.value;
      } else {
        next := Pop(OnReady);
      }
    }

    /** The thread picked, the status change and the new time slice of schedule. */
    method SwitchThread()
      requires Valid() && CanSwitch()
      modifies `threads, `shown, `current, `sliceTicks, `picks, lists`chains, lists`queues, lists.objs, lists.all
      ensures var valid := Valid() && View() == Schedule(old(View())); valid
    {
      var next, none := PickNext();
      SetStatus(next, Running);
      Dispatch(next, if none then 0 else 1);
    }

    method IsEmpty(p: Place) returns (b: bool)
      requires Valid() && p in lists.queues
      ensures b <==> lists.queues[p] == []
    {
      assert Look(OfKernel, 0);
      b := lists.Empty(p);
    }

    method Dispatch(next: Tid, ghost n: nat)
      requires Valid()
      modifies `current, `sliceTicks, `picks
      ensures Valid() && current == next && sliceTicks == 0 && picks == old(picks) + n
    {
      current, sliceTicks, picks := next, 0, picks + n;
    }

    // -------------------------------------------------------------- semaphores

    method Tally(id: SemaId, value: nat, ups: nat, downs: nat)
      requires Valid() && id in semas
      modifies `semas, `shown
      ensures Valid() && id in old(View()).semas && semas.Keys == old(semas.Keys)
      ensures var x := old(View()).semas[id].(value := value, ups := ups, downs := downs);
              View() == old(View()).(semas := old(View()).semas[id := x])
    {
      assert Look(OfKernel, 0);
      SemaListed(id);
      var x := Counter(value, semas[id].init, ups, downs);
      ghost var q := lists.queues[OnSema(id)];
      AgreeSema(semas, shown, lists.queues, id, x, q);
      assert lists.queues[OnSema(id) := q] == lists.queues;
      semas, shown := semas[id := x], shown[id := Whole(x, q)];
    }

    /** The first waiter, if any, goes from the wait list to the ready list. */
    method WakeWaiter(id: SemaId)
      requires Valid() && id in semas && Separate(lists.queues, threads.Keys)
      modifies `threads, `shown, lists`chains, lists`queues, lists.objs, lists.all
      ensures var valid := Valid() && View() == WakeFrom(old(View()), id); valid
      ensures Separate(lists.queues, threads.Keys) && forall t :: Nowhere(old(lists.queues), t) ==>
                Nowhere(lists.queues, t)
    {
      SemaListed(id);
      var none := IsEmpty(OnSema(id));
      if !none {
        var t := Pop(OnSema(id));
        SeparatePush(lists.queues, threads.Keys, OnReady, t);
        Unblock(t);
      }
    }

    /** sema_up */
    method SemaUp(id: SemaId)
      requires Valid() && id in semas && Separate(lists.queues, threads.Keys)
      modifies `threads, `semas, `shown, lists`chains, lists`queues, lists.objs, lists.all
      ensures Valid() && View() == Up(old(View()), id) && semas.Keys == old(semas.Keys)
      ensures Separate(lists.queues, threads.Keys) && forall t :: Nowhere(old(lists.queues), t) ==>
                Nowhere(lists.queues, t)
    {
      SemaListed(id);
      UpParts(View(), id);
      WakeWaiter(id);
      SemaListed(id);
      Tally(id, semas[id].value + 1, semas[id].ups + 1, semas[id].downs);
    }

    /** sema_try_down */
    method SemaTryDown(id: SemaId) returns (success: bool)
      requires Valid() && id in semas
      modifies `semas, `shown
      ensures Valid() && View() == Take(old(View()), id) && success == (old(semas[id].value) > 0)
              && semas.Keys == old(semas.Keys)
    {
      SemaListed(id);
      success := semas[id].value > 0;
      if success { Tally(id, semas[id].value - 1, semas[id].ups, semas[id].downs + 1); }
    }

    /** What the one-list invariant says about switching. */
    lemma Switchable()
      requires Valid() && Placed(View()) && CanSchedule(View())
      ensures CanSwitch()
    {
      PlacedApart();
    }

    /** schedule, which finds the lists in order. */
    method Reschedule()
      requires Valid() && Placed(View()) && NoneRuns(threads) && CanSchedule(View())
      modifies `threads, `shown, `current, `sliceTicks, `picks, lists`chains, lists`queues, lists.objs, lists.all
      ensures Steady() && View() == Schedule(old(View()))
    {
      ScheduleInv(View());
      Switchable();
      SwitchThread();
    }

    method SetThread(x: Thread)
      requires Valid() && current in threads
      modifies `threads
      ensures Valid() && View() == old(View()).(threads := old(threads)[current := x])
    {
      assert Look(OfKernel, 0);
      threads := threads[current := x];
    }

    /** The body of sema_down's loop, up to thread_block's status change. */
    method Queue(k: Kont)
      requires Valid() && k.Sema() in semas && current in threads && Nowhere(lists.queues, current)
      modifies `threads, `shown, lists`chains, lists`queues, lists.objs, lists.all
      ensures Valid() && View() == WaitOn(old(View()), k)
    {
      SemaListed(k.Sema());
      Push(OnSema(k.Sema()), current);
      SetThread(threads[current].(status := Blocked, pc := Down(k, true)));
    }

    /** The body of sema_down's loop: queue the running thread and block it. */
    method BlockOn(k: Kont)
      requires Steady()
      requires k.Sema() in semas && idle != Some(current) && CanSchedule(View())
      modifies this, lists`chains, lists`queues, lists.objs, lists.all
      ensures Steady() && View() == Schedule(WaitOn(old(View()), k))
    {
      Unseal();
      SemaListed(k.Sema());
      WaitOnInv(View(), k);
      RunnerFree();
      Queue(k);
      Reschedule();
    }

    // ---------------------------------------------------------------- creation

    /** thread_create up to init_thread: the new structure's node is on no list. */
    method Conceive(child: Tid)
      requires Valid() && child !in threads
      modifies `threads, lists`elem, lists`all
      ensures Valid() && View() == Machine.Conceive(old(View()), child)
    {
      assert Look(OfKernel, 0);
      lists.Adopt(child);
      threads := threads[child := Thread(Blocked, Embryo(current), 0, 0)];
    }

    /** thread_create's thread_unblock. */
    method Hatch(child: Tid)
      requires Steady()
      requires child in threads && threads[child].pc.Embryo?
      modifies `threads, `shown, lists`chains, lists`queues, lists.objs, lists.all
      ensures Valid() && View() == Machine.Hatch(old(View()), child)
    {
      Unseal();
      EmbryoFree(child);
      Unblock(child);
      Begin(child);
    }

    /** The first thing the new thread will do. */
    method Begin(child: Tid)
      requires Valid() && child in threads
      modifies `threads
      ensures Valid() && View() == old(View()).(threads := old(threads)[child := old(threads[child]).(pc := User)])
    {
      assert Look(OfKernel, 0);
      threads := threads[child := threads[child].(pc := User)];
    }

    /** A thread that has never run is on no list. */
    lemma EmbryoFree(t: Tid)
      requires Valid() && Placed(View()) && t in threads && threads[t].pc.Embryo?
      ensures Nowhere(lists.queues, t)
    {
      assert Look(OfKernel, 0);
      forall p | p in lists.queues ensures t !in lists.queues[p] {
        AgreeList(View(), semas, lists.queues, p);
        EmbryoNowhere(View(), p, t);
      }
    }

    // ------------------------------------------------ destruction, yield, exit

    /** The structure of a thread on no list goes with its page. */
    method Forget(victim: Tid)
      requires Valid() && victim in threads && Nowhere(lists.queues, victim)
      modifies `threads, lists`elem
      ensures Valid() && View() == old(View()).(threads := old(threads) - {victim})
    {
      assert Look(OfKernel, 0);
      lists.Forget(victim);
      threads := threads - {victim};
    }

    /** The head of destruction_req leaves the list and the model. */
    method PopVictim()
      requires Valid() && Separate(lists.queues, threads.Keys) && lists.queues[OnDoomed] != []
      modifies `threads, `shown, lists`elem, lists`chains, lists`queues, lists.objs, lists.all
      ensures Valid() && View() == DropFirst(old(View())) && Separate(lists.queues, threads.Keys)
      ensures forall t :: Nowhere(old(lists.queues), t) ==> Nowhere(lists.queues, t)
    {
      var victim := Pop(OnDoomed);
      SeparateForget(lists.queues, threads.Keys, victim);
      Forget(victim);
    }

    /** palloc_free_page: the pool lock is taken, which must be possible, and released. */
    method FreePage()
      requires Valid() && POOL in semas && Separate(lists.queues, threads.Keys)
      modifies `threads, `semas, `shown, lists`chains, lists`queues, lists.objs, lists.all
      ensures Valid() && View() == Up(Take(old(View()), POOL), POOL) && POOL in semas
              && Separate(lists.queues, threads.Keys)
    {
      var _ := SemaTryDown(POOL);
      SemaUp(POOL);
    }

    /** One round of do_schedule's loop. */
    method FreeVictim()
      requires Apart() && lists.queues[OnDoomed] != []
      modifies `threads, `semas, `shown, lists`elem, lists`chains, lists`queues, lists.objs, lists.all
      ensures Apart() && View() == FreeFirst(old(View()))
      ensures var same := FreeAll(View()) == FreeAll(old(View())); same
      ensures |lists.queues[OnDoomed]| < |old(lists.queues[OnDoomed])|
    {
      UnsealPlaced();
      FreeFirstInv(View());
      DropCommutes(View());
      PlacedApart();
      PopVictim();
      FreePage();
    }

    /** `Valid`, and no thread is on two lists. */
    ghost predicate Apart()
      reads this, lists, lists.objs, lists.all
    {
      && Valid() && POOL in semas
      && forall z: nat {:trigger Look(OfSteady, z)} :: Look(OfSteady, z) ==> Placed(View())
    }

    lemma UnsealPlaced()
      requires Apart()
      ensures var placed := Placed(View()); placed
    {
      assert Look(OfSteady, 0);
    }

    /** do_schedule's loop over the threads to be destroyed. */
    method FreeVictims()
      requires Apart()
      modifies `threads, `semas, `shown, lists`elem, lists`chains, lists`queues, lists.objs, lists.all
      ensures Valid() && POOL in semas && View() == FreeAll(old(View()))
    {
      var none := IsEmpty(OnDoomed);
      while !none
        invariant var apart := Apart(); apart
        invariant none == (lists.queues[OnDoomed] == [])
        invariant var same := FreeAll(View()) == FreeAll(old(View())); same
        decreases |lists.queues[OnDoomed]|
      {
        FreeVictim();
        none := IsEmpty(OnDoomed);
      }
    }

    /** thread_yield's list_push_back, and the status do_schedule gives. */
    method Requeue()
      requires Valid() && current in threads && Nowhere(lists.queues, current)
      modifies `threads, `shown, lists`chains, lists`queues, lists.objs, lists.all
      ensures Valid() && View() == Machine.Requeue(old(View()))
      ensures idle == Some(current) ==> lists.queues == old(lists.queues)
    {
      if idle != Some(current) { Push(OnReady, current); }
      SetStatus(current, Ready);
    }

    /** thread_yield.  If do_schedule has to wait for the pool lock, the running thread goes on
        the lock's wait list too; unless it is the idle thread it is on the ready list already,
        and from then on no way leads from the head of the ready list to its tail. */
    method ThreadYield()
      requires Steady()
      requires POOL in semas && !Panics(View())
      modifies this, lists`elem, lists`chains, lists`queues, lists.objs, lists.all
      ensures !PoolBusy(old(View())) ==> Steady() && View() == Yield(old(View()))
      ensures YieldsWell(old(View())) ==> Valid() && View() == Yield(old(View()))
      ensures !YieldsWell(old(View())) ==> OnReady in lists.at
      ensures !YieldsWell(old(View())) ==> forall way: seq<Runs.Elem<Tid>> ::
                !KernelList.Leads(way, lists.at[OnReady].head, lists.at[OnReady].tail)
    {
      Unseal();
      SemaListed(POOL);
      var none := IsEmpty(OnDoomed);
      if !none && semas[POOL].value == 0 {
        if idle == Some(current) { YieldIdle(); } else { YieldTwice(); }
      } else {
        YieldFree();
      }
    }

    method YieldFree()
      requires Steady()
      requires POOL in semas && !PoolBusy(View())
      modifies this, lists`elem, lists`chains, lists`queues, lists.objs, lists.all
      ensures Steady() && View() == Yield(old(View()))
    {
      Unseal();
      RunnerFree();
      RequeueInv(View());
      Requeue();
      FreeAllInv(View(), current);
      FreeVictims();
      Reschedule();
    }

    method YieldTwice()
      requires Steady()
      requires POOL in semas && PoolBusy(View()) && idle != Some(current)
      modifies this, lists`elem, lists`chains, lists`queues, lists.objs, lists.all
      ensures OnReady in lists.at
      ensures forall way: seq<Runs.Elem<Tid>> ::
                !KernelList.Leads(way, lists.at[OnReady].head, lists.at[OnReady].tail)
    {
      Unseal();
      RunnerFree();
      RequeueInv(View());
      Requeue();
      SemaListed(POOL);
      PlacedApart();
      assert Machine.Requeue(old(View())).cpu.ready == old(View()).cpu.ready + [current];
      assert current in lists.queues[OnReady] && OnSema(POOL) in lists.queues;
      StillListed(View(), current);
      PopVictim();
      PushAgain();
    }

    method PushAgain()
      requires Valid() && current in threads && POOL in semas && current in lists.queues[OnReady]
      modifies lists.all
      ensures OnReady in lists.at
      ensures forall way: seq<Runs.Elem<Tid>> ::
                !KernelList.Leads(way, lists.at[OnReady].head, lists.at[OnReady].tail)
    {
      SemaListed(POOL);
      assert Look(OfKernel, 0) && Look(OfLists, 0);
      lists.PushTwice(OnSema(POOL), OnReady, current);
    }

    method YieldIdle()
      requires Steady()
      requires POOL in semas && PoolBusy(View()) && !Panics(View()) && idle == Some(current)
      modifies this, lists`elem, lists`chains, lists`queues, lists.objs, lists.all
      ensures Valid() && View() == Yield(old(View()))
    {
      Unseal();
      RunnerFree();
      RequeueInv(View());
      Requeue();
      PlacedApart();
      StillListed(View(), current);
      PopVictim();
      IdleOn(POOL);
    }

    /** sema_down's wait by the idle thread. */
    method IdleOn(id: SemaId)
      requires Valid() && id in semas && idle == Some(current) && current in threads && Nowhere(lists.queues, current)
      requires Separate(lists.queues, threads.Keys)
      modifies this, lists`elem, lists`chains, lists`queues, lists.objs, lists.all
      ensures Valid() && id in old(View()).semas
      ensures var s, x := old(View()), old(View()).semas[id];
              View() == Schedule(Machine.SetStatus(s, s.cpu.current, Blocked).(
                semas := s.semas[id := x.(waiters := x.waiters + [s.cpu.current])]))
    {
      SemaListed(id);
      SeparatePush(lists.queues, threads.Keys, OnSema(id), current);
      Push(OnSema(id), current);
      SetStatus(current, Blocked);
      SwitchThread();
    }

    /** The running thread is marked dying and, unless it is the initial thread, left
        for the next do_schedule to free. */
    method Retire()
      requires Valid() && current in threads && Nowhere(lists.queues, current)
      modifies `threads, `shown, lists`chains, lists`queues, lists.objs, lists.all
      ensures Valid() && View() == Die(old(View()))
    {
      if current != initial { Push(OnDoomed, current); }
      SetThread(threads[current].(status := Dying, pc := Dead));
    }

    /** thread_exit once nothing keeps it from freeing the doomed threads. */
    method Depart()
      requires Steady()
      requires POOL in semas && idle != Some(current) && CanSchedule(View())
      modifies this, lists`elem, lists`chains, lists`queues, lists.objs, lists.all
      ensures Steady() && View() == Machine.Depart(old(View()))
    {
      Unseal();
      FreeAllInv(View(), current);
      FreeVictims();
      RunnerFree();
      DieInv(View());
      Retire();
      Reschedule();
    }

    /** thread_exit's do_schedule waits for the pool lock. */
    method WaitToReap()
      requires Steady()
      requires POOL in semas && PoolBusy(View()) && idle != Some(current)
               && CanSchedule(View())
      modifies this, lists`elem, lists`chains, lists`queues, lists.objs, lists.all
      ensures Steady() && View() == Schedule(WaitOn(DropFirst(old(View())), ToReap))
    {
      Unseal();
      DropRuns(View());
      PlacedApart();
      PopVictim();
      BlockOn(ToReap);
    }

    /** thread_exit, by any thread that does not hold the pool lock while it is busy. */
    method ThreadExit()
      requires Steady()
      requires POOL in semas && !Panics(View()) && idle != Some(current)
               && CanSchedule(View())
      modifies this, lists`elem, lists`chains, lists`queues, lists.objs, lists.all
      ensures Steady() && View() == Exit(old(View()))
    {
      Unseal();
      SemaListed(POOL);
      var none := IsEmpty(OnDoomed);
      if !none && semas[POOL].value == 0 {
        WaitToReap();
      } else {
        Depart();
      }
    }

    /** The end of thread_exit's wait for the pool lock, and its release. */
    method Granted()
      requires Steady()
      requires POOL in semas && semas[POOL].value > 0 && View().Pc().Down? && View().Pc().k == ToReap
      modifies `threads, `semas, `shown, lists`chains, lists`queues, lists.objs, lists.all
      ensures Steady() && View() == Up(Through(old(View()), ToReap), POOL)
      ensures POOL in semas && idle != Some(current)
    {
      Unseal();
      SemaListed(POOL);
      ReapInv(View());
      var _ := SemaTryDown(POOL);
      SetThread(threads[current].(status := Running, pc := User));
      PlacedApart();
      SemaUp(POOL);
    }

    /** thread_exit after its wait for the pool lock, when the lock can be taken. */
    method Reap()
      requires Steady()
      requires POOL in semas && semas[POOL].value > 0 && CanSchedule(View())
      requires View().Pc().Down? && View().Pc().k == ToReap
      modifies this, lists`elem, lists`chains, lists`queues, lists.objs, lists.all
      ensures Steady() && View() == TestValue(old(View()), ToReap)
    {
      Unseal();
      SemaListed(POOL);
      ReapView(View());
      Granted();
      Depart();
    }

    // ------------------------------------------------------------------ alarms

    method SetEarliest(alarm: int)
      requires Valid()
      modifies `earliest
      ensures Valid() && View() == old(View()).(clock := old(View()).clock.(earliest := alarm))
    {
      earliest := alarm;
    }

    /** list_insert_ordered with timer_comparator. */
    method Line(alarm: int)
      requires Valid() && current in threads && Nowhere(lists.queues, current)
      requires current !in lists.queues[OnSleep]
      modifies `shown, lists`chains, lists`queues, lists.objs, lists.all
      ensures Valid()
      ensures var s := old(View());
              View() == WithList(s, OnSleep, PutIn(s.clock.sleeping, Passed(s, s.clock.sleeping, alarm), current))
    {
      assert Look(OfKernel, 0);
      var table := threads[current := threads[current].(alarm := alarm)];
      ghost var s := View();
      ghost var k := Passed(s, s.clock.sleeping, alarm);
      AgreePlace(semas, shown, lists.queues, OnSleep, PutIn(lists.queues[OnSleep], k, current));
      ghost var j := lists.InsertOrdered(OnSleep, current, (x: Tid, y: Tid) => AlarmIn(table, x) <= AlarmIn(table, y));
      PassedFirst(s, s.clock.sleeping, alarm, j);
    }

    /** The alarm and the history that thread_sleep leaves in the running thread. */
    method SetAlarm(alarm: int)
      requires Valid() && current in threads
      modifies `threads, `nextStamp
      ensures Valid()
      ensures View() == old(View()).(threads := old(threads)[current := Thread(Blocked, Asleep, alarm, old(nextStamp))],
                                                clock := old(View()).clock.(nextStamp := old(nextStamp) + 1))
    {
      assert Look(OfKernel, 0);
      threads, nextStamp := threads[current := Thread(Blocked, Asleep, alarm, nextStamp)], nextStamp + 1;
    }

    /** thread_sleep up to thread_block's status change. */
    method Doze(alarm: int)
      requires Valid() && current in threads && Nowhere(lists.queues, current)
      modifies `threads, `shown, `earliest, `nextStamp, lists`chains, lists`queues, lists.objs, lists.all
      ensures Valid() && View() == Machine.Doze(old(View()), alarm)
    {
      Line(alarm);
      SetEarliest(if earliest > alarm then alarm else earliest);
      SetAlarm(alarm);
    }

    /** thread_sleep */
    method ThreadSleep(alarm: int)
      requires Steady()
      requires idle != Some(current) && CanSchedule(View())
      modifies this, lists`chains, lists`queues, lists.objs, lists.all
      ensures Steady() && View() == Schedule(Machine.Doze(old(View()), alarm))
    {
      Unseal();
      RunnerFree();
      DozeInv(View(), alarm);
      Doze(alarm);
      Reschedule();
    }

    /** The alarm read after the front of the sleep list is gone; on an empty list it is
        read through the tail. */
    method NextAlarm() returns (alarm: int)
      requires Valid()
      ensures alarm == if View().clock.sleeping == [] then tailAlarm else AlarmOf(View(), View().clock.sleeping[0])
    {
      var none := IsEmpty(OnSleep);
      if none { return tailAlarm; }
      assert Look(OfKernel, 0);
      var t := lists.Front(OnSleep);
      alarm := AlarmIn(threads, t);
    }

    /** The body of thread_wakeup's loop. */
    method WakeOne()
      requires Valid() && lists.queues[OnSleep] != [] && Separate(lists.queues, threads.Keys)
      modifies `threads, `shown, `earliest, lists`chains, lists`queues, lists.objs, lists.all
      ensures Valid() && View() == WakeFirst(old(View()))
    {
      var t := Pop(OnSleep);
      Unblock(t);
      var alarm := NextAlarm();
      SetEarliest(alarm);
    }

    /** The lists and the alarms are in order. */
    ghost predicate Timed()
      reads this, lists, lists.objs, lists.all
    {
      Valid() && Inv(View()) && Alarms.AlarmsOk(threads, View().clock)
    }

    /** One round of thread_wakeup's loop. */
    method WakeNext()
      requires var timed := Timed(); timed
      requires ticks >= earliest
      modifies `threads, `shown, `earliest, lists`chains, lists`queues, lists.objs, lists.all
      ensures var timed := Timed(); timed
      ensures View() == WakeFirst(old(View())) && |lists.queues[OnSleep]| < |old(lists.queues[OnSleep])|
      ensures WakeDue(View()) == WakeDue(old(View()))
    {
      Alarms.SomeoneDue(threads, View().clock);
      Alarms.WakeFirstAlarms(View());
      WakeFirstInv(View());
      PlacedApart();
      WakeOne();
    }

    /** thread_wakeup: nothing stops the loop at the end of the queue but the value
        read through its tail. */
    method ThreadWakeup()
      requires var timed := Timed(); timed
      modifies `threads, `shown, `earliest, lists`chains, lists`queues, lists.objs, lists.all
      ensures Steady() && View() == Wakeup(old(View()))
    {
      var none := IsEmpty(OnSleep);
      if none {
        SetEarliest(INT64_MAX);
      } else {
        while ticks >= earliest
          invariant var timed := Timed(); timed
          invariant WakeDue(View()) == WakeDue(old(View()))
          decreases |lists.queues[OnSleep]|
        {
          WakeNext();
        }
      }
    }

    method Advance()
      requires Valid()
      modifies `ticks, `sliceTicks
      ensures Valid() && View() == old(View()).(clock := old(View()).clock.(ticks := old(ticks) + 1),
                                                cpu := old(View()).cpu.(sliceTicks := old(sliceTicks) + 1))
    {
      ticks, sliceTicks := ticks + 1, sliceTicks + 1;
    }

    /** timer_interrupt */
    method CountTick()
      requires Steady()
      requires Alarms.AlarmsOk(threads, View().clock) && ticks + 1 < tailAlarm
      modifies `threads, `shown, `earliest, `ticks, `sliceTicks, lists`chains, lists`queues, lists.objs, lists.all
      ensures Steady() && View() == Count(old(View()))
    {
      Unseal();
      Alarms.TickLater(threads, View().clock);
      Advance();
      ThreadWakeup();
    }

    /** timer_interrupt, and intr_handler's yield on return. */
    method TimerInterrupt()
      requires Steady()
      requires Alarms.AlarmsOk(threads, View().clock) && POOL in semas
      requires ticks + 1 < tailAlarm && (SliceEnds(View()) ==> !Panics(View()))
      modifies this, lists`elem, lists`chains, lists`queues, lists.objs, lists.all
      ensures !SliceEnds(old(View())) || !PoolBusy(old(View())) ==> Steady() && View() == Tick(old(View()))
      ensures TicksWell(old(View())) ==> Valid() && View() == Tick(old(View()))
      ensures !TicksWell(old(View())) ==> OnReady in lists.at
      ensures !TicksWell(old(View())) ==> forall way: seq<Runs.Elem<Tid>> ::
                !KernelList.Leads(way, lists.at[OnReady].head, lists.at[OnReady].tail)
    {
      Unseal();
      var yieldOnReturn := sliceTicks + 1 >= TIME_SLICE;
      CountBusy(View());
      CountTick();
      if yieldOnReturn { ThreadYield(); }
    }
  }

  /** The running thread does not have to go on two lists to yield. */
  predicate YieldsWell(s: State) {
    !PoolBusy(s) || s.cpu.idle == Some(s.cpu.current)
  }

  predicate TicksWell(s: State) {
    SliceEnds(s) ==> YieldsWell(s)
  }

  /** The running thread stays where it is when a doomed one goes. */
  lemma StillListed(s: State, t: Tid)
    requires Placed(s) && s.doomed != [] && t in s.threads && s.threads[t].status != Dying
    ensures t in DropFirst(s).threads
  {
    assert IsDoomed(s.threads, s.cpu.initial, s.doomed[0]);
  }

  lemma ReapInv(s: State)
    requires Inv(s) && s.Pc().Down? && s.Pc().k == ToReap && SemaOf(s, POOL).value > 0
    ensures var r := Through(s, ToReap);
            Inv(r) && Inv(Up(r, POOL)) && r.Pc() == User && s.cpu.idle != Some(s.cpu.current)
  {
    TakeInv(s, POOL);
    SetPcInv(Take(s, POOL), User);
    UpFull(Through(s, ToReap), POOL);
  }

  /** A thread that goes on with thread_exit has threads to leave to. */
  lemma ReapView(s: State)
    requires SemaOf(s, POOL).value > 0 && CanSchedule(s)
    ensures var r := Up(Through(s, ToReap), POOL); CanSchedule(r) && TestValue(s, ToReap) == Machine.Depart(r)
  {
  }

  function AlarmIn(table: Table, t: Tid): int {
    if t in table then table[t].alarm else 0
  }

  /** The first sleeper that the alarm does not come after. */
  lemma {:induction false} PassedFirst(s: State, list: seq<Tid>, alarm: int, k: nat)
    requires k <= |list| && (forall i :: 0 <= i < k ==> !(alarm <= AlarmOf(s, list[i])))
    requires k < |list| ==> alarm <= AlarmOf(s, list[k])
    ensures k == Passed(s, list, alarm)
    decreases |list|
  {
    if k > 0 { PassedFirst(s, list[1..], alarm, k - 1); }
  }

  /** Taking a doomed thread off its list and freeing its page can be told in either order. */
  lemma DropCommutes(s: State)
    requires Placed(s) && s.doomed != []
    ensures FreeFirst(s) == Up(Take(DropFirst(s), POOL), POOL)
  {
    var t := s.doomed[0];
    assert IsDoomed(s.threads, s.cpu.initial, t);
    var waiters := SemaOf(s, POOL).waiters;
    if POOL in s.semas && waiters != [] {
      assert WaitOk(s.threads, POOL, waiters) && IsWaiting(s.threads, POOL, waiters[0]);
      var x := s.threads[waiters[0]].(status := Ready);
      assert (s.threads - {t})[waiters[0] := x] == s.threads[waiters[0] := x] - {t};
    }
  }

  lemma SeparateForget(qs: Threads, keys: set<Tid>, t: Tid)
    requires Separate(qs, keys) && Nowhere(qs, t)
    ensures Separate(qs, keys - {t})
  {
    assert Look(OfQueues, 0);
  }

  lemma AgreeIn(semas: Counters, shown: map<SemaId, Semaphore>, qs: Threads, p: Place)
    requires Agree(semas, shown, qs) && p in qs && p.OnSema?
    ensures p.id in semas
  {
    assert Look(OfQueues, 0);
  }

  /** No thread is on two lists, or twice on one. */
  ghost predicate Separate(qs: Threads, keys: set<Tid>) {
    forall z: nat {:trigger Look(OfQueues, z)} :: Look(OfQueues, z) ==>
      && (forall p :: p in qs ==> NoDup(qs[p]))
      && (forall p, t :: p in qs && t in qs[p] ==> t in keys)
      && (forall p, q, t :: p in qs && q in qs && t in qs[p] && t in qs[q] ==> p == q)
  }

  lemma ListsApart(s: State, qs: Threads)
    requires Placed(s) && forall p :: p in qs ==> ListAt(s, p) == qs[p]
    ensures Separate(qs, s.threads.Keys)
  {
    forall p, t | p in qs && t in qs[p]
      ensures t in s.threads && PlaceOf(s.threads, t) == p
    {
      ListedAt(s, p, t);
    }
    forall p | p in qs
      ensures NoDup(qs[p])
    {
      if qs[p] != [] { ListedAt(s, p, qs[p][0]); }
    }
  }

  lemma SeparatePop(qs: Threads, keys: set<Tid>, p: Place)
    requires Separate(qs, keys) && p in qs && qs[p] != []
    ensures qs[p][0] in keys && Nowhere(qs[p := qs[p][1..]], qs[p][0]) && Separate(qs[p := qs[p][1..]], keys)
  {
    assert Look(OfQueues, 0);
    TailOf(qs[p]);
  }

  lemma SeparatePush(qs: Threads, keys: set<Tid>, p: Place, t: Tid)
    requires Separate(qs, keys) && p in qs && t in keys && Nowhere(qs, t)
    ensures Separate(qs[p := qs[p] + [t]], keys)
  {
    assert Look(OfQueues, 0);
    Appended(qs[p], t);
  }

  lemma AgreeFirst(places: seq<Place>, semas: Counters, shown: map<SemaId, Semaphore>, qs: Threads)
    requires places == [OnReady, OnSleep, OnDoomed, OnSema(OfLock(TID_LOCK)), OnSema(POOL)]
    requires forall p :: p in qs <==> p in places
    requires forall p :: p in qs ==> qs[p] == []
    requires semas == map[OfLock(TID_LOCK) := Counter(1, 1, 0, 0), POOL := Counter(1, 1, 0, 0)]
    requires shown == map[OfLock(TID_LOCK) := Semaphore(1, [], 1, 0, 0), POOL := Semaphore(1, [], 1, 0, 0)]
    ensures Agree(semas, shown, qs)
  {
    assert forall p :: p in places ==>
             p == places[0] || p == places[1] || p == places[2] || p == places[3] || p == places[4];
    assert places[0] in places && places[1] in places && places[2] in places && places[3] in places
           && places[4] in places;
  }
}
