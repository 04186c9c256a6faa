/** The one hypothesis of the placement theorem is needed: a run, made only of
    allowed steps, to a state in which the next yield waits for the page
    allocator's lock and so puts the yielding thread on two lists. */
module BusyPool {
  import opened Wrappers
  import opened Machine
  import opened Placement
  import opened Reachable
  import opened Theorems

  const FREE := Semaphore(1, [], 1, 0, 0)

  function Start(): State {
    State(map[0 := Thread(Running, User, 0, 0)], Cpu(0, 0, None, [], 0, 0), Clock([], INT64_MAX, 1000, 0, 0), [],
          map[OfLock(TID_LOCK) := FREE, POOL := FREE],
          Monitor(map[TID_LOCK := None, POOL_LOCK := None], map[], map[TID_LOCK := None, POOL_LOCK := None], map[],
                  {}, 0))
  }

  lemma StartsThere()
    ensures Init(Start())
  {
  }

  /** One more step. */
  lemma {:induction false} Then(s: State, steps: seq<Step>, r: State, step: Step)
    requires Run(s, steps) == Some(r) && Allowed(r, step)
    ensures Run(s, steps + [step]) == Some(Do(r, step))
    decreases |steps|
  {
    if steps == [] {
      assert Run(Do(s, step), []) == Some(Do(s, step));
    } else {
      Then(Do(s, steps[0]), steps[1..], r, step);
      assert (steps + [step])[1..] == steps[1..] + [step];
    }
  }

  /** What of a state the run depends on. */
  predicate Scene(s: State, cur: Tid, pc: Pc, ready: seq<Tid>, doomed: seq<Tid>) {
    && s.cpu.current == cur && s.cpu.initial == 0 && cur in s.threads && s.threads[cur].pc == pc
    && s.cpu.ready == ready && s.doomed == doomed && s.cpu.idle == None
    && POOL in s.semas && s.semas[POOL].waiters == [] && POOL_LOCK in s.mon.holder
  }

  /** The lock is free, and nobody waits for it. */
  predicate Free(s: State, l: LockId) {
    OfLock(l) in s.semas && s.semas[OfLock(l)].value == 1 && s.semas[OfLock(l)].waiters == []
    && l in s.mon.holder && s.mon.holder[l] == None
  }

  predicate AtUser(s: State, t: Tid) {
    t in s.threads && s.threads[t].pc == User
  }

  /** Three more steps. */
  lemma ThenThree(s0: State, steps: seq<Step>, s: State, a: Step, b: Step, c: Step)
    requires Run(s0, steps) == Some(s) && Allowed(s, a) && Allowed(Do(s, a), b) && Allowed(Do(Do(s, a), b), c)
    ensures Run(s0, steps + [a] + [b] + [c]) == Some(Do(Do(Do(s, a), b), c))
  {
    Then(s0, steps, s, a);
    Then(s0, steps + [a], Do(s, a), b);
    Then(s0, steps + [a] + [b], Do(Do(s, a), b), c);
  }

  // --------------------------------------------------------- thread 0 creates a thread

  lemma CreateCalls(s: State, child: Tid, ready: seq<Tid>)
    requires Scene(s, 0, User, ready, []) && Free(s, POOL_LOCK) && Free(s, TID_LOCK) && child !in s.threads
    ensures var r := Do(s, CallCreate(child));
            && Allowed(s, CallCreate(child)) && Scene(r, 0, Down(ToHolder(TID_LOCK, ByCreate(child)), false), ready, [])
            && Free(r, POOL_LOCK) && Free(r, TID_LOCK) && Joined(s, r, child)
  {
  }

  /** The child is new, and everyone else but thread 0 is where it was. */
  predicate Joined(s: State, r: State, child: Tid) {
    r.threads.Keys == s.threads.Keys + {child} && forall t :: t in s.threads && t != 0 ==> r.threads[t] == s.threads[t]
  }

  lemma JoinedAside(a: State, b: State, c: State, child: Tid)
    requires Joined(a, b, child) && Aside(b, c, child) && child !in a.threads
    ensures Joined(a, c, child)
  {
  }

  /** Everyone but thread 0 and the child is where it was. */
  predicate Aside(s: State, r: State, child: Tid) {
    r.threads.Keys == s.threads.Keys && forall t :: t in s.threads && t != 0 && t != child ==>
        r.threads[t] == s.threads[t]
  }

  /** The tid lock is down and nobody waits for it. */
  predicate TidTaken(s: State) {
    var id := OfLock(TID_LOCK);
    id in s.semas && s.semas[id].value == 0 && s.semas[id].waiters == []
  }

  lemma CreateAcquires(s: State, child: Tid, ready: seq<Tid>)
    requires Scene(s, 0, Down(ToHolder(TID_LOCK, ByCreate(child)), false), ready, []) && Free(s, POOL_LOCK)
             && Free(s, TID_LOCK)
    ensures var r := Do(s, Proceed);
            && Allowed(s, Proceed) && Scene(r, 0, SetHolder(TID_LOCK, ByCreate(child)), ready, []) && Free(r, POOL_LOCK)
            && TidTaken(r) && TID_LOCK in r.mon.holder && Aside(s, r, child)
  {
  }

  lemma CreateHolds(s: State, child: Tid, ready: seq<Tid>)
    requires Scene(s, 0, SetHolder(TID_LOCK, ByCreate(child)), ready, []) && Free(s, POOL_LOCK)
    ensures var r := Do(s, Proceed);
            && Allowed(s, Proceed) && Scene(r, 0, ClearHolder(TID_LOCK, ByCreate(child)), ready, [])
            && Free(r, POOL_LOCK)
            && r.semas == s.semas && TID_LOCK in r.mon.holder && Aside(s, r, child)
  {
  }

  /** thread_create, up to the release of the tid lock. */
  lemma CreateBegins(s0: State, steps: seq<Step>, s: State, child: Tid, ready: seq<Tid>)
      returns (steps': seq<Step>, r: State)
    requires Run(s0, steps) == Some(s) && Scene(s, 0, User, ready, []) && Free(s, POOL_LOCK) && Free(s, TID_LOCK)
             && child !in s.threads
    ensures Run(s0, steps') == Some(r)
    ensures var made := Creating(s, r, child, ready); made
  {
    r := CreateEnters(s, child, ready);
    steps' := steps + [CallCreate(child)] + [Proceed] + [Proceed];
    ThenThree(s0, steps, s, CallCreate(child), Proceed, Proceed);
  }

  /** thread_create has the tid lock, and is about to release it. */
  ghost predicate Creating(s: State, r: State, child: Tid, ready: seq<Tid>) {
    && Scene(r, 0, ClearHolder(TID_LOCK, ByCreate(child)), ready, []) && Free(r, POOL_LOCK)
    && TidTaken(r) && TID_LOCK in r.mon.holder && Joined(s, r, child)
  }

  lemma CreateEnters(s: State, child: Tid, ready: seq<Tid>) returns (r: State)
    requires Scene(s, 0, User, ready, []) && Free(s, POOL_LOCK) && Free(s, TID_LOCK) && child !in s.threads
    ensures r == Do(Do(Do(s, CallCreate(child)), Proceed), Proceed)
    ensures Allowed(s, CallCreate(child)) && Allowed(Do(s, CallCreate(child)), Proceed)
            && Allowed(Do(Do(s, CallCreate(child)), Proceed), Proceed)
    ensures var made := Creating(s, r, child, ready); made
  {
    var s1 := Do(s, CallCreate(child));
    var s2 := Do(s1, Proceed);
    r := Do(s2, Proceed);
    CreateCalls(s, child, ready);
    CreateAcquires(s1, child, ready);
    JoinedAside(s, s1, s2, child);
    CreateHolds(s2, child, ready);
    JoinedAside(s, s2, r, child);
  }

  lemma CreateReleases(s: State, child: Tid, ready: seq<Tid>)
    requires Scene(s, 0, ClearHolder(TID_LOCK, ByCreate(child)), ready, []) && Free(s, POOL_LOCK)
             && TID_LOCK in s.mon.holder
    ensures var r := Do(s, Proceed);
            && Allowed(s, Proceed) && Scene(r, 0, UpLock(TID_LOCK, ByCreate(child)), ready, []) && Free(r, POOL_LOCK)
            && r.semas == s.semas && TID_LOCK in r.mon.holder && r.mon.holder[TID_LOCK] == None && Aside(s, r, child)
  {
  }

  lemma CreateUps(s: State, child: Tid, ready: seq<Tid>)
    requires Scene(s, 0, UpLock(TID_LOCK, ByCreate(child)), ready, []) && Free(s, POOL_LOCK)
    requires TidTaken(s)
    requires TID_LOCK in s.mon.holder && s.mon.holder[TID_LOCK] == None
    ensures var r := Do(s, Proceed);
            && Allowed(s, Proceed) && Scene(r, 0, Unblock(child), ready, []) && Free(r, POOL_LOCK) && Free(r, TID_LOCK)
            && Aside(s, r, child)
  {
  }

  lemma CreateUnblocks(s: State, child: Tid, ready: seq<Tid>)
    requires Scene(s, 0, Unblock(child), ready, []) && Free(s, POOL_LOCK) && Free(s, TID_LOCK)
             && child in s.threads && child != 0
    ensures var r := Do(s, Proceed);
            && Allowed(s, Proceed) && Scene(r, 0, User, ready + [child], []) && Free(r, POOL_LOCK) && Free(r, TID_LOCK)
            && AtUser(r, child) && Aside(s, r, child)
  {
  }

  /** The rest of thread_create. */
  lemma CreateEnds(s0: State, steps: seq<Step>, s: State, child: Tid, ready: seq<Tid>)
      returns (steps': seq<Step>, r: State)
    requires Run(s0, steps) == Some(s) && Scene(s, 0, ClearHolder(TID_LOCK, ByCreate(child)), ready, [])
             && Free(s, POOL_LOCK)
    requires TidTaken(s)
    requires TID_LOCK in s.mon.holder && child in s.threads && child != 0
    ensures Run(s0, steps') == Some(r) && Scene(r, 0, User, ready + [child], []) && Free(r, POOL_LOCK)
            && Free(r, TID_LOCK)
    ensures AtUser(r, child) && Aside(s, r, child)
  {
    CreateReleases(s, child, ready);
    CreateUps(Do(s, Proceed), child, ready);
    CreateUnblocks(Do(Do(s, Proceed), Proceed), child, ready);
    ThenThree(s0, steps, s, Proceed, Proceed, Proceed);
    steps', r := steps + [Proceed] + [Proceed] + [Proceed], Do(Do(Do(s, Proceed), Proceed), Proceed);
  }

  /** thread_create in thread 0. */
  lemma Creates(s0: State, steps: seq<Step>, s: State, child: Tid, ready: seq<Tid>)
      returns (steps': seq<Step>, r: State)
    requires Run(s0, steps) == Some(s) && Scene(s, 0, User, ready, []) && Free(s, POOL_LOCK) && Free(s, TID_LOCK)
             && child !in s.threads
    requires 0 in s.threads && forall t :: t in s.threads ==> AtUser(s, t)
    ensures Run(s0, steps') == Some(r) && Scene(r, 0, User, ready + [child], []) && Free(r, POOL_LOCK)
            && Free(r, TID_LOCK)
    ensures r.threads.Keys == s.threads.Keys + {child} && forall t :: t in r.threads ==> AtUser(r, t)
  {
    var s1: State;
    steps', s1 := CreateBegins(s0, steps, s, child, ready);
    steps', r := CreateEnds(s0, steps', s1, child, ready);
    forall t | t in r.threads ensures AtUser(r, t) { assert t != 0 && t != child ==> AtUser(s, t); }
  }

  // ------------------------------------------- thread 0 takes the page allocator's lock

  /** Everyone but thread 0 is where it was. */
  predicate Others(s: State, r: State) {
    r.threads.Keys == s.threads.Keys && forall t :: t in s.threads && t != 0 ==> r.threads[t] == s.threads[t]
  }

  lemma PoolCalls(s: State, ready: seq<Tid>)
    requires Scene(s, 0, User, ready, []) && Free(s, POOL_LOCK)
    ensures var r := Do(s, CallAcquire(POOL_LOCK));
            && Allowed(s, CallAcquire(POOL_LOCK)) && Scene(r, 0, Down(ToHolder(POOL_LOCK, ByUser), false), ready, [])
            && Free(r, POOL_LOCK) && Others(s, r)
  {
  }

  lemma PoolAcquires(s: State, ready: seq<Tid>)
    requires Scene(s, 0, Down(ToHolder(POOL_LOCK, ByUser), false), ready, []) && Free(s, POOL_LOCK)
    ensures var r := Do(s, Proceed);
            && Allowed(s, Proceed) && Scene(r, 0, SetHolder(POOL_LOCK, ByUser), ready, []) && r.semas[POOL].value == 0
            && Others(s, r)
  {
  }

  lemma PoolHolds(s: State, ready: seq<Tid>)
    requires Scene(s, 0, SetHolder(POOL_LOCK, ByUser), ready, []) && s.semas[POOL].value == 0
    ensures var r := Do(s, Proceed); Allowed(s, Proceed) && Scene(r, 0, User, ready, []) && Locked(r) && Others(s, r)
  {
  }

  /** Thread 0 holds the pool lock. */
  predicate Locked(s: State) {
    POOL in s.semas && s.semas[POOL].value == 0 && POOL_LOCK in s.mon.holder && s.mon.holder[POOL_LOCK] == Some(0)
  }

  lemma PoolTaken(s0: State, steps: seq<Step>, s: State, ready: seq<Tid>) returns (steps': seq<Step>, r: State)
    requires Run(s0, steps) == Some(s) && Scene(s, 0, User, ready, []) && Free(s, POOL_LOCK)
    ensures Run(s0, steps') == Some(r) && Scene(r, 0, User, ready, []) && Locked(r) && Others(s, r)
  {
    var call := CallAcquire(POOL_LOCK);
    PoolCalls(s, ready);
    PoolAcquires(Do(s, call), ready);
    PoolHolds(Do(Do(s, call), Proceed), ready);
    ThenThree(s0, steps, s, call, Proceed, Proceed);
    steps', r := steps + [call] + [Proceed] + [Proceed], Do(Do(Do(s, call), Proceed), Proceed);
  }

  // ------------------------------------- thread 0 yields, thread 1 exits, thread 2 is next

  lemma HolderYields(s: State)
    requires Scene(s, 0, User, [1, 2], []) && Locked(s) && AtUser(s, 1) && AtUser(s, 2)
    ensures var r := Do(s, CallYield);
            Allowed(s, CallYield) && Scene(r, 1, User, [2, 0], []) && Locked(r) && AtUser(r, 2)
  {
  }

  lemma ChildExits(s: State)
    requires Scene(s, 1, User, [2, 0], []) && Locked(s) && AtUser(s, 2)
    ensures var r := Do(s, CallExit); Allowed(s, CallExit) && Scene(r, 2, User, [0], [1]) && Locked(r)
  {
  }

  /** Two threads are created and the lock is taken. */
  lemma Prepares() returns (steps: seq<Step>, r: State)
    ensures Run(Start(), steps) == Some(r) && Scene(r, 0, User, [1, 2], []) && Locked(r) && AtUser(r, 1) && AtUser(r, 2)
  {
    var s: State;
    StartsThere();
    steps, s := Creates(Start(), [], Start(), 1, []);
    assert [] + [1] == [1] && [1] + [2] == [1, 2];
    steps, s := Creates(Start(), steps, s, 2, [1]);
    assert AtUser(s, 1) && AtUser(s, 2);
    steps, r := PoolTaken(Start(), steps, s, [1, 2]);
  }

  /** The holder is preempted and another thread dies. */
  lemma Reaches() returns (steps: seq<Step>, r: State)
    ensures Run(Start(), steps) == Some(r) && Scene(r, 2, User, [0], [1]) && Locked(r)
  {
    var s: State;
    steps, s := Prepares();
    HolderYields(s);
    Then(Start(), steps, s, CallYield);
    ChildExits(Do(s, CallYield));
    Then(Start(), steps + [CallYield], Do(s, CallYield), CallExit);
    steps, r := steps + [CallYield] + [CallExit], Do(Do(s, CallYield), CallExit);
  }

  /** An execution to a state in which thread 2 is about to yield, thread 1 waits to be
      freed and thread 0 holds the page allocator's lock.  The yield puts thread 2 on the
      ready list and on the lock's wait list. */
  lemma BusyYieldHappens() returns (steps: seq<Step>, r: State)
    ensures Init(Start()) && Run(Start(), steps) == Some(r)
    ensures Inv(r) && r.cpu.current == 2 && r.Pc() == User && PoolBusy(r) && Locked(r)
    ensures 2 in ListAt(Yield(r), OnReady) && 2 in ListAt(Yield(r), OnSema(POOL)) && !Inv(Yield(r))
  {
    steps, r := Reaches();
    YieldsTwice(r);
    StartsThere();
    InitGood(Start());
    RunGood(Start(), steps);
    BusyYieldBreaks(r);
  }

  lemma YieldsTwice(s: State)
    requires Scene(s, 2, User, [0], [1]) && Locked(s)
    ensures PoolBusy(s) && !Panics(s) && s.Pc() == User
    ensures 2 in ListAt(Yield(s), OnReady) && 2 in ListAt(Yield(s), OnSema(POOL))
  {
    assert Yield(s).cpu.current == 0;
    BusyYieldLists(s);
  }
}
