/** The kernel's thread system as a step machine: threads/thread.c,
    threads/synch.c, devices/timer.c and the part of threads/interrupt.c that
    yields on return.

    A step is one region the kernel runs with interrupts off, or one access to
    shared state made while they are on.  A thread's program counter says which
    such step inside a primitive it takes next, so a thread can be preempted at
    every point where the kernel can.

    The functions are total: asked about a thread or a semaphore that does not
    exist they change nothing.  `Reachable` shows that no run gets there. */
module Machine {
  import opened Wrappers

  type Tid = nat       // the page a thread structure lives in
  type LockId = nat
  type CondId = nat
  type WaiterId = nat  // one activation of cond_wait

  datatype SemaId = Plain(n: nat) | OfLock(l: LockId) | OfWaiter(w: WaiterId)

  /** Locks the thread system itself uses. */
  const TID_LOCK: LockId := 0
  const POOL_LOCK: LockId := 1
  const POOL := OfLock(POOL_LOCK)

  const TIME_SLICE := 4
  const INT64_MAX: int := 0x7FFF_FFFF_FFFF_FFFF

  datatype Status = Running | Ready | Blocked | Dying

  /** On whose behalf a lock is taken or released. */
  datatype Ctx = ByUser | ByWait(c: CondId, w: WaiterId) | ByCreate(child: Tid)

  /** What a thread does once its `sema_down` completes. */
  datatype Kont =
    | ToUser(n: nat)
    | ToHolder(l: LockId, ctx: Ctx)
    | ToReacquire(c: CondId, w: WaiterId, l: LockId)
    | ToReap                                 // thread_exit, freeing the page of a thread that died before it
  {
    /** The semaphore being waited for. */
    function Sema(): SemaId {
      match this
      case ToUser(n) => Plain(n)
      case ToHolder(l, _) => OfLock(l)
      case ToReacquire(_, w, _) => OfWaiter(w)
      case ToReap => POOL
    }
  }

  datatype Pc =
    | User                                   // outside the primitives
    | Down(k: Kont, waited: bool)            // about to test the value; waited: inside or just out of thread_block
    | SetHolder(l: LockId, ctx: Ctx)         // lock_acquire, between the down and the holder write
    | ClearHolder(l: LockId, ctx: Ctx)       // lock_release, about to clear the holder
    | UpLock(l: LockId, ctx: Ctx)            // lock_release, between the holder write and the up
    | UpWaiter(c: CondId, w: WaiterId, more: bool)  // cond_signal, about to up; more: inside cond_broadcast
    | Broadcast(c: CondId)                   // cond_broadcast, about to test the list
    | Unblock(child: Tid)                    // thread_create, about to unblock the new thread
    | Asleep                                 // thread_sleep, inside or just out of thread_block
    | IdleStart(n: nat)                      // the idle thread, about to up idle_started
    | IdleLoop                               // the idle thread, about to block
    | IdleWait                               // the idle thread, inside or just out of thread_block
    | Embryo(parent: Tid)                    // created, never run
    | Dead

  datatype Thread = Thread(status: Status, pc: Pc, alarm: int, stamp: nat)

  /** A semaphore; `init`, `ups` and `downs` record its history. */
  datatype Semaphore = Semaphore(value: nat, waiters: seq<Tid>, init: nat, ups: nat, downs: nat)

  /** A condition variable; `lock` is the one it belongs to, `queued` and
      `signalled` record every waiter ever put in and taken out of its list. */
  datatype Condition = Condition(lock: LockId, waiters: seq<WaiterId>, queued: seq<WaiterId>, signalled: seq<WaiterId>)

  datatype Call = Call(t: Tid, c: CondId)

  /** What the scheduler keeps. */
  datatype Cpu = Cpu(
    current: Tid,
    initial: Tid,
    idle: Option<Tid>,
    ready: seq<Tid>,
    sliceTicks: nat,                     // thread_ticks
    picks: nat)                          // history: how often schedule() took a thread off the ready list

  /** What the timer and the alarm queue keep. */
  datatype Clock = Clock(
    sleeping: seq<Tid>,
    earliest: int,                       // earliest_wake_up_tick
    tailAlarm: int,                      // read as an alarm through the tail of an empty sleep list: a kernel address
    ticks: int,
    nextStamp: nat)                      // history: numbers the calls of thread_sleep

  /** What locks and condition variables keep besides their semaphores. */
  datatype Monitor = Monitor(
    holder: map<LockId, Option<Tid>>,
    conds: map<CondId, Condition>,
    // history
    owner: map<LockId, Option<Tid>>,     // who is between its down and its up
    calls: map<WaiterId, Call>,          // every call of cond_wait
    returned: set<WaiterId>,             // which calls of cond_wait have returned
    nextWaiter: WaiterId)

  type Table = map<Tid, Thread>

  datatype State = State(
    threads: Table,
    cpu: Cpu,
    clock: Clock,
    doomed: seq<Tid>,                    // destruction_req
    semas: map<SemaId, Semaphore>,
    mon: Monitor)
  {
    function Pc(): Pc {
      if cpu.current in threads then threads[cpu.current].pc else Dead
    }
  }

  // ------------------------------------------------------------- scheduling

  function SetThread(s: State, t: Tid, status: Status, pc: Pc): State {
    if t in s.threads then s.(threads := s.threads[t := s.threads[t].(status := status, pc := pc)]) else s
  }

  function SetPc(s: State, pc: Pc): State {
    SetThread(s, s.cpu.current, Running, pc)
  }

  function SetStatus(s: State, t: Tid, status: Status): State {
    if t in s.threads then SetThread(s, t, status, s.threads[t].pc) else s
  }

  /** A thread that comes out of `thread_block` still has interrupts off. */
  predicate ResumesOff(pc: Pc) {
    (pc.Down? && pc.waited) || pc.Asleep? || pc.IdleWait?
  }

  predicate InterruptsOn(s: State) {
    !ResumesOff(s.Pc())
  }

  /** Whether next_thread_to_run finds a thread. */
  predicate CanSchedule(s: State) {
    s.cpu.ready != [] || s.cpu.idle.Some?
  }

  /** schedule: the running thread's status has been changed already. */
  function Schedule(s: State): (r: State)
    ensures r.mon == s.mon
  {
    if s.cpu.ready != [] then
      SetStatus(s, s.cpu.ready[0], Running).(
        cpu := s.cpu.(current := s.cpu.ready[0], ready := s.cpu.ready[1..], picks := s.cpu.picks + 1, sliceTicks := 0))
    else if s.cpu.idle.Some? then
      SetStatus(s, s.cpu.idle.value, Running).(cpu := s.cpu.(current := s.cpu.idle.value, sliceTicks := 0))
    else s
  }

  /** thread_unblock */
  function Wake(s: State, t: Tid): (r: State)
    ensures r.mon == s.mon
  {
    SetStatus(s, t, Ready).(cpu := s.cpu.(ready := s.cpu.ready + [t]))
  }

  // ------------------------------------------------------------- semaphores

  /** Semaphore operations only append to the ready list and leave the rest of
      the scheduler's state alone. */
  predicate SameRest(s: State, r: State) {
    && s.cpu.ready <= r.cpu.ready && r.cpu == s.cpu.(ready := r.cpu.ready)
    && r.clock == s.clock && r.mon == s.mon
  }

  function SemaOf(s: State, id: SemaId): Semaphore {
    if id in s.semas then s.semas[id] else Semaphore(0, [], 0, 0, 0)
  }

  /** The lists a thread's `elem` can be on. */
  datatype Place = OnReady | OnSleep | OnDoomed | OnSema(id: SemaId)

  function ListAt(s: State, p: Place): seq<Tid> {
    match p
    case OnReady => s.cpu.ready
    case OnSleep => s.clock.sleeping
    case OnDoomed => s.doomed
    case OnSema(id) => SemaOf(s, id).waiters
  }

  function Taken(x: Semaphore): Semaphore {
    if x.value == 0 then x else x.(value := x.value - 1, downs := x.downs + 1)
  }

  function Upped(x: Semaphore): Semaphore {
    x.(value := x.value + 1, ups := x.ups + 1, waiters := if x.waiters == [] then [] else x.waiters[1..])
  }

  /** The effect of a completed sema_down or successful sema_try_down. */
  function Take(s: State, id: SemaId): (r: State)
    ensures r.doomed == s.doomed && r.threads == s.threads && SameRest(s, r)
  {
    if id !in s.semas then s else s.(semas := s.semas[id := Taken(s.semas[id])])
  }

  /** sema_up */
  function Up(s: State, id: SemaId): (r: State)
    ensures r.doomed == s.doomed && r.threads.Keys == s.threads.Keys && SameRest(s, r)
  {
    var waiters := SemaOf(s, id).waiters;
    if id !in s.semas then s else
      var r := s.(semas := s.semas[id := Upped(s.semas[id])]);
      if waiters == [] then r else Wake(r, waiters[0])
  }

  /** The body of sema_down's loop: queue the running thread and block it. */
  function WaitOn(s: State, k: Kont): State {
    var sema := SemaOf(s, k.Sema());
    SetThread(s, s.cpu.current, Blocked, Down(k, true)).(
      semas := s.semas[k.Sema() := sema.(waiters := sema.waiters + [s.cpu.current])])
  }

  /** Where a thread goes when its sema_down completes. */
  function Completed(k: Kont): Pc {
    match k
    case ToUser(_) => User
    case ToHolder(l, ctx) => SetHolder(l, ctx)
    case ToReacquire(c, w, l) => Down(ToHolder(l, ByWait(c, w)), false)
    case ToReap => User
  }

  /** A completed sema_down. */
  function Through(s: State, k: Kont): State {
    var s1 := SetPc(Take(s, k.Sema()), Completed(k));
    if k.ToHolder? then s1.(mon := s1.mon.(owner := s1.mon.owner[k.l := Some(s.cpu.current)])) else s1
  }

  // ------------------------------------------- yielding, exit, destruction

  predicate Holds(s: State, l: LockId) {
    l in s.mon.holder && s.mon.holder[l] == Some(s.cpu.current)
  }

  /** do_schedule has a thread to free but must wait for the pool lock. */
  predicate PoolBusy(s: State) {
    s.doomed != [] && SemaOf(s, POOL).value == 0
  }

  /** The first doomed thread leaves the list, and the model: nothing refers to it while
      its page is freed. */
  function DropFirst(s: State): State {
    if s.doomed == [] then s else s.(threads := s.threads - {s.doomed[0]}, doomed := s.doomed[1..])
  }

  /** One round of do_schedule's loop: palloc_free_page takes and releases the
      pool lock, which may wake a thread waiting for it. */
  function FreeFirst(s: State): (r: State)
    ensures r.doomed == (if s.doomed == [] then [] else s.doomed[1..]) && SameRest(s, r)
  {
    DropFirst(Up(Take(s, POOL), POOL))
  }

  function FreeAll(s: State): (r: State)
    ensures r.doomed == [] && SameRest(s, r)
    decreases |s.doomed|
  {
    if s.doomed == [] then s else FreeAll(FreeFirst(s))
  }

  /** thread_yield puts every thread but the idle one on the ready list. */
  function Requeue(s: State): (r: State)
    ensures r.mon == s.mon
  {
    if s.cpu.idle == Some(s.cpu.current) then SetStatus(s, s.cpu.current, Ready) else Wake(s, s.cpu.current)
  }

  /** do_schedule would take the pool lock in the thread that holds it: an assertion of
      lock_acquire stops the kernel. */
  predicate Panics(s: State) {
    PoolBusy(s) && Holds(s, POOL_LOCK)
  }

  /** thread_yield.  If another thread has the pool lock, freeing the first doomed
      thread queues the yielding thread a second time, on the lock.  Where the kernel
      panics there is no next state; this function then leaves the state alone. */
  function Yield(s: State): (r: State)
    ensures r.mon == s.mon
  {
    if Panics(s) then s
    else if PoolBusy(s) then
      var s1 := DropFirst(Requeue(s));
      var pool := SemaOf(s1, POOL);
      Schedule(SetStatus(s1, s.cpu.current, Blocked).(
        semas := s1.semas[POOL := pool.(waiters := pool.waiters + [s.cpu.current])]))
    else Schedule(FreeAll(Requeue(s)))
  }

  /** The running thread dies; its page is freed later, unless it is the initial
      thread's. */
  function Die(s: State): (r: State)
    ensures r.mon == s.mon
  {
    var s1 := SetThread(s, s.cpu.current, Dying, Dead);
    if s.cpu.current == s.cpu.initial then s1 else s1.(doomed := s.doomed + [s.cpu.current])
  }

  /** thread_exit once nothing keeps it from freeing the doomed threads. */
  function Depart(s: State): (r: State)
    ensures r.mon == s.mon
  {
    Schedule(Die(FreeAll(s)))
  }

  /** thread_exit.  The exiting thread is on no list, so it can wait for the pool lock;
      the thread whose page it is freeing has left the destruction list by then. */
  function Exit(s: State): (r: State)
    ensures r.mon == s.mon
  {
    if PoolBusy(s) then Schedule(WaitOn(DropFirst(s), ToReap)) else Depart(s)
  }

  /** One test of the value in sema_down: go through, or wait.  A thread that waited
      inside thread_exit still has interrupts off: it frees the page, gives the pool
      lock back and dies. */
  function TestValue(s: State, k: Kont): State {
    if SemaOf(s, k.Sema()).value == 0 then Schedule(WaitOn(s, k))
    else if k.ToReap? then Depart(Up(Through(s, k), POOL))
    else Through(s, k)
  }

  // ------------------------------------------------------------------ alarms

  function AlarmOf(s: State, t: Tid): int {
    if t in s.threads then s.threads[t].alarm else 0
  }

  /** How many sleepers list_insert_ordered passes with timer_comparator. */
  function Passed(s: State, list: seq<Tid>, alarm: int): (k: nat)
    ensures k <= |list|
  {
    if list == [] || alarm <= AlarmOf(s, list[0]) then 0 else 1 + Passed(s, list[1..], alarm)
  }

  /** thread_sleep up to and including thread_block's status change. */
  function Doze(s: State, alarm: int): State {
    var k := Passed(s, s.clock.sleeping, alarm);
    if s.cpu.current !in s.threads then s else
      s.(threads := s.threads[s.cpu.current := Thread(Blocked, Asleep, alarm, s.clock.nextStamp)],
         clock := s.clock.(
           sleeping := s.clock.sleeping[..k] + [s.cpu.current] + s.clock.sleeping[k..],
           earliest := if s.clock.earliest > alarm then alarm else s.clock.earliest,
           nextStamp := s.clock.nextStamp + 1))
  }

  /** One round of thread_wakeup's loop. */
  function WakeFirst(s: State): (r: State)
    ensures r.mon == s.mon
  {
    if s.clock.sleeping == [] then s else
      var rest := s.clock.sleeping[1..];
      Wake(s, s.clock.sleeping[0]).(
        clock := s.clock.(sleeping := rest, earliest := if rest == [] then s.clock.tailAlarm else AlarmOf(s, rest[0])))
  }

  /** thread_wakeup's loop; it runs off the list if it is empty and still due. */
  function WakeDue(s: State): (r: State)
    ensures r.mon == s.mon
    decreases |s.clock.sleeping|
  {
    if s.clock.sleeping == [] || s.clock.ticks < s.clock.earliest then s else WakeDue(WakeFirst(s))
  }

  function Wakeup(s: State): (r: State)
    ensures r.mon == s.mon
  {
    if s.clock.sleeping == [] then s.(clock := s.clock.(earliest := INT64_MAX)) else WakeDue(s)
  }

  /** timer_interrupt before intr_handler's final yield. */
  function Count(s: State): (r: State)
    ensures r.mon == s.mon
  {
    Wakeup(s.(clock := s.clock.(ticks := s.clock.ticks + 1), cpu := s.cpu.(sliceTicks := s.cpu.sliceTicks + 1)))
  }

  /** The next tick uses up the running thread's slice. */
  predicate SliceEnds(s: State) {
    s.cpu.sliceTicks + 1 >= TIME_SLICE
  }

  /** A timer interrupt. */
  function Tick(s: State): (r: State)
    ensures r.mon == s.mon
  {
    if SliceEnds(s) then Yield(Count(s)) else Count(s)
  }

  // -------------------------------------------------------------- conditions

  function CondOf(s: State, c: CondId): Condition {
    if c in s.mon.conds then s.mon.conds[c] else Condition(0, [], [], [])
  }

  /** cond_wait: a fresh semaphore of value 0 goes to the back of the list. */
  function Enlist(s: State, c: CondId): State {
    var w, cond := s.mon.nextWaiter, CondOf(s, c);
    SetPc(s, ClearHolder(cond.lock, ByWait(c, w))).(
      semas := s.semas[OfWaiter(w) := Semaphore(0, [], 0, 0, 0)],
      mon := s.mon.(
        conds := s.mon.conds[c := cond.(waiters := cond.waiters + [w], queued := cond.queued + [w])],
        calls := s.mon.calls[w := Call(s.cpu.current, c)],
        nextWaiter := w + 1))
  }

  /** cond_signal: take the front waiter off the list, if there is one. */
  function Signal(s: State, c: CondId, more: bool): State {
    var cond := CondOf(s, c);
    if cond.waiters == [] then SetPc(s, User)
    else SetPc(s, UpWaiter(c, cond.waiters[0], more)).(
        mon := s.mon.(conds := s.mon.conds[c := cond.(waiters := cond.waiters[1..],
                                                      signalled := cond.signalled + [cond.waiters[0]])]))
  }

  // ------------------------------------------------------------------- steps

  /** thread_create up to init_thread: the new thread is blocked and on no list. */
  function Conceive(s: State, child: Tid): State {
    s.(threads := s.threads[child := Thread(Blocked, Embryo(s.cpu.current), 0, 0)])
  }

  /** thread_create's thread_unblock. */
  function Hatch(s: State, child: Tid): State {
    SetThread(s, child, Ready, User).(cpu := s.cpu.(ready := s.cpu.ready + [child]))
  }

  /** Where a thread goes once it holds, or has released, a lock. */
  function Acquired(l: LockId, ctx: Ctx): Pc {
    if ctx.ByCreate? then ClearHolder(l, ctx) else User
  }

  function Released(l: LockId, ctx: Ctx): Pc {
    match ctx
    case ByUser => User
    case ByWait(c, w) => Down(ToReacquire(c, w, l), false)
    case ByCreate(child) => Unblock(child)
  }

  /** The running thread takes the next step of the primitive it is inside. */
  function Advance(s: State): State {
    match s.Pc()
    case Down(k, _) => TestValue(s, k)
    case SetHolder(l, ctx) =>
      SetPc(s, Acquired(l, ctx)).(mon := s.mon.(
        holder := s.mon.holder[l := Some(s.cpu.current)],
        returned := if ctx.ByWait? then s.mon.returned + {ctx.w} else s.mon.returned))
    case ClearHolder(l, ctx) => SetPc(s, UpLock(l, ctx)).(mon := s.mon.(holder := s.mon.holder[l := None]))
    case UpLock(l, ctx) => Up(SetPc(s, Released(l, ctx)).(mon := s.mon.(owner := s.mon.owner[l := None])), OfLock(l))
    case UpWaiter(c, w, more) => Up(SetPc(s, if more then Broadcast(c) else User), OfWaiter(w))
    case Broadcast(c) => Signal(s, c, true)
    case Unblock(child) => Hatch(SetPc(s, User), child)
    case Asleep => SetPc(s, User)
    case IdleStart(n) => Up(SetPc(s, IdleLoop), Plain(n))
    case IdleLoop => Schedule(SetThread(s, s.cpu.current, Blocked, IdleWait))
    case IdleWait => SetPc(s, IdleLoop)
    case _ => s
  }

  datatype Step =
    // calls the running thread makes
    | CallDown(n: nat) | CallTryDown(n: nat) | CallUp(n: nat)
    | CallAcquire(l: LockId) | CallTryAcquire(l: LockId) | CallRelease(l: LockId)
    | CallWait(c: CondId) | CallSignal(c: CondId) | CallBroadcast(c: CondId)
    | CallCreate(child: Tid) | CallSleep(alarm: int) | CallYield | CallExit
    | BecomeIdle(n: nat)
    // the next step inside a call
    | Proceed
    // external interrupts
    | Timer | IntrUp(n: nat) | IntrTryDown(n: nat)

  function Do(s: State, step: Step): State {
    match step
    case CallDown(n) => SetPc(s, Down(ToUser(n), false))
    case CallTryDown(n) => Take(s, Plain(n))
    case CallUp(n) => Up(s, Plain(n))
    case CallAcquire(l) => SetPc(s, Down(ToHolder(l, ByUser), false))
    case CallTryAcquire(l) => if SemaOf(s, OfLock(l)).value > 0 then Through(s, ToHolder(l, ByUser)) else s
    case CallRelease(l) => SetPc(s, ClearHolder(l, ByUser))
    case CallWait(c) => Enlist(s, c)
    case CallSignal(c) => Signal(s, c, false)
    case CallBroadcast(c) => SetPc(s, Broadcast(c))
    case CallCreate(child) => SetPc(Conceive(s, child), Down(ToHolder(TID_LOCK, ByCreate(child)), false))
    case CallSleep(alarm) => Schedule(Doze(s, alarm))
    case CallYield => Yield(s)
    case CallExit => Exit(s)
    case BecomeIdle(n) => SetPc(s, IdleStart(n)).(cpu := s.cpu.(idle := Some(s.cpu.current)))
    case Proceed => Advance(s)
    case Timer => Tick(s)
    case IntrUp(n) => Up(s, Plain(n))
    case IntrTryDown(n) => Take(s, Plain(n))
  }

  /** The running thread's next step inside a primitive blocks it, or ends it. */
  predicate Blocks(s: State) {
    s.Pc().IdleLoop? || (s.Pc().Down? && (s.Pc().k.ToReap? || SemaOf(s, s.Pc().k.Sema()).value == 0))
  }

  /** Which calls the kernel's assertions and documentation allow, and which
      interrupts can come. */
  predicate Allowed(s: State, step: Step) {
    match step
    case CallDown(n) => s.Pc() == User && Plain(n) in s.semas
    case CallTryDown(n) => s.Pc() == User && Plain(n) in s.semas
    case CallUp(n) => s.Pc() == User && Plain(n) in s.semas
    case CallAcquire(l) => s.Pc() == User && l in s.mon.holder && !Holds(s, l)
    case CallTryAcquire(l) => s.Pc() == User && l in s.mon.holder && !Holds(s, l)
    case CallRelease(l) => s.Pc() == User && Holds(s, l)
    case CallWait(c) => s.Pc() == User && c in s.mon.conds && Holds(s, s.mon.conds[c].lock)
    case CallSignal(c) => s.Pc() == User && c in s.mon.conds && Holds(s, s.mon.conds[c].lock)
    case CallBroadcast(c) => s.Pc() == User && c in s.mon.conds && Holds(s, s.mon.conds[c].lock)
    case CallCreate(child) => s.Pc() == User && child !in s.threads && !Holds(s, TID_LOCK)
    case CallSleep(alarm) => s.Pc() == User && alarm < s.clock.tailAlarm && CanSchedule(s)
    case CallYield => s.Pc() == User && !PoolBusy(s)
    case CallExit => s.Pc() == User && !Panics(s) && CanSchedule(s)
    case BecomeIdle(n) => s.Pc() == User && s.cpu.idle == None && Plain(n) in s.semas
    case Proceed => s.Pc() != User && (Blocks(s) ==> CanSchedule(s))
    case Timer => InterruptsOn(s) && s.clock.ticks + 1 < s.clock.tailAlarm && (SliceEnds(s) ==> !PoolBusy(s))
    case IntrUp(n) => InterruptsOn(s) && Plain(n) in s.semas
    case IntrTryDown(n) => InterruptsOn(s) && Plain(n) in s.semas
  }

  /** The state a sequence of steps leads to, if each was allowed. */
  function Run(s: State, steps: seq<Step>): Option<State>
    decreases |steps|
  {
    if steps == [] then Some(s)
    else if Allowed(s, steps[0]) then Run(Do(s, steps[0]), steps[1..])
    else None
  }

  /** The machine just after thread_init: one thread, nothing queued, every lock
      free, every condition variable empty. */
  ghost predicate Init(s: State) {
    && s.threads == map[s.cpu.initial := Thread(Running, User, 0, 0)] && s.cpu.current == s.cpu.initial
    && s.cpu.idle == None && s.cpu.ready == [] && s.clock.sleeping == [] && s.doomed == []
    && s.clock.earliest == INT64_MAX && s.clock.ticks < s.clock.tailAlarm <= INT64_MAX && s.cpu.sliceTicks == 0
    && s.mon.nextWaiter == 0 && s.mon.calls == map[] && s.mon.returned == {}
    && TID_LOCK in s.mon.holder && POOL_LOCK in s.mon.holder
    && s.mon.owner == s.mon.holder
    && (forall l :: l in s.mon.holder ==> s.mon.holder[l] == None)
    && (forall l :: l in s.mon.holder <==> OfLock(l) in s.semas)
    && (forall id :: id in s.semas ==>
          !id.OfWaiter?
            && s.semas[id] == Semaphore(if id.OfLock? then 1 else s.semas[id].value, [], s.semas[id].value, 0, 0))
    && (forall c :: c in s.mon.conds ==>
          s.mon.conds[c] == Condition(s.mon.conds[c].lock, [], [], []) && s.mon.conds[c].lock in s.mon.holder)
  }
}
