/** Round robin: the ready list is a queue, a running thread is put back after
    four ticks, and so a ready thread runs within four ticks for itself and each
    thread in front of it. */
module Fairness {
  import opened Wrappers
  import opened Machine
  import Simulation

  /** No thread was taken off the ready list. */
  predicate Kept(a: Cpu, b: Cpu, ticks: nat) {
    b.picks == a.picks && a.ready <= b.ready && b.sliceTicks == a.sliceTicks + ticks
  }

  /** The front of the ready list runs now, with a fresh time slice. */
  predicate Picked(a: Cpu, b: Cpu) {
    a.ready != [] && b.picks == a.picks + 1 && a.ready[1..] <= b.ready && b.sliceTicks == 0 && b.current == a.ready[0]
  }

  /** The ready list only loses its front, to the thread that runs next, and only
      grows at its back; the slice counter counts ticks since the last switch. */
  predicate Fair(a: Cpu, b: Cpu, ticks: nat) {
    a.ready != [] ==> Kept(a, b, ticks) || Picked(a, b)
  }

  /** Ticks one step counts. */
  function TicksOf(step: Step): nat {
    if step.Timer? then 1 else 0
  }

  function Ticks(steps: seq<Step>): nat {
    if steps == [] then 0 else TicksOf(steps[0]) + Ticks(steps[1..])
  }

  // ----------------------------------------------------------- parts of steps

  lemma SchedulePicks(a: Cpu, r: State)
    requires a.ready != [] && a.ready <= r.cpu.ready && r.cpu.picks == a.picks
    ensures Picked(a, Schedule(r).cpu)
  {
    assert r.cpu.ready[0] == a.ready[0];
    assert a.ready[1..] <= r.cpu.ready[1..];
  }

  lemma YieldPicks(s: State)
    requires s.cpu.ready != [] && !Panics(s)
    ensures Picked(s.cpu, Yield(s).cpu)
  {
    if PoolBusy(s) {
      var s1 := DropFirst(Requeue(s));
      var pool := SemaOf(s1, POOL);
      SchedulePicks(s.cpu, SetStatus(s1, s.cpu.current, Blocked).(
        semas := s1.semas[POOL := pool.(waiters := pool.waiters + [s.cpu.current])]));
    } else {
      SchedulePicks(s.cpu, FreeAll(Requeue(s)));
    }
  }

  lemma {:induction false} WakeDueKeeps(s: State)
    ensures var c := WakeDue(s).cpu; s.cpu.ready <= c.ready && c == s.cpu.(ready := c.ready)
    decreases |s.clock.sleeping|
  {
    if s.clock.sleeping != [] && s.clock.ticks >= s.clock.earliest { WakeDueKeeps(WakeFirst(s)); }
  }

  lemma CountKeeps(s: State)
    ensures Kept(s.cpu, Count(s).cpu, 1) && Count(s).cpu.idle == s.cpu.idle && Count(s).cpu.current == s.cpu.current
  {
    WakeDueKeeps(s.(clock := s.clock.(ticks := s.clock.ticks + 1), cpu := s.cpu.(sliceTicks := s.cpu.sliceTicks + 1)));
  }

  lemma PickedLater(a: Cpu, b: Cpu, c: Cpu, ticks: nat)
    requires a.ready != [] && Kept(a, b, ticks) && Picked(b, c)
    ensures Picked(a, c)
  {
    assert a.ready[1..] <= b.ready[1..];
  }

  /** After four ticks the front of the ready list runs. */
  lemma TickFair(s: State)
    requires s.cpu.ready != [] && (SliceEnds(s) ==> !PoolBusy(s))
    ensures Kept(s.cpu, Tick(s).cpu, 1) || Picked(s.cpu, Tick(s).cpu)
    ensures s.cpu.sliceTicks + 1 >= TIME_SLICE ==> Picked(s.cpu, Tick(s).cpu)
  {
    CountKeeps(s);
    Simulation.CountBusy(s);
    if SliceEnds(s) {
      YieldPicks(Count(s));
      PickedLater(s.cpu, Count(s).cpu, Tick(s).cpu, 1);
    }
  }

  lemma DepartPicks(s: State)
    requires s.cpu.ready != []
    ensures Picked(s.cpu, Depart(s).cpu)
  {
    SchedulePicks(s.cpu, Die(FreeAll(s)));
  }

  lemma ExitPicks(s: State)
    requires s.cpu.ready != []
    ensures Picked(s.cpu, Exit(s).cpu)
  {
    if PoolBusy(s) { SchedulePicks(s.cpu, WaitOn(DropFirst(s), ToReap)); } else { DepartPicks(s); }
  }

  lemma AdvanceFair(s: State)
    ensures Fair(s.cpu, Advance(s).cpu, 0)
  {
    if s.cpu.ready != [] {
      match s.Pc() {
        case Down(k, _) =>
          if SemaOf(s, k.Sema()).value == 0 {
            SchedulePicks(s.cpu, WaitOn(s, k));
          } else if k.ToReap? {
            DepartPicks(Up(Through(s, k), POOL));
            PickedLater(s.cpu, Up(Through(s, k), POOL).cpu, Advance(s).cpu, 0);
          }
        case IdleLoop => SchedulePicks(s.cpu, SetThread(s, s.cpu.current, Blocked, IdleWait));
        case _ =>
      }
    }
  }

  lemma StepFair(s: State, step: Step)
    requires Allowed(s, step)
    ensures Fair(s.cpu, Do(s, step).cpu, TicksOf(step))
  {
    if s.cpu.ready != [] {
      match step {
        case CallSleep(alarm) => SchedulePicks(s.cpu, Doze(s, alarm));
        case CallYield => YieldPicks(s);
        case CallExit => ExitPicks(s);
        case Proceed => AdvanceFair(s);
        case Timer => TickFair(s);
        case _ =>
      }
    }
  }

  // -------------------------------------------------------------------- slices

  lemma YieldSlice(s: State)
    requires !Panics(s)
    ensures Yield(s).cpu.sliceTicks == 0
  {
  }

  /** A running thread has used fewer than four ticks of its slice. */
  lemma StepSlice(s: State, step: Step)
    requires s.cpu.sliceTicks < TIME_SLICE && Allowed(s, step)
    ensures Do(s, step).cpu.sliceTicks < TIME_SLICE
  {
    match step {
      case Timer => TickSlice(s);
      case CallYield => YieldSlice(s);
      case CallExit => ExitSlice(s);
      case Proceed => AdvanceSlice(s);
      case _ =>
    }
  }

  lemma ExitSlice(s: State)
    ensures Exit(s).cpu.sliceTicks == 0 || Exit(s).cpu.sliceTicks == s.cpu.sliceTicks
  {
  }

  lemma AdvanceSlice(s: State)
    ensures Advance(s).cpu.sliceTicks == 0 || Advance(s).cpu.sliceTicks == s.cpu.sliceTicks
  {
  }

  lemma TickSlice(s: State)
    requires s.cpu.sliceTicks < TIME_SLICE && (SliceEnds(s) ==> !PoolBusy(s))
    ensures Tick(s).cpu.sliceTicks < TIME_SLICE
  {
    CountKeeps(s);
    Simulation.CountBusy(s);
    if SliceEnds(s) { YieldSlice(Count(s)); }
  }

  lemma {:induction false} RunSlice(s: State, steps: seq<Step>)
    requires s.cpu.sliceTicks < TIME_SLICE && Run(s, steps).Some?
    ensures Run(s, steps).value.cpu.sliceTicks < TIME_SLICE
    decreases |steps|
  {
    if steps != [] {
      StepSlice(s, steps[0]);
      RunSlice(Do(s, steps[0]), steps[1..]);
    }
  }

  // ------------------------------------------------------------ bounded waiting

  /** After `j` steps the thread at position `k` has just been picked, after
      exactly `k` others. */
  predicate PickedAt(s: State, steps: seq<Step>, j: nat, k: nat)
    requires j <= |steps| && k < |s.cpu.ready|
  {
    var r := Run(s, steps[..j]);
    r.Some? && r.value.cpu.picks == s.cpu.picks + k + 1 && r.value.cpu.current == s.cpu.ready[k]
  }

  /** The thread has moved up by the number of picks, and every tick has been
      charged to a time slice. */
  predicate StillQueued(s: State, r: State, ticks: nat, k: nat)
    requires k < |s.cpu.ready|
  {
    && s.cpu.picks <= r.cpu.picks <= s.cpu.picks + k
    && s.cpu.picks + k - r.cpu.picks < |r.cpu.ready|
    && r.cpu.ready[s.cpu.picks + k - r.cpu.picks] == s.cpu.ready[k]
    && TIME_SLICE * r.cpu.picks + r.cpu.sliceTicks >= TIME_SLICE * s.cpu.picks + s.cpu.sliceTicks + ticks
  }

  lemma RunFront(s: State, steps: seq<Step>, j: nat)
    requires 0 < j <= |steps| && Allowed(s, steps[0])
    ensures Run(s, steps[..j]) == Run(Do(s, steps[0]), steps[1..][..j - 1])
  {
    assert steps[..j][1..] == steps[1..][..j - 1];
  }

  /** Putting a step in front of a run. */
  lemma PickedLaterOn(s: State, steps: seq<Step>, j: nat, k: nat, k1: nat)
    requires j < |steps| && k < |s.cpu.ready| && Allowed(s, steps[0])
    requires var c := Do(s, steps[0]).cpu;
             k1 < |c.ready| && c.picks + k1 == s.cpu.picks + k && c.ready[k1] == s.cpu.ready[k]
    requires PickedAt(Do(s, steps[0]), steps[1..], j, k1)
    ensures PickedAt(s, steps, j + 1, k)
  {
    RunFront(s, steps, j + 1);
  }

  lemma QueuedStill(s: State, s1: State, r: State, n: nat, ticks: nat, k: nat, k1: nat)
    requires k < |s.cpu.ready| && k1 < |s1.cpu.ready| && s1.cpu.ready[k1] == s.cpu.ready[k]
    requires s1.cpu.picks + k1 == s.cpu.picks + k && k1 <= k && StillQueued(s1, r, ticks, k1)
    requires TIME_SLICE * s1.cpu.picks + s1.cpu.sliceTicks >= TIME_SLICE * s.cpu.picks + s.cpu.sliceTicks + n
    ensures StillQueued(s, r, n + ticks, k)
  {
  }

  /** Where a step leaves the thread at position `k`, if it does not pick it. */
  lemma MovesUp(s: State, step: Step, k: nat) returns (k1: nat)
    requires k < |s.cpu.ready| && s.cpu.sliceTicks < TIME_SLICE && Allowed(s, step)
    requires !(k == 0 && Picked(s.cpu, Do(s, step).cpu))
    ensures var c := Do(s, step).cpu;
            && k1 < |c.ready| && c.ready[k1] == s.cpu.ready[k] && c.picks + k1 == s.cpu.picks + k && k1 <= k
            && TIME_SLICE * c.picks + c.sliceTicks >= TIME_SLICE * s.cpu.picks + s.cpu.sliceTicks + TicksOf(step)
  {
    StepFair(s, step);
    if Kept(s.cpu, Do(s, step).cpu, TicksOf(step)) {
      k1 := k;
    } else {
      k1 := k - 1;
      assert s.cpu.ready[1..][k1] == s.cpu.ready[k];
    }
  }

  /** First in, first out over a whole run. */
  lemma {:induction false} QueueOrder(s: State, steps: seq<Step>, k: nat)
    requires k < |s.cpu.ready| && s.cpu.sliceTicks < TIME_SLICE && Run(s, steps).Some?
    ensures StillQueued(s, Run(s, steps).value, Ticks(steps), k) || exists j :: 0 < j <= |steps|
                                                                                && PickedAt(s, steps, j, k)
    decreases |steps|
  {
    if steps != [] {
      var s1, rest := Do(s, steps[0]), steps[1..];
      if k == 0 && Picked(s.cpu, s1.cpu) {
        RunFront(s, steps, 1);
        assert PickedAt(s, steps, 1, 0);
      } else {
        var k1 := MovesUp(s, steps[0], k);
        StepSlice(s, steps[0]);
        QueueOrder(s1, rest, k1);
        if j :| 0 < j <= |rest| && PickedAt(s1, rest, j, k1) {
          PickedLaterOn(s, steps, j, k, k1);
        } else {
          QueuedStill(s, s1, Run(s, steps).value, TicksOf(steps[0]), Ticks(rest), k, k1);
        }
      }
    }
  }

  /** A ready thread runs within four ticks for itself and each thread ahead. */
  lemma BoundedWaiting(s: State, steps: seq<Step>, k: nat)
    requires k < |s.cpu.ready| && s.cpu.sliceTicks < TIME_SLICE && Run(s, steps).Some?
    requires s.cpu.sliceTicks + Ticks(steps) >= TIME_SLICE * (k + 1)
    ensures exists j :: 0 < j <= |steps| && PickedAt(s, steps, j, k)
  {
    QueueOrder(s, steps, k);
    RunSlice(s, steps);
  }
}
