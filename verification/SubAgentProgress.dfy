/** The scheduler gets somewhere: runs end, nothing deadlocks, and every registered entry is settled. */
module SubAgentProgress {
  import opened SubAgents
  import opened SubAgentScheduler
  import opened SubAgentSafety

  function Rank(phase: Phase): nat {
    match phase
    case Claiming => 12
    case Admitted => 11
    case Registered => 10
    case Queued => 9
    case Waiting => 8
    case Entered => 7
    case Executing => 6
    case Leaving => 5
    case Executed => 4
    case Settled => 2
    case Noted => 1
    case Unwinding => 1
    case _ => 0
  }

  /** Steps the tasks still have in front of them, at most. */
  ghost function Work(tasks: map<nat, Task>): nat
    decreases |tasks|
  {
    if tasks == map[] then 0
    else
      var k :| k in tasks;
      assert |tasks - {k}| < |tasks| by {
        assert (tasks - {k}).Keys == tasks.Keys - {k};
      }
      Rank(tasks[k].phase) + Work(tasks - {k})
  }

  lemma {:induction false} WorkWithout(tasks: map<nat, Task>, k: nat)
    requires k in tasks
    ensures Work(tasks) == Rank(tasks[k].phase) + Work(tasks - {k})
    decreases |tasks|
  {
    hide Rank;
    var first :| first in tasks && Work(tasks) == Rank(tasks[first].phase) + Work(tasks - {first});
    if first != k {
      assert (tasks - {first}).Keys == tasks.Keys - {first};
      WorkWithout(tasks - {first}, k);
      WorkWithout(tasks - {k}, first);
      assert tasks - {first} - {k} == tasks - {k} - {first};
    }
  }

  lemma WorkMoves(tasks: map<nat, Task>, k: nat, t: Task)
    ensures Work(tasks[k := t])
         == Work(tasks) - (if k in tasks then Rank(tasks[k].phase) else 0) + Rank(t.phase)
  {
    hide Rank;
    WorkWithout(tasks[k := t], k);
    assert tasks[k := t] - {k} == tasks - {k};
    if k in tasks {
      WorkWithout(tasks, k);
    } else {
      assert tasks - {k} == tasks;
    }
  }

  function Dispatches(steps: seq<Step>): nat
    decreases |steps|
  {
    if steps == [] then 0 else (if steps[0].Dispatch? then 1 else 0) + Dispatches(steps[1..])
  }

  lemma StepWorks(s: Scheduler, step: Step)
    requires Enabled(s, step)
    ensures Work(Apply(s, step).tasks) + 1 <= Work(s.tasks) + (if step.Dispatch? then 13 else 0)
  {
    hide Work, CanClaim, Claimed, Released, Touched, Recorded;
    WorkMoves(s.tasks, step.task, Apply(s, step).tasks[step.task]);
  }

  /** A run is never longer than the work there was at its start, and thirteen steps for each dispatch. */
  lemma {:induction false} RunsEnd(s: Scheduler, steps: seq<Step>)
    requires Legal(s, steps)
    ensures |steps| + Work(Run(s, steps).tasks) <= Work(s.tasks) + 13 * Dispatches(steps)
    decreases |steps|
  {
    hide Work, Enabled, Apply;
    if steps != [] {
      StepWorks(s, steps[0]);
      RunsEnd(Apply(s, steps[0]), steps[1..]);
    }
  }

  /** Nothing is left to do but dispatching more. */
  ghost predicate AtRest(s: Scheduler) { forall step :: Enabled(s, step) ==> step.Dispatch? }

  /** Slots and locks do not deadlock: while a task is not over, some task can move, and without panicking. */
  lemma SomethingMoves(s: Scheduler, k: nat) returns (step: Step)
    requires Sound(s) && k in s.tasks && !Over(s.tasks[k])
    ensures Enabled(s, step) && !step.Dispatch? && !step.Panic? && !step.Drop? && !step.Abort?
    decreases s.tasks[k].phase.Queued?, s.tasks[k].phase.Waiting?
  {
    hide CanClaim;
    var t := s.tasks[k];
    if HoldsSlot(t) {
      assert k in Holders(s.tasks);
    }
    match t.phase
    case Claiming => step := if StreakOf(s, t.id) >= ITERATION_FAIL_LIMIT then Refuse(k) else Admit(k);
    case Admitted => step := Register(k);
    case Registered => step := Start(k);
    case Queued =>
      if s.slots < SLOTS {
        step := TakeSlot(k);
      } else {
        var holder :| holder in Holders(s.tasks);
        step := SomethingMoves(s, holder);
      }
    case Waiting =>
      if t.id in s.locks {
        var holder := s.locks[t.id];
        assert Locked(s, holder, t.id) && HeldBy(s, holder, t.id);
        step := SomethingMoves(s, holder);
      } else {
        step := TakeLock(k);
      }
    case Entered => step := Touch(k, 1);
    case Executing => step := Finish(k);
    case Leaving => step := Unlock(k);
    case Executed => step := Settle(k);
    case Unwinding => step := SettleLate(k);
    case Settled => step := Return(k);
    case Noted => step := Return(k);
  }

  /** Every run that is carried on until nothing moves ends with each task over, each registered entry settled
      exactly once, all slots free and all locks open, whatever panicked on the way. */
  lemma EverythingSettles(s: Scheduler, steps: seq<Step>)
    requires Initial(s) && Legal(s, steps) && AtRest(Run(s, steps))
    ensures var end := Run(s, steps);
            && end.slots == 0 && end.locks == map[]
            && forall k :: k in end.tasks ==>
                 Over(end.tasks[k]) && end.tasks[k].settlements == if IsRegistered(end.tasks[k]) then 1 else 0
  {
    InitialSound(s);
    RunSound(s, steps);
    var end := Run(s, steps);
    forall k | k in end.tasks
      ensures Over(end.tasks[k])
    {
      if !Over(end.tasks[k]) {
        var step := SomethingMoves(end, k);
        assert false;
      }
    }
    hide Legal, Run;
    assert Holders(end.tasks) == {};
    assert forall k, id :: !HeldBy(end, k, id);
    assert forall k, id :: !Locked(end, k, id);
    assert forall id :: id in end.locks ==> Locked(end, end.locks[id], id);
  }
}
