/** What every step of the scheduler keeps: slots are counted, locks have one holder, entries are settled once. */
module SubAgentSafety {
  import opened SubAgents
  import opened SubAgentScheduler

  lemma HoldersMove(tasks: map<nat, Task>, k: nat, t: Task)
    ensures var was := k in tasks && HoldsSlot(tasks[k]);
            |Holders(tasks[k := t])| == |Holders(tasks)| - (if was then 1 else 0) + (if HoldsSlot(t) then 1 else 0)
  {
    hide HoldsSlot;
    var rest := Holders(tasks) - {k};
    assert Holders(tasks) == if k in tasks && HoldsSlot(tasks[k]) then rest + {k} else rest;
    assert Holders(tasks[k := t]) == if HoldsSlot(t) then rest + {k} else rest;
  }

  lemma StepCounts(s: Scheduler, step: Step)
    requires SlotsCounted(s) && Enabled(s, step)
    ensures SlotsCounted(Apply(s, step))
  {
    hide Holders, CanClaim, Claimed;
    HoldersMove(s.tasks, step.task, Apply(s, step).tasks[step.task]);
  }

  /** A step moves one task, which keeps its session. */
  lemma StepOne(s: Scheduler, step: Step)
    requires Enabled(s, step)
    ensures var (t, k) := (Apply(s, step), step.task);
            && (forall j :: j != k ==> (j in t.tasks <==> j in s.tasks) && (j in s.tasks ==> t.tasks[j] == s.tasks[j]))
            && k in t.tasks && (k in s.tasks ==> t.tasks[k].id == s.tasks[k].id)
  {
    hide CanClaim, Claimed, Released, Touched, Recorded, HoldsSlot, StreakOf;
  }

  /** What becomes of its lock. */
  lemma StepLock(s: Scheduler, step: Step)
    requires Enabled(s, step) && step.task in Apply(s, step).tasks
    ensures var (t, k) := (Apply(s, step), step.task);
            match step
               case TakeLock(_) =>
                 k in s.tasks && s.tasks[k].id !in s.locks && HoldsLock(t.tasks[k])
                     && t.locks == s.locks[s.tasks[k].id := k]
               case Unlock(_) =>
                 k in s.tasks && HoldsLock(s.tasks[k]) && !HoldsLock(t.tasks[k]) && t.locks == s.locks - {s.tasks[k].id}
               case _ => t.locks == s.locks && (HoldsLock(t.tasks[k]) <==> k in s.tasks && HoldsLock(s.tasks[k]))
  {
    hide CanClaim, Claimed, Released, Touched, Recorded, HoldsSlot, StreakOf;
  }

  lemma StepHeld(s: Scheduler, step: Step, k: nat, id: string)
    requires Enabled(s, step) && LocksExact(s)
    ensures HeldBy(Apply(s, step), k, id) <==> Locked(Apply(s, step), k, id)
  {
    hide Apply, Enabled, HoldsLock;
    StepOne(s, step);
    StepLock(s, step);
    assert HeldBy(s, k, id) <==> Locked(s, k, id);
    var task := step.task;
    if task in s.tasks {
      assert HeldBy(s, task, s.tasks[task].id) <==> Locked(s, task, s.tasks[task].id);
    }
  }

  lemma StepLocks(s: Scheduler, step: Step)
    requires LocksExact(s) && Enabled(s, step)
    ensures LocksExact(Apply(s, step))
  {
    hide Apply, Enabled, HeldBy, Locked;
    forall k, id
      ensures HeldBy(Apply(s, step), k, id) <==> Locked(Apply(s, step), k, id)
    {
      StepHeld(s, step, k, id);
    }
  }

  lemma StepSettlesOne(s: Scheduler, step: Step)
    requires Enabled(s, step) && (step.task in s.tasks ==> SettledAsDue(s.tasks[step.task]))
    ensures SettledAsDue(Apply(s, step).tasks[step.task])
    ensures forall k :: k in Apply(s, step).tasks && k != step.task ==>
            k in s.tasks && Apply(s, step).tasks[k] == s.tasks[k]
  {
    hide CanClaim, Claimed, Released, Touched, Recorded, StreakOf;
  }

  lemma StepSettles(s: Scheduler, step: Step)
    requires SettledOnce(s) && Enabled(s, step)
    ensures SettledOnce(Apply(s, step))
  {
    hide Apply, SettledAsDue;
    StepSettlesOne(s, step);
  }

  lemma StepSound(s: Scheduler, step: Step)
    requires Sound(s) && Enabled(s, step)
    ensures Sound(Apply(s, step))
  {
    hide Enabled, Apply, SlotsCounted, LocksExact, SettledOnce;
    StepCounts(s, step);
    StepLocks(s, step);
    StepSettles(s, step);
  }

  /** Over every run, twenty slots are never exceeded, each lock has one holder, and no entry is settled twice. */
  lemma {:induction false} RunSound(s: Scheduler, steps: seq<Step>)
    requires Sound(s) && Legal(s, steps)
    ensures Sound(Run(s, steps))
    decreases |steps|
  {
    hide Sound, Enabled, Apply;
    if steps != [] {
      StepSound(s, steps[0]);
      RunSound(Apply(s, steps[0]), steps[1..]);
    }
  }

  lemma InitialSound(s: Scheduler)
    requires Initial(s)
    ensures Sound(s)
  {
    assert Holders(s.tasks) == {};
  }

  /** In every run from the start, no two tasks execute on one session at once. */
  lemma OneExecutes(s: Scheduler, steps: seq<Step>, j: nat, k: nat)
    requires Initial(s) && Legal(s, steps)
    requires var tasks := Run(s, steps).tasks;
             j in tasks && k in tasks && tasks[j].id == tasks[k].id && HoldsLock(tasks[j]) && HoldsLock(tasks[k])
    ensures j == k
  {
    InitialSound(s);
    RunSound(s, steps);
    var end := Run(s, steps);
    assert HeldBy(end, j, end.tasks[j].id) && HeldBy(end, k, end.tasks[j].id);
  }
}
