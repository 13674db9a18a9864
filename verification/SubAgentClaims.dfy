/** Claims: parallel dispatches never collapse onto one session, as long as they name none that is taken. */
module SubAgentClaims {
  import opened SubAgents
  import opened SubAgentScheduler

  /** The task a session is taken by. */
  predicate TakenBy(s: Scheduler, k: nat, id: string) { k in s.tasks && Outstanding(s.tasks[k]) && s.tasks[k].id == id }

  predicate Marked(s: Scheduler, id: string) { id in s.sessions && s.sessions[id].spawning }

  /** Every session is taken by one task at most, and marked exactly while it is taken. */
  ghost predicate Exclusive(s: Scheduler) {
    && (forall k, id :: TakenBy(s, k, id) ==> Marked(s, id))
    && (forall j, k, id :: TakenBy(s, j, id) && TakenBy(s, k, id) ==> j == k)
    && (forall id :: Marked(s, id) ==> exists k :: TakenBy(s, k, id))
  }

  /** A dispatch that names a session which is marked. */
  predicate NamesTaken(s: Scheduler, step: Step) {
    step.Dispatch? && step.claim.Named? && Marked(s, step.claim.id)
  }

  lemma StepTaken(s: Scheduler, step: Step, k: nat, id: string)
    requires Enabled(s, step)
    ensures TakenBy(Apply(s, step), k, id) <==>
            if k != step.task then TakenBy(s, k, id)
            else if step.Dispatch? then id == step.claim.id
            else !step.Refuse? && !step.Finish? && TakenBy(s, k, id)
  {
    hide CanClaim, Claimed, Released, Touched, Recorded, StreakOf;
  }

  lemma StepMarks(s: Scheduler, step: Step, id: string)
    requires Enabled(s, step)
    ensures Marked(Apply(s, step), id) <==>
            if step.Dispatch? && id == step.claim.id then true
            else Marked(s, id) && !((step.Refuse? || step.Finish?) && id == s.tasks[step.task].id)
  {
  }

  /** One step, whatever it is, keeps claims exclusive exactly unless it is a dispatch that names a session taken
      at that moment. */
  lemma StepExclusive(s: Scheduler, step: Step)
    requires Exclusive(s) && Enabled(s, step)
    ensures Exclusive(Apply(s, step)) <==> !NamesTaken(s, step)
  {
    var after := Apply(s, step);
    forall k, id
      ensures TakenBy(after, k, id) <==>
              if k != step.task then TakenBy(s, k, id)
              else if step.Dispatch? then id == step.claim.id
              else !step.Refuse? && !step.Finish? && TakenBy(s, k, id)
    {
      StepTaken(s, step, k, id);
    }
    forall id
      ensures Marked(after, id) <==>
              if step.Dispatch? && id == step.claim.id then true
              else Marked(s, id) && !((step.Refuse? || step.Finish?) && id == s.tasks[step.task].id)
    {
      StepMarks(s, step, id);
    }
    hide Apply;
    if NamesTaken(s, step) {
      var other :| TakenBy(s, other, step.claim.id);
      assert TakenBy(after, step.task, step.claim.id) && TakenBy(after, other, step.claim.id);
    } else {
      if step.Dispatch? {
        assert !Marked(s, step.claim.id);
      } else if step.Refuse? || step.Finish? {
        assert TakenBy(s, step.task, s.tasks[step.task].id);
      }
      forall id | Marked(after, id)
        ensures exists k :: TakenBy(after, k, id)
      {
        if step.Dispatch? && id == step.claim.id {
          assert TakenBy(after, step.task, id);
        } else {
          var k :| TakenBy(s, k, id);
          assert TakenBy(after, k, id);
        }
      }
    }
  }

  predicate NeverNames(steps: seq<Step>) {
    forall i :: 0 <= i < |steps| && steps[i].Dispatch? ==> !steps[i].claim.Named?
  }

  /** Parallel dispatches never collapse onto one session: in every run whose dispatches name no session, each
      session is taken by one task at most. */
  lemma {:induction false} RunExclusive(s: Scheduler, steps: seq<Step>)
    requires Exclusive(s) && Legal(s, steps) && NeverNames(steps)
    ensures Exclusive(Run(s, steps))
    decreases |steps|
  {
    hide Exclusive, Enabled, Apply;
    if steps != [] {
      StepExclusive(s, steps[0]);
      RunExclusive(Apply(s, steps[0]), steps[1..]);
    }
  }

  lemma InitialExclusive(s: Scheduler)
    requires Initial(s)
    ensures Exclusive(s)
  {
  }
}
