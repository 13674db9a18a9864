/** Stopping a main session stops the sub-agents it has running: every execution enrols its cancel function
    under the main session it was dispatched from, and withdraws it at its end. */
module Sponsorship {

  /** Main session to sub-session to the task whose cancel function is enrolled. */
  type Sponsored = map<string, map<string, nat>>

  predicate Listed(sp: Sponsored, main: string, id: string, k: nat) {
    main in sp && id in sp[main] && sp[main][id] == k
  }

  function Enrolled(sp: Sponsored, main: string, id: string, k: nat): Sponsored {
    if main == "" then sp
    else sp[main := (if main in sp then sp[main] else map[])[id := k]]
  }

  function Withdrawn(sp: Sponsored, main: string, id: string): Sponsored {
    if main == "" || main !in sp then sp
    else
      var subs := sp[main] - {id};
      if subs == map[] then sp - {main} else sp[main := subs]
  }

  /** No main session is left with an empty entry. */
  predicate Tidy(sp: Sponsored) { forall main :: main in sp ==> main != "" && sp[main] != map[] }

  class SponsorTable {
    var sponsored: Sponsored

    constructor ()
      ensures sponsored == map[]
    {
      sponsored := map[];
    }

    method RegisterSponsored(main: string, id: string, k: nat)
      requires Tidy(sponsored)
      modifies this`sponsored
      ensures Tidy(sponsored) && sponsored == Enrolled(old(sponsored), main, id, k)
    {
      if main == "" {
        return;
      }
      var subs := map[];
      if main in sponsored {
        subs := sponsored[main];
      }
      sponsored := sponsored[main := subs[id := k]];
      assert id in sponsored[main];
    }

    method UnregisterSponsored(main: string, id: string)
      requires Tidy(sponsored)
      modifies this`sponsored
      ensures Tidy(sponsored) && sponsored == Withdrawn(old(sponsored), main, id)
    {
      if main == "" || main !in sponsored {
        return;
      }
      var subs := sponsored[main] - {id};
      sponsored := sponsored[main := subs];
      if |subs| == 0 {
        sponsored := sponsored - {main};
        assert sponsored == old(sponsored) - {main};
      }
    }

    /** The tasks to cancel, taken off the table. */
    method CancelSponsored(main: string) returns (cancels: seq<nat>)
      requires Tidy(sponsored)
      modifies this`sponsored
      ensures Tidy(sponsored) && sponsored == old(sponsored) - {main}
      ensures forall k :: k in cancels <==> exists id :: Listed(old(sponsored), main, id, k)
      ensures |cancels| == if main in old(sponsored) then |old(sponsored)[main]| else 0
    {
      cancels := [];
      if main == "" || main !in sponsored {
        assert sponsored - {main} == sponsored;
        return;
      }
      var subs := sponsored[main];
      var rest := subs.Keys;
      while rest != {}
        invariant rest <= subs.Keys
        invariant forall k :: k in cancels <==> exists id :: Listed(sponsored, main, id, k) && id !in rest
        invariant |cancels| + |rest| == |subs.Keys|
        decreases |rest|
      {
        var id :| id in rest;
        rest := rest - {id};
        assert Listed(sponsored, main, id, subs[id]);
        cancels := cancels + [subs[id]];
      }
      assert forall k :: k in cancels <==> exists id :: Listed(sponsored, main, id, k);
      sponsored := sponsored - {main};
    }

    /** Every sub-session with an enrolled execution, once. */
    method RunningSessions() returns (ids: seq<string>)
      ensures forall id :: id in ids <==> exists main :: main in sponsored && id in sponsored[main]
      ensures forall i, j :: 0 <= i < j < |ids| ==> ids[i] != ids[j]
    {
      ids := [];
      var mains := sponsored.Keys;
      while mains != {}
        invariant mains <= sponsored.Keys
        invariant forall id :: id in ids <==>
                    exists main :: main in sponsored && main !in mains && id in sponsored[main]
        invariant forall i, j :: 0 <= i < j < |ids| ==> ids[i] != ids[j]
        decreases |mains|
      {
        var main :| main in mains;
        var subs := sponsored[main];
        ghost var before := ids;
        var rest := subs.Keys;
        while rest != {}
          invariant rest <= subs.Keys
          invariant forall id :: id in ids <==> id in before || (id in subs && id !in rest)
          invariant forall i, j :: 0 <= i < j < |ids| ==> ids[i] != ids[j]
          decreases |rest|
        {
          var id :| id in rest;
          rest := rest - {id};
          if id !in ids {
            ids := ids + [id];
          }
        }
        mains := mains - {main};
        assert main in sponsored && main !in mains;
      }
    }
  }

  // ---------------------------------------------------------------- all interleavings

  datatype Phase = Locked | Enlisted | Withdrew | Gone

  /** `cancelled` counts how often the task's cancel function was called by a stop of its main session. */
  datatype Task = Task(main: string, id: string, phase: Phase, cancelled: nat)

  datatype Shop = Shop(tasks: map<nat, Task>, locks: map<string, nat>, sponsored: Sponsored)

  datatype Step =
    | Enter(task: nat, main: string, id: string)
    | Enlist(task: nat)
    | Withdraw(task: nat)
    | Leave(task: nat)
    | Stop(main: string)

  predicate In(s: Shop, k: nat, phase: Phase) { k in s.tasks && s.tasks[k].phase == phase }

  predicate Enabled(s: Shop, step: Step) {
    match step
    case Enter(k, main, id) => k !in s.tasks && id !in s.locks
    case Enlist(k) => In(s, k, Locked)
    case Withdraw(k) => In(s, k, Enlisted)
    case Leave(k) => In(s, k, Withdrew) || In(s, k, Locked) // panicked in front of the enrolment
    case Stop(main) => true
  }

  function Move(s: Shop, k: nat, phase: Phase): Shop
    requires k in s.tasks
  {
    s.(tasks := s.tasks[k := s.tasks[k].(phase := phase)])
  }

  function Cancelled(s: Shop, main: string): map<nat, Task> {
    map k | k in s.tasks :: if Listed(s.sponsored, main, s.tasks[k].id, k)
                            then s.tasks[k].(cancelled := s.tasks[k].cancelled + 1) else s.tasks[k]
  }

  function Apply(s: Shop, step: Step): Shop
    requires Enabled(s, step)
  {
    match step
    case Enter(k, main, id) => s.(tasks := s.tasks[k := Task(main, id, Locked, 0)], locks := s.locks[id := k])
    case Enlist(k) => Move(s, k, Enlisted).(sponsored := Enrolled(s.sponsored, s.tasks[k].main, s.tasks[k].id, k))
    case Withdraw(k) => Move(s, k, Withdrew).(sponsored := Withdrawn(s.sponsored, s.tasks[k].main, s.tasks[k].id))
    case Leave(k) => Move(s, k, Gone).(locks := s.locks - {s.tasks[k].id})
    case Stop(main) => s.(tasks := Cancelled(s, main), sponsored := s.sponsored - {main})
  }

  predicate Legal(s: Shop, steps: seq<Step>)
    decreases |steps|
  {
    steps == [] || (Enabled(s, steps[0]) && Legal(Apply(s, steps[0]), steps[1..]))
  }

  function Run(s: Shop, steps: seq<Step>): Shop
    requires Legal(s, steps)
    decreases |steps|
  {
    if steps == [] then s else Run(Apply(s, steps[0]), steps[1..])
  }

  predicate Holds(s: Shop, k: nat, id: string) { k in s.tasks && s.tasks[k].id == id && s.tasks[k].phase != Gone }

  /** Enrolled, and not stopped yet. */
  predicate Stoppable(s: Shop, k: nat, main: string, id: string) {
    In(s, k, Enlisted) && s.tasks[k].main == main != "" && s.tasks[k].id == id && s.tasks[k].cancelled == 0
  }

  /** The table lists exactly the enrolled executions nobody has stopped yet, and none is stopped twice. */
  ghost predicate Exact(s: Shop) {
    && Tidy(s.sponsored)
    && (forall k, id :: Holds(s, k, id) <==> id in s.locks && s.locks[id] == k)
    && (forall k, main, id :: Listed(s.sponsored, main, id, k) <==> Stoppable(s, k, main, id))
    && (forall k :: k in s.tasks ==> s.tasks[k].cancelled <= if s.tasks[k].phase == Locked then 0 else 1)
  }

  lemma ListedAfter(sp: Sponsored, main: string, id: string, k: nat, main': string, id': string, k': nat)
    requires Tidy(sp)
    ensures Tidy(Enrolled(sp, main, id, k)) && Tidy(Withdrawn(sp, main, id))
    ensures Listed(Enrolled(sp, main, id, k), main', id', k')
       <==> if main != "" && main' == main && id' == id then k' == k else Listed(sp, main', id', k')
    ensures Listed(Withdrawn(sp, main, id), main', id', k')
       <==> Listed(sp, main', id', k') && !(main' == main && id' == id)
  {
    if main != "" {
      assert id in Enrolled(sp, main, id, k)[main];
    }
    if main in sp && sp[main] - {id} == map[] {
      assert forall other :: other in sp[main] && other != id ==> other in sp[main] - {id};
    }
  }

  lemma StepLocks(s: Shop, step: Step, k: nat, id: string)
    requires Exact(s) && Enabled(s, step)
    ensures var t := Apply(s, step); Holds(t, k, id) <==> id in t.locks && t.locks[id] == k
  {
    hide Enrolled, Withdrawn, Listed, Tidy;
    assert Holds(s, k, id) <==> id in s.locks && s.locks[id] == k;
    if step.Leave? {
      var own := s.tasks[step.task].id;
      assert Holds(s, step.task, own) <==> own in s.locks && s.locks[own] == step.task;
    }
  }

  lemma StepLists(s: Shop, step: Step, k: nat, main: string, id: string)
    requires Exact(s) && Enabled(s, step)
    ensures var t := Apply(s, step); Listed(t.sponsored, main, id, k) <==> Stoppable(t, k, main, id)
  {
    hide Enrolled, Withdrawn, Tidy;
    assert Listed(s.sponsored, main, id, k) <==> Stoppable(s, k, main, id);
    if step.Enlist? || step.Withdraw? {
      var own := s.tasks[step.task];
      ListedAfter(s.sponsored, own.main, own.id, step.task, main, id, k);
      // the lock keeps every other task off this session
      assert Holds(s, step.task, own.id);
      if Stoppable(s, k, main, id) && id == own.id {
        assert Holds(s, k, own.id);
      }
      if step.Enlist? {
        assert s.tasks[step.task].cancelled == 0;
      }
    }
  }

  lemma StepExact(s: Shop, step: Step)
    requires Exact(s) && Enabled(s, step)
    ensures Exact(Apply(s, step))
  {
    var t := Apply(s, step);
    forall k, id
      ensures Holds(t, k, id) <==> id in t.locks && t.locks[id] == k
    {
      StepLocks(s, step, k, id);
    }
    forall k, main, id
      ensures Listed(t.sponsored, main, id, k) <==> Stoppable(t, k, main, id)
    {
      StepLists(s, step, k, main, id);
    }
    StepTidies(s, step);
  }

  lemma StepTidies(s: Shop, step: Step)
    requires Exact(s) && Enabled(s, step)
    ensures Tidy(Apply(s, step).sponsored)
    ensures forall k :: k in Apply(s, step).tasks ==>
              Apply(s, step).tasks[k].cancelled <= if Apply(s, step).tasks[k].phase == Locked then 0 else 1
  {
    if step.Enlist? || step.Withdraw? {
      ListedAfter(s.sponsored, s.tasks[step.task].main, s.tasks[step.task].id, step.task, "", "", 0);
      hide Enrolled, Withdrawn;
    } else if step.Stop? {
      forall k | k in s.tasks && Listed(s.sponsored, step.main, s.tasks[k].id, k)
        ensures Stoppable(s, k, step.main, s.tasks[k].id)
      {
      }
    }
  }

  /** No withdrawal takes another task's entry off the table. */
  lemma {:induction false} StaysExact(s: Shop, steps: seq<Step>)
    requires Exact(s) && Legal(s, steps)
    ensures Exact(Run(s, steps))
    decreases |steps|
  {
    hide Exact, Apply, Enabled;
    if steps != [] {
      StepExact(s, steps[0]);
      StaysExact(Apply(s, steps[0]), steps[1..]);
    }
  }

  const NOTHING: Shop := Shop(map[], map[], map[])

  lemma NothingYet()
    ensures Exact(NOTHING)
  {
  }

  /** Over every run from the start on, stopping a main session cancels exactly those of its sub-agents that are in
      their execution and were not stopped before, and nobody was stopped twice. */
  lemma RunExact(steps: seq<Step>, main: string)
    requires Legal(NOTHING, steps)
    ensures var t := Run(NOTHING, steps);
            forall k :: k in t.tasks ==>
              && t.tasks[k].cancelled <= 1
              && Apply(t, Stop(main)).tasks[k].cancelled
              == t.tasks[k].cancelled + if Stoppable(t, k, main, t.tasks[k].id) then 1 else 0
  {
    NothingYet();
    StaysExact(NOTHING, steps);
    var t := Run(NOTHING, steps);
    forall k | k in t.tasks
      ensures Listed(t.sponsored, main, t.tasks[k].id, k) <==> Stoppable(t, k, main, t.tasks[k].id)
    {
    }
  }
}
