/** A run in which dispatches that name a session put two tasks under one claim. */
module SubAgentCollapse {
  import opened SubAgents
  import opened SubAgentScheduler
  import opened SubAgentClaims

  /** One idle session, used before, and no tasks. */
  function OneSession(p: Profile): Scheduler {
    Scheduler(map["a" := Session(p, 1, false, 0)], map[], map[], 0)
  }

  lemma {:induction false} RunTwice(s: Scheduler, first: seq<Step>, rest: seq<Step>)
    requires Legal(s, first) && Legal(Run(s, first), rest)
    ensures Legal(s, first + rest) && Run(s, first + rest) == Run(Run(s, first), rest)
    decreases |first|
  {
    hide Enabled, Apply;
    if first == [] {
      assert first + rest == rest;
    } else {
      RunTwice(Apply(s, first[0]), first[1..], rest);
      assert (first + rest)[1..] == first[1..] + rest;
    }
  }

  function Through(k: nat): seq<Step> { [Admit(k), Register(k), Start(k)] + [TakeSlot(k), TakeLock(k), Finish(k)] }

  lemma Three(s: Scheduler, x: Step, y: Step, z: Step)
    requires Enabled(s, x) && Enabled(Apply(s, x), y) && Enabled(Apply(Apply(s, x), y), z)
    ensures Legal(s, [x, y, z]) && Run(s, [x, y, z]) == Apply(Apply(Apply(s, x), y), z)
  {
    hide Apply, Enabled;
    var steps := [x, y, z];
    assert steps[1..] == [y, z] && steps[1..][1..] == [z] && steps[1..][1..][1..] == [];
    NoSteps(Apply(Apply(Apply(s, x), y), z));
    var s2 := Apply(Apply(s, x), y);
    assert Legal(s2, [z]) && Run(s2, [z]) == Apply(s2, z);
    assert Legal(Apply(s, x), [y, z]) && Run(Apply(s, x), [y, z]) == Apply(s2, z);
  }

  lemma GetsReady(s: Scheduler, k: nat)
    requires In(s, k, Claiming) && StreakOf(s, s.tasks[k].id) < ITERATION_FAIL_LIMIT
    ensures Legal(s, [Admit(k), Register(k), Start(k)])
    ensures Run(s, [Admit(k), Register(k), Start(k)]) == Move(s, k, Queued)
  {
    hide CanClaim, Claimed, Released, Touched, Recorded, Legal, Run;
    var s1 := Move(s, k, Admitted);
    var s2 := Move(s, k, Registered);
    assert Apply(s, Admit(k)) == s1;
    assert Apply(s1, Register(k)) == s2;
    assert Apply(s2, Start(k)) == Move(s, k, Queued);
    hide Apply, Move;
    Three(s, Admit(k), Register(k), Start(k));
  }

  lemma Executes(s: Scheduler, k: nat)
    requires In(s, k, Queued) && s.slots < SLOTS && s.tasks[k].id !in s.locks
    ensures Legal(s, [TakeSlot(k), TakeLock(k), Finish(k)])
    ensures Run(s, [TakeSlot(k), TakeLock(k), Finish(k)])
         == Scheduler(Released(s.sessions, s.tasks[k].id), s.tasks[k := s.tasks[k].(phase := Leaving)],
                      s.locks[s.tasks[k].id := k], s.slots + 1)
  {
    hide CanClaim, Claimed, Released, Touched, Recorded, Legal, Run;
    var t := s.tasks[k];
    var s1 := Scheduler(s.sessions, s.tasks[k := t.(phase := Waiting)], s.locks, s.slots + 1);
    var s2 := Scheduler(s.sessions, s.tasks[k := t.(phase := Entered)], s.locks[t.id := k], s.slots + 1);
    assert Apply(s, TakeSlot(k)) == s1;
    assert Apply(s1, TakeLock(k)) == s2;
    assert Apply(s2, Finish(k)).tasks == s.tasks[k := t.(phase := Leaving)];
    Three(s, TakeSlot(k), TakeLock(k), Finish(k));
  }

  /** A task with slot and lock free goes through to where it gives back its claim. */
  lemma GoesThrough(s: Scheduler, k: nat)
    requires In(s, k, Claiming) && s.slots < SLOTS
    requires StreakOf(s, s.tasks[k].id) < ITERATION_FAIL_LIMIT && s.tasks[k].id !in s.locks
    ensures Legal(s, Through(k))
    ensures Run(s, Through(k))
         == Scheduler(Released(s.sessions, s.tasks[k].id), s.tasks[k := s.tasks[k].(phase := Leaving)],
                      s.locks[s.tasks[k].id := k], s.slots + 1)
  {
    hide Legal, Run;
    GetsReady(s, k);
    Executes(Move(s, k, Queued), k);
    RunTwice(s, [Admit(k), Register(k), Start(k)], [TakeSlot(k), TakeLock(k), Finish(k)]);
  }

  lemma NoSteps(s: Scheduler)
    ensures Legal(s, []) && Run(s, []) == s
  {
  }

  /** With names it fails: the first of two dispatches that name one session gives back the claim of both, and a
      third that names none is put in with the second. */
  lemma NamesCollapse(p: Profile) returns (s: Scheduler, steps: seq<Step>)
    ensures Initial(s) && Legal(s, steps)
    ensures |steps| > 0 && steps[|steps| - 1] == Dispatch(2, p, Reused("a"))
    ensures TakenBy(Run(s, steps), 1, "a") && TakenBy(Run(s, steps), 2, "a")
  {
    s := OneSession(p);
    var first := [Dispatch(0, p, Named("a")), Dispatch(1, p, Named("a"))] + Through(0);
    var third := [Dispatch(2, p, Reused("a"))];
    FirstGoesThrough(p);
    ThirdReuses(Run(s, first), p);
    hide *;
    RunTwice(s, first, third);
    steps := first + third;
  }

  lemma FirstGoesThrough(p: Profile)
    ensures var s, steps := OneSession(p), [Dispatch(0, p, Named("a")), Dispatch(1, p, Named("a"))] + Through(0);
            && Legal(s, steps)
            && Run(s, steps).sessions == map["a" := Session(p, 1, false, 0)]
            && 2 !in Run(s, steps).tasks && In(Run(s, steps), 1, Claiming) && Run(s, steps).tasks[1].id == "a"
  {
    var s, both := OneSession(p), [Dispatch(0, p, Named("a")), Dispatch(1, p, Named("a"))];
    NamedTwice(p);
    var s2 := Run(s, both);
    GoesThrough(s2, 0);
    hide Legal, Run, Through;
    RunTwice(s, both, Through(0));
  }

  lemma NamedTwice(p: Profile)
    ensures var s, steps := OneSession(p), [Dispatch(0, p, Named("a")), Dispatch(1, p, Named("a"))];
            && Legal(s, steps)
            && Run(s, steps) == Scheduler(map["a" := Session(p, 1, true, 0)],
                                          map[0 := Task("a", Claiming, 0), 1 := Task("a", Claiming, 0)], map[], 0)
  {
    var s, steps := OneSession(p), [Dispatch(0, p, Named("a")), Dispatch(1, p, Named("a"))];
    assert steps[1..] == [steps[1]] && steps[1..][1..] == [];
    var s1 := Scheduler(map["a" := Session(p, 1, true, 0)], map[0 := Task("a", Claiming, 0)], map[], 0);
    assert Apply(s, steps[0]) == s1;
    assert Enabled(s1, steps[1]);
    NoSteps(Apply(s1, steps[1]));
    assert Apply(s1, steps[1]).sessions == s1.sessions;
    assert Run(s1, [steps[1]]) == Apply(s1, steps[1]);
  }

  lemma ThirdReuses(s: Scheduler, p: Profile)
    requires "a" in s.sessions && s.sessions == map["a" := Session(p, 1, false, 0)]
    requires 2 !in s.tasks && In(s, 1, Claiming) && s.tasks[1].id == "a"
    ensures var steps := [Dispatch(2, p, Reused("a"))];
            Legal(s, steps) && TakenBy(Run(s, steps), 1, "a") && TakenBy(Run(s, steps), 2, "a")
  {
    var steps := [Dispatch(2, p, Reused("a"))];
    assert steps[1..] == [] && Enabled(s, steps[0]);
    NoSteps(Apply(s, steps[0]));
  }
}
