/** Sub-agent tasks under every interleaving: dispatches claim sessions and register tasks; each task waits for
    one of twenty slots, then for its session's lock, executes, and settles its control-plane entry. A panic may
    strike in every phase. One step is what happens within one hold of the manager's lock, or one wait. */
module SubAgentScheduler {
  import opened SubAgents

  /** Tasks that may hold a slot at once. */
  const SLOTS: nat := 20

  datatype Phase =
    | Claiming    // session claimed
    | Admitted    // let through by the circuit breaker, control-plane entry not registered
    | Registered  // entry registered, goroutine not started
    | Queued      // goroutine started, wants a slot
    | Waiting     // holds a slot, wants the session's lock
    | Entered     // holds slot and lock
    | Executing   // has marked the session as used
    | Leaving     // execution over, claim given back, lock still held
    | Executed    // lock given back, entry not settled
    | Unwinding   // panicked in front of settlement: slot given back, entry not settled
    | Settled     // entry settled, slot still held
    | Noted       // and the outcome counted towards the session's streak
    | Done        // settled, nothing held
    | Refused     // dispatch refused by the circuit breaker, claim given back
    | Dropped     // dispatch failed in front of registration, claim never given back
    | Aborted     // dispatch panicked behind registration: entry settled, claim never given back

  /** `settlements` counts the Complete and Fail calls on the task's entry. */
  datatype Task = Task(id: string, phase: Phase, settlements: nat)

  datatype Scheduler = Scheduler(sessions: Sessions, tasks: map<nat, Task>, locks: map<string, nat>, slots: nat)

  datatype Step =
    | Dispatch(task: nat, profile: Profile, claim: Claim)
    | Refuse(task: nat)
    | Admit(task: nat)
    | Drop(task: nat)
    | Register(task: nat)
    | Abort(task: nat)
    | Start(task: nat)
    | TakeSlot(task: nat)
    | TakeLock(task: nat)
    | Touch(task: nat, now: nat)
    | Finish(task: nat)
    | Unlock(task: nat)
    | Settle(task: nat)
    | Panic(task: nat)
    | SettleLate(task: nat)
    | Note(task: nat, ending: Ending)
    | Return(task: nat)

  predicate HoldsSlot(t: Task) {
    t.phase in {Waiting, Entered, Executing, Leaving, Executed, Settled, Noted}
  }

  predicate HoldsLock(t: Task) { t.phase in {Entered, Executing, Leaving} }

  /** From claim to release: the session counts as taken. Failed dispatches never release theirs. */
  predicate Outstanding(t: Task) {
    t.phase in {Claiming, Admitted, Registered, Queued, Waiting, Entered, Executing, Dropped, Aborted}
  }

  predicate IsRegistered(t: Task) { t.phase !in {Claiming, Admitted, Refused, Dropped} }

  predicate Over(t: Task) { t.phase in {Done, Refused, Dropped, Aborted} }

  predicate In(s: Scheduler, task: nat, phase: Phase) { task in s.tasks && s.tasks[task].phase == phase }

  function StreakOf(s: Scheduler, id: string): nat { if id in s.sessions then s.sessions[id].streak else 0 }

  predicate Enabled(s: Scheduler, step: Step) {
    match step
    case Dispatch(task, profile, claim) => task !in s.tasks && CanClaim(s.sessions, profile, claim)
    case Refuse(task) => In(s, task, Claiming) && StreakOf(s, s.tasks[task].id) >= ITERATION_FAIL_LIMIT
    case Admit(task) => In(s, task, Claiming) && StreakOf(s, s.tasks[task].id) < ITERATION_FAIL_LIMIT
    case Drop(task) => In(s, task, Claiming) || In(s, task, Admitted)
    case Register(task) => In(s, task, Admitted)
    case Abort(task) => In(s, task, Registered)
    case Start(task) => In(s, task, Registered)
    case TakeSlot(task) => In(s, task, Queued) && s.slots < SLOTS
    case TakeLock(task) => In(s, task, Waiting) && s.tasks[task].id !in s.locks
    case Touch(task, now) => In(s, task, Entered) && now > 0
    case Finish(task) => In(s, task, Entered) || In(s, task, Executing)
    case Unlock(task) => In(s, task, Leaving)
    case Settle(task) => In(s, task, Executed)
    case Panic(task) => In(s, task, Executed) && s.slots > 0
    case SettleLate(task) => In(s, task, Unwinding)
    case Note(task, ending) => In(s, task, Settled)
    case Return(task) => (In(s, task, Settled) || In(s, task, Noted)) && s.slots > 0
  }

  function Move(s: Scheduler, task: nat, phase: Phase): Scheduler
    requires task in s.tasks
  {
    s.(tasks := s.tasks[task := s.tasks[task].(phase := phase)])
  }

  function SettleAs(s: Scheduler, task: nat, phase: Phase): Scheduler
    requires task in s.tasks
  {
    s.(tasks := s.tasks[task := s.tasks[task].(phase := phase, settlements := s.tasks[task].settlements + 1)])
  }

  function Apply(s: Scheduler, step: Step): Scheduler
    requires Enabled(s, step)
  {
    match step
    case Dispatch(task, _, claim) =>
      s.(sessions := Claimed(s.sessions, claim), tasks := s.tasks[task := Task(claim.id, Claiming, 0)])
    case Refuse(task) => Move(s, task, Refused).(sessions := Released(s.sessions, s.tasks[task].id))
    case Admit(task) => Move(s, task, Admitted)
    case Drop(task) => Move(s, task, Dropped)
    case Register(task) => Move(s, task, Registered)
    case Abort(task) => SettleAs(s, task, Aborted)
    case Start(task) => Move(s, task, Queued)
    case TakeSlot(task) => Move(s, task, Waiting).(slots := s.slots + 1)
    case TakeLock(task) => Move(s, task, Entered).(locks := s.locks[s.tasks[task].id := task])
    case Touch(task, now) => Move(s, task, Executing).(sessions := Touched(s.sessions, s.tasks[task].id, now))
    case Finish(task) => Move(s, task, Leaving).(sessions := Released(s.sessions, s.tasks[task].id))
    case Unlock(task) => Move(s, task, Executed).(locks := s.locks - {s.tasks[task].id})
    case Settle(task) => SettleAs(s, task, Settled)
    case Panic(task) => Move(s, task, Unwinding).(slots := s.slots - 1)
    case SettleLate(task) => SettleAs(s, task, Done)
    case Note(task, ending) => Move(s, task, Noted).(sessions := Recorded(s.sessions, s.tasks[task].id, ending))
    case Return(task) => Move(s, task, Done).(slots := s.slots - 1)
  }

  // ---------------------------------------------------------------- runs

  predicate Legal(s: Scheduler, steps: seq<Step>)
    decreases |steps|
  {
    steps == [] || (Enabled(s, steps[0]) && Legal(Apply(s, steps[0]), steps[1..]))
  }

  function Run(s: Scheduler, steps: seq<Step>): Scheduler
    requires Legal(s, steps)
    decreases |steps|
  {
    if steps == [] then s else Run(Apply(s, steps[0]), steps[1..])
  }

  /** A manager that starts with a table of sessions nobody has claimed, and no tasks. */
  predicate Initial(s: Scheduler) {
    s.tasks == map[] && s.locks == map[] && s.slots == 0 && forall id :: id in s.sessions ==> !s.sessions[id].spawning
  }

  // ---------------------------------------------------------------- slots, locks, settlements

  function Holders(tasks: map<nat, Task>): set<nat> { set k | k in tasks && HoldsSlot(tasks[k]) }

  predicate SlotsCounted(s: Scheduler) { s.slots == |Holders(s.tasks)| <= SLOTS }

  predicate HeldBy(s: Scheduler, k: nat, id: string) { k in s.tasks && HoldsLock(s.tasks[k]) && s.tasks[k].id == id }

  predicate Locked(s: Scheduler, k: nat, id: string) { id in s.locks && s.locks[id] == k }

  /** A session's lock is held by the one task that executes on it. */
  ghost predicate LocksExact(s: Scheduler) { forall k, id :: HeldBy(s, k, id) <==> Locked(s, k, id) }

  predicate SettledAsDue(t: Task) {
    t.settlements == if t.phase in {Settled, Noted, Done, Aborted} then 1 else 0
  }

  predicate SettledOnce(s: Scheduler) { forall k :: k in s.tasks ==> SettledAsDue(s.tasks[k]) }

  ghost predicate Sound(s: Scheduler) { SlotsCounted(s) && LocksExact(s) && SettledOnce(s) }
}
