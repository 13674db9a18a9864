/** Decisions on their way to waiting sub-agents: a task that needs permission (or an answer) registers its
    one-slot channel and waits; dispatchers look a waiter up and send, in two separate moments. Permissions and
    answers to questions are routed alike. */
module DecisionRouting {
  import opened Wrappers

  /** A registered wait: the task whose channel it is, and when it began. */
  datatype Waiter = Waiter(task: nat, since: nat)

  type Pending = map<string, Waiter>

  /** What a lookup may return: the named session's waiter, or an earliest one. */
  predicate Found(pending: Pending, target: string, id: string) {
    id in pending &&
    if target != "" then id == target
    else forall other :: other in pending ==> pending[id].since <= pending[other].since
  }

  function Cleared(pending: Pending, id: string, task: nat): Pending {
    if id in pending && pending[id].task == task then pending - {id} else pending
  }

  class WaitTable {
    var known: set<string>
    var pending: Pending

    ghost predicate Valid()
      reads this
    {
      pending.Keys <= known && forall id :: id in pending ==> pending[id].since > 0
    }

    constructor (known: set<string>)
      ensures Valid() && this.known == known && pending == map[]
    {
      this.known := known;
      pending := map[];
    }

    method RegisterWait(id: string, task: nat, now: nat)
      requires Valid() && now > 0
      modifies this`pending
      ensures Valid() && pending == if id in known then old(pending)[id := Waiter(task, now)] else old(pending)
    {
      if id !in known {
        return;
      }
      pending := pending[id := Waiter(task, now)];
    }

    method ClearWait(id: string, task: nat)
      requires Valid()
      modifies this`pending
      ensures Valid() && pending == Cleared(old(pending), id, task)
    {
      if id !in known || id !in pending || pending[id].task != task {
        return;
      }
      pending := pending - {id};
    }

    method FindPending(target: string) returns (found: Option<string>)
      requires Valid()
      ensures found.Some? ==> Found(pending, target, found.value)
      ensures found.None? ==> if target != "" then target !in pending else pending == map[]
    {
      if target != "" {
        return if target in pending then Some(target) else None;
      }
      var earliest := 0;
      found := None;
      var rest := pending.Keys;
      while rest != {}
        invariant rest <= pending.Keys
        invariant found.None? ==> earliest == 0 && rest == pending.Keys
        invariant found.Some? ==> found.value in pending && earliest == pending[found.value].since
        invariant found.Some? ==> forall id :: id in pending && id !in rest ==> earliest <= pending[id].since
        decreases |rest|
      {
        var id :| id in rest;
        rest := rest - {id};
        if earliest == 0 || pending[id].since < earliest {
          earliest := pending[id].since;
          found := Some(id);
        }
      }
      if found.None? {
        assert pending == map[];
      }
    }
  }

  // ---------------------------------------------------------------- the main session's side

  /** What became of a user's word: not a decision, applied to the main session's own request, or kept out of
      the conversation, sent or not. */
  datatype Resolution = NoDecision | Applied(request: string) | Consumed(sentTo: Option<string>)

  /** The main session's own request for permission, if it waits for one. */
  class MainSession {
    var own: Option<string>
    const id: string

    constructor (id: string, own: Option<string>)
      ensures this.id == id && this.own == own
    {
      this.id, this.own := id, own;
    }

    /** Resolves a decision (`isDecision` tells whether the user's words are one) that may name a session. A send
        goes through where `accepting` says the channel takes it. */
    method ResolveDecision(isDecision: bool, target: string, table: WaitTable, accepting: set<string>)
      returns (r: Resolution)
      requires table.Valid()
      modifies this`own
      ensures r.Applied? <==> isDecision && old(own).Some? && (target == "" || target == id)
      ensures r.Applied? ==> r.request == old(own).value && own == None
      ensures !r.Applied? ==> own == old(own)
      ensures isDecision && target != "" && target != id ==>
                r == Consumed(if target in table.pending && target in accepting then Some(target) else None)
      ensures isDecision && target != "" && target == id && old(own).None? ==> r == Consumed(None)
      ensures isDecision && target == "" && old(own).None? ==>
                || (r.Consumed? && r.sentTo.Some? && r.sentTo.value in accepting
                    && Found(table.pending, "", r.sentTo.value))
                || (r == NoDecision
                    && (table.pending == map[] || exists f :: Found(table.pending, "", f) && f !in accepting))
      ensures !isDecision ==> r == NoDecision
    {
      if !isDecision {
        return NoDecision;
      }
      if target != "" && target == id {
        if own.None? {
          return Consumed(None);
        }
        r := Applied(own.value);
        own := None;
        return;
      }
      if target != "" {
        var found := table.FindPending(target);
        assert found.Some? ==> found.value == target;
        return Consumed(if found.Some? && found.value in accepting then found else None);
      }
      if own.None? {
        var found := table.FindPending("");
        if found.Some? && found.value in accepting {
          return Consumed(found);
        }
        return NoDecision;
      }
      r := Applied(own.value);
      own := None;
    }
  }

  // ---------------------------------------------------------------- all interleavings

  /** A task's execution, as far as waiting goes. */
  datatype Phase =
    | Busy       // no wait in progress
    | Waiting    // registered, ready to receive
    | Answered   // has received, not cleared yet
    | GivenUp    // timed out or cancelled, not cleared yet
    | Quitting   // has given up: will not wait again
    | Closed     // channel closed, session's lock still held
    | Gone

  /** A decision, the wait of its task that was on when it was looked up, and whether that wait was still open
      when it was sent. */
  datatype Letter = Letter(decision: string, asked: nat, onTime: bool)

  /** A decision received, and the wait that received it. */
  datatype Taken = Taken(letter: Letter, got: nat)

  /** A channel: its buffer, and the histories of what was delivered to it and received from it. */
  datatype Box = Box(slot: Option<Letter>, delivered: seq<Letter>, taken: seq<Taken>)

  /** `wait` counts the waits begun. */
  datatype Task = Task(id: string, phase: Phase, wait: nat, box: Box)

  /** A decision between lookup and send. */
  datatype Lookup = Lookup(task: nat, asked: nat, decision: string)

  datatype Desk = Desk(tasks: map<nat, Task>, executing: map<string, nat>, pending: Pending, lookups: map<nat, Lookup>)

  datatype Step =
    | Begin(task: nat, id: string)
    | Wait(task: nat, now: nat)
    | Receive(task: nat)
    | GiveUp(task: nat)
    | Clear(task: nat)
    | Close(task: nat)
    | Leave(task: nat)
    | Find(lookup: nat, target: string, found: string, decision: string)
    | Send(lookup: nat)

  predicate In(s: Desk, k: nat, phase: Phase) { k in s.tasks && s.tasks[k].phase == phase }

  predicate Enabled(s: Desk, step: Step) {
    match step
    case Begin(k, id) => k !in s.tasks && id !in s.executing
    case Wait(k, now) => In(s, k, Busy)
    case Receive(k) => In(s, k, Waiting) && s.tasks[k].box.slot.Some?
    case GiveUp(k) => In(s, k, Waiting)
    case Clear(k) => In(s, k, Answered) || In(s, k, GivenUp)
    case Close(k) => In(s, k, Busy) || In(s, k, Quitting)
    case Leave(k) => In(s, k, Closed)
    case Find(c, target, found, _) => c !in s.lookups && Found(s.pending, target, found)
                                      && s.pending[found].task in s.tasks
    case Send(c) => c in s.lookups && s.lookups[c].task in s.tasks
  }

  predicate IsOpen(t: Task) { t.phase != Closed && t.phase != Gone }

  /** A send that does not block: lost if the channel is closed or its slot taken. */
  function Posted(t: Task, l: Lookup): Task {
    if !IsOpen(t) || t.box.slot.Some? then t
    else
      var letter := Letter(l.decision, l.asked, t.phase == Waiting && t.wait == l.asked);
      t.(box := t.box.(slot := Some(letter), delivered := t.box.delivered + [letter]))
  }

  function Opened(t: Task): Task
    requires t.box.slot.Some?
  {
    t.(phase := Answered, box := t.box.(slot := None, taken := t.box.taken + [Taken(t.box.slot.value, t.wait)]))
  }

  function MoveTask(s: Desk, step: Step): Task
    requires Enabled(s, step) && !step.Find?
  {
    match step
    case Begin(k, id) => Task(id, Busy, 0, Box(None, [], []))
    case Wait(k, now) => s.tasks[k].(phase := Waiting, wait := s.tasks[k].wait + 1)
    case Receive(k) => Opened(s.tasks[k])
    case GiveUp(k) => s.tasks[k].(phase := GivenUp)
    case Clear(k) => s.tasks[k].(phase := if s.tasks[k].phase == Answered then Busy else Quitting)
    case Close(k) => s.tasks[k].(phase := Closed)
    case Leave(k) => s.tasks[k].(phase := Gone)
    case Send(c) => Posted(s.tasks[s.lookups[c].task], s.lookups[c])
  }

  function MovedExecuting(s: Desk, step: Step): map<string, nat>
    requires Enabled(s, step)
  {
    match step
    case Begin(k, id) => s.executing[id := k]
    case Leave(k) => s.executing - {s.tasks[k].id}
    case _ => s.executing
  }

  function MovedPending(s: Desk, step: Step): Pending
    requires Enabled(s, step)
  {
    match step
    case Wait(k, now) => s.pending[s.tasks[k].id := Waiter(k, now)]
    case Clear(k) => Cleared(s.pending, s.tasks[k].id, k)
    case Close(k) => Cleared(s.pending, s.tasks[k].id, k)
    case _ => s.pending
  }

  /** The task a step is about. */
  function Subject(s: Desk, step: Step): nat
    requires Enabled(s, step) && !step.Find?
  {
    if step.Send? then s.lookups[step.lookup].task else step.task
  }

  function Apply(s: Desk, step: Step): Desk
    requires Enabled(s, step)
  {
    if step.Find? then
      var k := s.pending[step.found].task;
      s.(lookups := s.lookups[step.lookup := Lookup(k, s.tasks[k].wait, step.decision)])
    else
      Desk(s.tasks[Subject(s, step) := MoveTask(s, step)], MovedExecuting(s, step), MovedPending(s, step),
           if step.Send? then s.lookups - {step.lookup} else s.lookups)
  }

  predicate Legal(s: Desk, steps: seq<Step>)
    decreases |steps|
  {
    steps == [] || (Enabled(s, steps[0]) && Legal(Apply(s, steps[0]), steps[1..]))
  }

  function Run(s: Desk, steps: seq<Step>): Desk
    requires Legal(s, steps)
    decreases |steps|
  {
    if steps == [] then s else Run(Apply(s, steps[0]), steps[1..])
  }

  const EMPTY: Desk := Desk(map[], map[], map[], map[])

  // ---------------------------------------------------------------- registrations

  predicate RunsOn(s: Desk, k: nat, id: string) { k in s.tasks && s.tasks[k].id == id && s.tasks[k].phase != Gone }

  predicate Locked(s: Desk, k: nat, id: string) { id in s.executing && s.executing[id] == k }

  /** Waits, or is about to clear its registration. */
  predicate WaitsOn(s: Desk, k: nat, id: string) {
    k in s.tasks && s.tasks[k].id == id && s.tasks[k].phase in {Waiting, Answered, GivenUp}
  }

  predicate Listed(s: Desk, k: nat, id: string) { id in s.pending && s.pending[id].task == k }

  /** Sessions execute one task at a time, and exactly the waits in progress are registered. */
  ghost predicate Registered(s: Desk) {
    && (forall k, id :: RunsOn(s, k, id) <==> Locked(s, k, id))
    && (forall k, id :: WaitsOn(s, k, id) <==> Listed(s, k, id))
  }

  lemma StepRuns(s: Desk, step: Step, k: nat, id: string)
    requires Registered(s) && Enabled(s, step)
    ensures RunsOn(Apply(s, step), k, id) <==> Locked(Apply(s, step), k, id)
  {
    hide Found, Cleared;
    assert RunsOn(s, k, id) <==> Locked(s, k, id);
    if !step.Find? && Subject(s, step) in s.tasks {
      var j := Subject(s, step);
      assert RunsOn(s, j, s.tasks[j].id) <==> Locked(s, j, s.tasks[j].id);
    }
  }

  lemma StepWaits(s: Desk, step: Step, k: nat, id: string)
    requires Registered(s) && Enabled(s, step)
    ensures WaitsOn(Apply(s, step), k, id) <==> Listed(Apply(s, step), k, id)
  {
    hide Found;
    assert WaitsOn(s, k, id) <==> Listed(s, k, id);
    if step.Wait? {
      // the lock keeps every other task from waiting on this session
      var mine := s.tasks[step.task].id;
      assert RunsOn(s, step.task, mine) && Locked(s, step.task, mine);
      assert k != step.task && WaitsOn(s, k, mine) ==> RunsOn(s, k, mine) && Locked(s, k, mine);
    }
    if !step.Find? && Subject(s, step) in s.tasks {
      var j := Subject(s, step);
      assert WaitsOn(s, j, s.tasks[j].id) <==> Listed(s, j, s.tasks[j].id);
    }
  }

  /** No clear, by whatever task, removes the registration of another, and none is overwritten. */
  lemma StepRegistered(s: Desk, step: Step)
    requires Registered(s) && Enabled(s, step)
    ensures Registered(Apply(s, step))
  {
    forall k, id
      ensures RunsOn(Apply(s, step), k, id) <==> Locked(Apply(s, step), k, id)
      ensures WaitsOn(Apply(s, step), k, id) <==> Listed(Apply(s, step), k, id)
    {
      StepRuns(s, step, k, id);
      StepWaits(s, step, k, id);
    }
  }

  // ---------------------------------------------------------------- letters

  function Letters(taken: seq<Taken>): (r: seq<Letter>)
    ensures |r| == |taken| && forall k :: 0 <= k < |taken| ==> r[k] == taken[k].letter
  {
    if taken == [] then [] else [taken[0].letter] + Letters(taken[1..])
  }

  function Buffered(b: Box): seq<Letter> { if b.slot.Some? then [b.slot.value] else [] }

  /** Everything delivered to a channel was received, in order, or is the one letter in its slot. */
  predicate Conserved(b: Box) { b.delivered == Letters(b.taken) + Buffered(b) }

  /** Every wait received one letter at most; and a letter went to the very wait it was looked up for exactly if
      that wait was open when it was sent. */
  predicate TakenWell(t: Task) {
    var taken := t.box.taken;
    && (forall j, k :: 0 <= j < k < |taken| ==> taken[j].got < taken[k].got)
    && (forall k :: 0 <= k < |taken| ==>
          taken[k].got <= t.wait && (t.phase == Waiting ==> taken[k].got < t.wait) &&
          taken[k].letter.asked <= taken[k].got && (taken[k].letter.onTime <==> taken[k].letter.asked == taken[k].got))
  }

  predicate SlotWell(t: Task) {
    t.box.slot.Some? ==>
      var l := t.box.slot.value;
      && l.asked <= t.wait
      && (l.onTime ==> l.asked == t.wait && t.phase != Busy && t.phase != Answered)
      && (!l.onTime && t.phase == Waiting ==> l.asked < t.wait)
  }

  predicate Letterly(t: Task) { Conserved(t.box) && TakenWell(t) && SlotWell(t) }

  ghost predicate Delivered(s: Desk) {
    && (forall k :: k in s.tasks ==> Letterly(s.tasks[k]))
    && (forall c :: c in s.lookups ==>
          s.lookups[c].task in s.tasks && s.lookups[c].asked <= s.tasks[s.lookups[c].task].wait)
  }

  lemma PostedLetterly(t: Task, l: Lookup)
    requires Letterly(t) && l.asked <= t.wait
    ensures Letterly(Posted(t, l))
  {
    hide Letters;
    if t.box.slot.None? {
      assert t.box.delivered == Letters(t.box.taken);
    }
  }

  lemma OpenedLetterly(t: Task)
    requires Letterly(t) && t.phase == Waiting && t.box.slot.Some?
    ensures Letterly(Opened(t))
  {
    hide Letters;
    var taken := Opened(t).box.taken;
    assert Letters(taken) == Letters(t.box.taken) + [t.box.slot.value];
  }

  lemma MovedLetterly(s: Desk, step: Step)
    requires Enabled(s, step) && !step.Find? && Delivered(s)
    ensures Letterly(MoveTask(s, step))
    ensures Subject(s, step) in s.tasks ==> s.tasks[Subject(s, step)].wait <= MoveTask(s, step).wait
  {
    hide Found, Conserved;
    if step.Send? {
      PostedLetterly(s.tasks[s.lookups[step.lookup].task], s.lookups[step.lookup]);
    } else if step.Receive? {
      OpenedLetterly(s.tasks[step.task]);
    } else if step.Begin? {
      assert Conserved(Box(None, [], [])) by {
        EmptyBox();
      }
    } else {
      assert Letterly(s.tasks[step.task]);
    }
  }

  lemma EmptyBox()
    ensures Conserved(Box(None, [], []))
  {
  }

  lemma StepDelivered(s: Desk, step: Step)
    requires Registered(s) && Delivered(s) && Enabled(s, step)
    ensures Delivered(Apply(s, step))
  {
    hide Letterly, Found;
    if !step.Find? {
      MovedLetterly(s, step);
    }
  }

  /** Over every run from any desk that is so: registrations are exactly the waits in progress, and letters are
      delivered and answered as they should. */
  lemma {:induction false} KeepsRouting(s: Desk, steps: seq<Step>)
    requires Registered(s) && Delivered(s) && Legal(s, steps)
    ensures Registered(Run(s, steps)) && Delivered(Run(s, steps))
    decreases |steps|
  {
    hide Registered, Delivered, Enabled, Apply;
    if steps != [] {
      StepRegistered(s, steps[0]);
      StepDelivered(s, steps[0]);
      KeepsRouting(Apply(s, steps[0]), steps[1..]);
    }
  }

  lemma EmptyDesk()
    ensures Registered(EMPTY) && Delivered(EMPTY)
  {
  }

  /** Whatever happens from the start on: exactly the waits in progress are registered; what was delivered to a task
      is what it received and what its slot holds; no wait received twice; and a decision answered the wait it was
      looked up for exactly if that was still open when it was sent. */
  lemma RunRoutes(steps: seq<Step>)
    requires Legal(EMPTY, steps)
    ensures var s := Run(EMPTY, steps);
            && (forall k, id :: WaitsOn(s, k, id) <==> Listed(s, k, id))
            && (forall k :: k in s.tasks ==>
                  && Conserved(s.tasks[k].box)
                  && (forall i, j :: 0 <= i < j < |s.tasks[k].box.taken| ==>
                        s.tasks[k].box.taken[i].got < s.tasks[k].box.taken[j].got)
                  && (forall i :: 0 <= i < |s.tasks[k].box.taken| ==>
                        var t := s.tasks[k].box.taken[i]; t.letter.onTime <==> t.got == t.letter.asked))
  {
    EmptyDesk();
    KeepsRouting(EMPTY, steps);
  }

  /** While a task waits, a lookup with its session as target finds it and nothing else, and one without target
      finds a task that has waited no less long. */
  lemma WaiterIsFound(s: Desk, k: nat)
    requires Registered(s) && In(s, k, Waiting) && s.tasks[k].id != ""
    ensures Listed(s, k, s.tasks[k].id)
    ensures forall found :: Found(s.pending, s.tasks[k].id, found) <==> found == s.tasks[k].id
    ensures forall found :: Found(s.pending, "", found) ==> s.pending[found].since <= s.pending[s.tasks[k].id].since
  {
    assert WaitsOn(s, k, s.tasks[k].id);
  }

  lemma {:induction false} RunTwice(s: Desk, first: seq<Step>, rest: seq<Step>)
    requires Legal(s, first) && Legal(Run(s, first), rest)
    ensures Legal(s, first + rest) && Run(s, first + rest) == Run(Run(s, first), rest)
    decreases |first|
  {
    hide Enabled, Apply;
    if first == [] {
      assert first + rest == rest;
    } else {
      RunTwice(Apply(s, first[0]), first[1..], rest);
      assert (first + rest)[1..] == first[1..] + rest;
    }
  }

  /** A decision for a waiting task with an empty slot is received, and the wait is over. */
  lemma Answers(s: Desk, k: nat, c: nat) returns (steps: seq<Step>)
    requires In(s, k, Waiting) && s.tasks[k].box.slot.None? && c in s.lookups && s.lookups[c].task == k
    ensures Legal(s, steps) && k in Run(s, steps).tasks && Run(s, steps).lookups == s.lookups - {c}
    ensures Run(s, steps).tasks[k] == Opened(Posted(s.tasks[k], s.lookups[c])).(phase := Busy)
  {
    hide MovedPending, MovedExecuting;
    steps := [Send(c), Receive(k), Clear(k)];
    assert steps[1..] == [Receive(k), Clear(k)] && steps[1..][1..] == [Clear(k)] && steps[1..][1..][1..] == [];
    var s1 := Apply(s, Send(c));
    var s2 := Apply(s1, Receive(k));
    var s3 := Apply(s2, Clear(k));
    assert Legal(s3, []) && Run(s3, []) == s3;
    assert Legal(s2, [Clear(k)]) && Run(s2, [Clear(k)]) == s3;
  }

  /** A decision for a task that does not wait at the moment is kept for its next wait. */
  lemma AnswersLater(s: Desk, k: nat, d: nat, now: nat) returns (steps: seq<Step>)
    requires In(s, k, Busy) && s.tasks[k].box.slot.None? && d in s.lookups && s.lookups[d].task == k
    ensures Legal(s, steps) && k in Run(s, steps).tasks
    ensures Run(s, steps).tasks[k]
         == Opened(Posted(s.tasks[k], s.lookups[d]).(phase := Waiting, wait := s.tasks[k].wait + 1))
  {
    hide MovedPending, MovedExecuting;
    steps := [Send(d), Wait(k, now), Receive(k)];
    assert steps[1..] == [Wait(k, now), Receive(k)] && steps[1..][1..] == [Receive(k)] && steps[1..][1..][1..] == [];
    var s1 := Apply(s, Send(d));
    var s2 := Apply(s1, Wait(k, now));
    var s3 := Apply(s2, Receive(k));
    assert Legal(s3, []) && Run(s3, []) == s3;
    assert Legal(s2, [Receive(k)]) && Run(s2, [Receive(k)]) == s3;
  }

  /** Two decisions looked up for the same wait: both are reported delivered, and the second one answers the
      task's next request, whatever that asks. */
  lemma SecondAnswersNext(s: Desk, k: nat, c: nat, d: nat, now: nat) returns (steps: seq<Step>)
    requires In(s, k, Waiting) && s.tasks[k].box.slot.None? && c != d
    requires c in s.lookups && d in s.lookups && s.lookups[c].task == k && s.lookups[d].task == k
    requires s.lookups[c].asked == s.lookups[d].asked == s.tasks[k].wait
    ensures Legal(s, steps) && k in Run(s, steps).tasks
    ensures var t, w := Run(s, steps).tasks[k], s.tasks[k].wait;
            t.box.taken == s.tasks[k].box.taken + [Taken(Letter(s.lookups[c].decision, w, true), w),
                                                   Taken(Letter(s.lookups[d].decision, w, false), w + 1)]
  {
    hide Legal, Run;
    var first := Answers(s, k, c);
    var rest := AnswersLater(Run(s, first), k, d, now);
    RunTwice(s, first, rest);
    steps := first + rest;
  }
}
