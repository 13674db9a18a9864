/** What an update leaves of the tasks themselves: texts, states, and the two lists, and the life of a task over runs
    of updates. */
module TaskLife {
  import opened TaskGraph
  import opened TaskGraphSafety

  // ---------------------------------------------------------------- details and status

  /** Two stores with the same tasks, the same texts and states in them, but for one. */
  predicate SameBut(before: Tasks, after: Tasks, task: string) {
    && before.Keys == after.Keys
    && forall id :: id in before && id != task ==>
         after[id].details == before[id].details && after[id].status == before[id].status
  }

  predicate Same(before: Tasks, after: Tasks) {
    && before.Keys == after.Keys
    && forall id :: id in before ==> after[id].details == before[id].details && after[id].status == before[id].status
  }

  lemma {:induction false} BlocksSame(d: Draft, task: string, ids: seq<string>)
    ensures Same(d.tasks, AddBlocks(d, task, ids).tasks)
  {
    hide Reaches, EdgesOf;
    if ids != [] {
      BlocksSame(d, task, ids[..|ids| - 1]);
    }
  }

  lemma {:induction false} BlockersSame(d: Draft, task: string, ids: seq<string>)
    ensures Same(d.tasks, AddBlockers(d, task, ids).tasks)
  {
    hide Reaches, EdgesOf;
    if ids != [] {
      BlockersSame(d, task, ids[..|ids| - 1]);
    }
  }

  /** An update that goes through stores the details and the status it was given. No update, whatever its outcome,
      changes those of another task, or those of this one if it does not go through. */
  lemma UpdateStores(tasks: Tasks, task: string, c: Change)
    ensures var (after, outcome) := Update(tasks, task, c);
            && SameBut(tasks, after, task)
            && (outcome == Updated ==>
                  task in after && after[task].details == c.details && after[task].status == c.status)
            && (outcome != Updated ==> Same(tasks, after))
            && (outcome == NotFound <==> task !in tasks)
  {
    hide AddBlocks, AddBlockers;
    if task in tasks {
      var first := Blocking(tasks, task, c);
      BlocksSame(Draft(tasks, tasks[task].blocks, false), task, c.addBlocks);
      BlockersSame(Draft(first.tasks, tasks[task].blockedBy, first.refused), task, c.addBlockedBy);
    }
  }

  // ---------------------------------------------------------------- which changes are allowed

  predicate Unfinished(s: Status) { s == Pending || s == InProgress }

  predicate Finished(s: Status) { s == Completed || s == Cancelled }

  /** A change of status is refused exactly unless it leads from an unfinished status to a begun or finished one. */
  lemma RefusedStatus(tasks: Tasks, task: string, c: Change)
    requires task in tasks
    ensures var from, to := tasks[task].status, c.status;
            Update(tasks, task, c).1 == BadTransition <==>
            from != to && !(Unfinished(from) && (to == InProgress || Finished(to)))
  {
    hide AddBlocks, AddBlockers;
  }

  /** A change of details or status that names no tasks goes through exactly if its status is allowed. */
  lemma PlainChange(tasks: Tasks, task: string, c: Change)
    requires task in tasks && c.addBlocks == [] && c.addBlockedBy == []
    requires c.details != tasks[task].details || c.status != tasks[task].status
    ensures var from, to := tasks[task].status, c.status;
            Update(tasks, task, c).1 == Updated <==>
            from == to || (Unfinished(from) && (to == InProgress || Finished(to)))
  {
  }

  // ---------------------------------------------------------------- whole runs

  /** The task is neither created again nor deleted. */
  predicate LeftAlone(es: seq<Event>, id: string) {
    forall e :: e in es && (e.Create? || e.Delete?) ==> e.id != id
  }

  lemma OneEvent(tasks: Tasks, e: Event, id: string)
    requires id in tasks && ((e.Create? || e.Delete?) ==> e.id != id)
    ensures id in Apply(tasks, e)
    ensures Apply(tasks, e)[id].status != tasks[id].status ==>
              Unfinished(tasks[id].status)
              && (Apply(tasks, e)[id].status == InProgress || Finished(Apply(tasks, e)[id].status))
  {
    hide Update;
    if e.Change? {
      UpdateStores(tasks, e.id, e.change);
      if e.id == id {
        RefusedStatus(tasks, id, e.change);
      }
    }
  }

  /** Over every run a finished task stays as it was finished, and no task that has been begun is pending again, until
      it is deleted or created anew. */
  lemma {:induction false} LifeCycle(tasks: Tasks, es: seq<Event>, id: string)
    requires id in tasks && LeftAlone(es, id)
    ensures id in Run(tasks, es)
    ensures var from, to := tasks[id].status, Run(tasks, es)[id].status;
            && (Finished(from) ==> to == from) && (from != Pending ==> to != Pending)
            && (from != to ==> Unfinished(from) && (to == InProgress || Finished(to)))
    decreases |es|
  {
    hide Apply;
    if es != [] {
      assert es[0] in es && forall e :: e in es[1..] ==> e in es;
      OneEvent(tasks, es[0], id);
      LifeCycle(Apply(tasks, es[0]), es[1..], id);
    }
  }

  // ---------------------------------------------------------------- the two lists

  /** An update that goes through adds to the task's own lists exactly the ids it was given, and notes the task with
      exactly those of them that are stored, as one they wait for or one they block. */
  lemma UpdateLists(tasks: Tasks, task: string, c: Change)
    requires Update(tasks, task, c).1 == Updated
    ensures var after := Update(tasks, task, c).0;
            && task in tasks && after.Keys == tasks.Keys
            && (forall v :: v in after[task].blocks <==> v in tasks[task].blocks || Meant(c.addBlocks, v))
            && (forall v :: v in after[task].blockedBy <==> v in tasks[task].blockedBy || Meant(c.addBlockedBy, v))
            && (forall id, v :: id in tasks && id != task ==>
                  (v in after[id].blockedBy <==> v in tasks[id].blockedBy || (v == task && Meant(c.addBlocks, id)))
                  && (v in after[id].blocks <==> v in tasks[id].blocks || (v == task && Meant(c.addBlockedBy, id))))
  {
    hide Reaches, EdgesOf, InFront, NoneRefused, Leading, LedTo, Noted;
    var t, first, last := tasks[task], Blocking(tasks, task, c), Blocked(tasks, task, c);
    if first.refused {
      RefusedStaysBehind(Draft(first.tasks, t.blockedBy, true), task, c.addBlockedBy, 0);
    }
    var back := AddBlocksNotes(Draft(tasks, t.blocks, false), task, c.addBlocks);
    InTheStore(first.tasks, tasks, task, back, {});
    var forth := AddBlockersNotes(Draft(first.tasks, t.blockedBy, false), task, c.addBlockedBy);
    NotedTwice(tasks, first.tasks, last.tasks, task, back, forth);
    ListedExactly(Draft(tasks, t.blocks, false), task, c.addBlocks);
    BlockersListedExactly(Draft(first.tasks, t.blockedBy, false), task, c.addBlockedBy);
    AllInFront(c.addBlocks, Leading(tasks, task));
    AllInFront(c.addBlockedBy, LedTo(first.tasks, task));
    FrontMeant(c.addBlocks, Leading(tasks, task));
    FrontMeant(c.addBlockedBy, LedTo(first.tasks, task));
    NotedLists(tasks, last.tasks, task, back, forth);
  }

  lemma NotedLists(before: Tasks, after: Tasks, task: string, back: set<string>, forth: set<string>)
    requires Noted(before, after, task, back, forth)
    ensures after.Keys == before.Keys
    ensures forall id, v :: id in before ==>
              (v in after[id].blockedBy <==> v in before[id].blockedBy || (v == task && id in back))
              && (v in after[id].blocks <==> v in before[id].blocks || (v == task && id in forth))
  {
  }

  /** An update that is neither missing, nor refused, nor asks for anything is the only one that changes nothing. */
  lemma NothingAsked(tasks: Tasks, task: string, c: Change)
    requires task in tasks
    ensures Update(tasks, task, c).1 == Unchanged <==>
            && c.details == tasks[task].details && c.status == tasks[task].status
            && c.addBlocks == [] && c.addBlockedBy == []
    ensures Update(tasks, task, c).1 in {NotFound, BadTransition, Unchanged} ==> Update(tasks, task, c).0 == tasks
  {
    if c.addBlocks != [] || c.addBlockedBy != [] {
      hide AddBlocks, AddBlockers;
    }
  }

  predicate Distinct(ids: seq<string>) { forall i, j :: 0 <= i < j < |ids| ==> ids[i] != ids[j] }

  predicate AllDistinct(tasks: Tasks) {
    forall id :: id in tasks ==> Distinct(tasks[id].blocks) && Distinct(tasks[id].blockedBy)
  }

  lemma {:induction false} BlocksDistinct(d: Draft, task: string, ids: seq<string>)
    requires AllDistinct(d.tasks) && Distinct(d.listed)
    ensures var r := AddBlocks(d, task, ids); AllDistinct(r.tasks) && Distinct(r.listed)
  {
    hide Reaches, EdgesOf;
    if ids != [] {
      BlocksDistinct(d, task, ids[..|ids| - 1]);
    }
  }

  lemma {:induction false} BlockersDistinct(d: Draft, task: string, ids: seq<string>)
    requires AllDistinct(d.tasks) && Distinct(d.listed)
    ensures var r := AddBlockers(d, task, ids); AllDistinct(r.tasks) && Distinct(r.listed)
  {
    hide Reaches, EdgesOf;
    if ids != [] {
      BlockersDistinct(d, task, ids[..|ids| - 1]);
    }
  }

  /** No update makes a list name a task twice, whatever it is given. */
  lemma ListsStayDistinct(tasks: Tasks, task: string, c: Change)
    requires AllDistinct(tasks)
    ensures AllDistinct(Update(tasks, task, c).0)
  {
    hide AddBlocks, AddBlockers, Distinct;
    if task in tasks {
      var first := Blocking(tasks, task, c);
      BlocksDistinct(Draft(tasks, tasks[task].blocks, false), task, c.addBlocks);
      BlockersDistinct(Draft(first.tasks, tasks[task].blockedBy, first.refused), task, c.addBlockedBy);
    }
  }
}
