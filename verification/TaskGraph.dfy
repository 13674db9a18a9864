/** Dependencies between tasks: who blocks whom, the search that guards against cycles, and what one update does
    to the stored graph. */
module TaskGraph {

  type Edges = set<(string, string)>

  // ---------------------------------------------------------------- paths

  predicate IsPath(edges: Edges, p: seq<string>) {
    p != [] && forall i :: 0 <= i < |p| - 1 ==> (p[i], p[i + 1]) in edges
  }

  ghost predicate PathFrom(edges: Edges, u: string, v: string, p: seq<string>) {
    IsPath(edges, p) && p[0] == u && p[|p| - 1] == v
  }

  /** There is a path, perhaps of no edges. */
  ghost predicate Reaches(edges: Edges, u: string, v: string) { exists p :: PathFrom(edges, u, v, p) }

  /** No edge closes a cycle. */
  ghost predicate Acyclic(edges: Edges) { forall u, v :: (u, v) in edges ==> !Reaches(edges, v, u) }

  lemma ReachesSelf(edges: Edges, u: string)
    ensures Reaches(edges, u, u)
  {
    assert PathFrom(edges, u, u, [u]);
  }

  lemma ReachesOn(edges: Edges, u: string, v: string, w: string)
    requires Reaches(edges, u, v) && Reaches(edges, v, w)
    ensures Reaches(edges, u, w)
  {
    var p :| PathFrom(edges, u, v, p);
    var q :| PathFrom(edges, v, w, q);
    var r := p + q[1..];
    forall i | 0 <= i < |r| - 1
      ensures (r[i], r[i + 1]) in edges
    {
      if i >= |p| - 1 {
        assert r[i] == q[i - (|p| - 1)] && r[i + 1] == q[i + 1 - (|p| - 1)];
      }
    }
    assert PathFrom(edges, u, w, r);
  }

  lemma ReachesMore(edges: Edges, more: Edges, u: string, v: string)
    requires edges <= more && Reaches(edges, u, v)
    ensures Reaches(more, u, v)
  {
    var p :| PathFrom(edges, u, v, p);
    assert PathFrom(more, u, v, p);
  }

  lemma ReachesNext(edges: Edges, u: string, v: string)
    requires (u, v) in edges
    ensures Reaches(edges, u, v)
  {
    assert PathFrom(edges, u, v, [u, v]);
  }

  /** A path that uses a new edge, cut at its first and behind its last use. */
  lemma {:induction false} PathWithEdge(edges: Edges, x: string, y: string, p: seq<string>)
    requires IsPath(edges + {(x, y)}, p)
    ensures Reaches(edges, p[0], p[|p| - 1])
         || (Reaches(edges, p[0], x) && Reaches(edges, y, p[|p| - 1]))
    decreases |p|
  {
    var u, v := p[0], p[|p| - 1];
    if |p| == 1 {
      ReachesSelf(edges, u);
    } else {
      var rest := p[1..];
      assert forall i :: 0 <= i < |rest| - 1 ==> (rest[i], rest[i + 1]) == (p[i + 1], p[i + 2]);
      PathWithEdge(edges, x, y, rest);
      assert (p[0], p[1]) in edges + {(x, y)};
      if (u, p[1]) in edges {
        ReachesNext(edges, u, p[1]);
        if Reaches(edges, p[1], v) {
          ReachesOn(edges, u, p[1], v);
        } else {
          ReachesOn(edges, u, p[1], x);
        }
      } else {
        ReachesSelf(edges, x);
      }
    }
  }

  /** What one more edge makes reachable. */
  lemma ReachesWithEdge(edges: Edges, x: string, y: string, u: string, v: string)
    ensures Reaches(edges + {(x, y)}, u, v)
       <==> Reaches(edges, u, v) || (Reaches(edges, u, x) && Reaches(edges, y, v))
  {
    var more := edges + {(x, y)};
    if Reaches(more, u, v) {
      var p :| PathFrom(more, u, v, p);
      PathWithEdge(edges, x, y, p);
    }
    if Reaches(edges, u, v) {
      ReachesMore(edges, more, u, v);
    } else if Reaches(edges, u, x) && Reaches(edges, y, v) {
      ReachesMore(edges, more, u, x);
      ReachesMore(edges, more, y, v);
      ReachesNext(more, x, y);
      ReachesOn(more, u, x, y);
      ReachesOn(more, u, y, v);
    }
  }

  /** One more edge keeps a graph acyclic exactly if its target does not reach its source. */
  lemma AcyclicWithEdge(edges: Edges, x: string, y: string)
    requires Acyclic(edges)
    ensures Acyclic(edges + {(x, y)}) <==> !Reaches(edges, y, x)
  {
    var more := edges + {(x, y)};
    if Reaches(edges, y, x) {
      ReachesMore(edges, more, y, x);
      assert (x, y) in more;
    } else {
      forall u, v | (u, v) in more
        ensures !Reaches(more, v, u)
      {
        ReachesWithEdge(edges, x, y, v, u);
        if (u, v) in edges {
          if Reaches(edges, v, x) && Reaches(edges, y, u) {
            ReachesNext(edges, u, v);
            ReachesOn(edges, y, u, v);
            ReachesOn(edges, y, v, x);
          }
        } else {
          assert u == x && v == y;
        }
      }
    }
  }

  // ---------------------------------------------------------------- stored tasks

  /** `Other` is any string that names no status. */
  datatype Status = Pending | InProgress | Completed | Cancelled | Other(name: string)

  /** A stored task; its texts and metadata are one value here. */
  datatype Task = Task(details: string, status: Status, blocks: seq<string>, blockedBy: seq<string>)

  type Tasks = map<string, Task>

  function EdgesOf(tasks: Tasks): Edges {
    set u, v | u in tasks && v in tasks[u].blocks :: (u, v)
  }

  predicate ValidTransition(from: Status, to: Status) {
    || (from == Pending && to == InProgress)
    || ((from == Pending || from == InProgress) && (to == Completed || to == Cancelled))
  }

  /** Depth-first search along `blocks`, over tasks that may be missing and edges that may form cycles. */
  method CanReach(tasks: Tasks, from: string, to: string) returns (found: bool)
    ensures found <==> Reaches(EdgesOf(tasks), from, to)
  {
    ghost var edges := EdgesOf(tasks);
    ghost var all := {from} + set e | e in edges :: e.1;
    var visited: set<string> := {};
    var stack := [from];
    ReachesSelf(edges, from);
    hide Reaches, EdgesOf;
    while |stack| > 0
      invariant visited <= all && to !in visited && (from in visited || from in stack)
      invariant forall id :: id in stack ==> id in all && Reaches(edges, from, id)
      invariant forall u, v :: (u, v) in edges && u in visited ==> v in visited || v in stack
      decreases |all - visited|, |stack|
    {
      var current := stack[|stack| - 1];
      ghost var popped := stack;
      stack := stack[..|stack| - 1];
      assert forall id :: id in popped <==> id == current || id in stack;
      if current == to {
        return true;
      }
      if current in visited {
        continue;
      }
      Fewer(all, visited, current);
      visited := visited + {current};
      if current !in tasks {
        NoSuccessors(tasks, current);
        continue;
      }
      Successors(tasks, all, from, current);
      stack := stack + tasks[current].blocks;
    }
    ClosedUnreached(edges, visited, from, to);
    return false;
  }

  lemma Successors(tasks: Tasks, all: set<string>, from: string, current: string)
    requires current in tasks && Reaches(EdgesOf(tasks), from, current)
    requires forall e :: e in EdgesOf(tasks) ==> e.1 in all
    ensures forall v :: v in tasks[current].blocks ==>
              (current, v) in EdgesOf(tasks) && v in all && Reaches(EdgesOf(tasks), from, v)
    ensures forall v :: (current, v) in EdgesOf(tasks) ==> v in tasks[current].blocks
  {
    forall v | v in tasks[current].blocks
      ensures v in all && Reaches(EdgesOf(tasks), from, v)
    {
      assert (current, v) in EdgesOf(tasks);
      assert (current, v).1 in all;
      ReachesNext(EdgesOf(tasks), current, v);
      ReachesOn(EdgesOf(tasks), from, current, v);
    }
  }

  lemma NoSuccessors(tasks: Tasks, current: string)
    requires current !in tasks
    ensures forall v :: (current, v) !in EdgesOf(tasks)
  {
  }

  lemma Fewer(all: set<string>, visited: set<string>, x: string)
    requires x in all && x !in visited
    ensures |all - (visited + {x})| < |all - visited|
  {
    assert all - visited == all - (visited + {x}) + {x};
  }

  /** What no edge leaves reaches nothing outside. */
  lemma ClosedUnreached(edges: Edges, inside: set<string>, from: string, to: string)
    requires from in inside && to !in inside
    requires forall u, v :: (u, v) in edges && u in inside ==> v in inside
    ensures !Reaches(edges, from, to)
  {
    if Reaches(edges, from, to) {
      var p :| PathFrom(edges, from, to, p);
      StaysInside(edges, inside, p, |p| - 1);
    }
  }

  lemma {:induction false} StaysInside(edges: Edges, inside: set<string>, p: seq<string>, i: nat)
    requires IsPath(edges, p) && p[0] in inside && i < |p|
    requires forall u, v :: (u, v) in edges && u in inside ==> v in inside
    ensures p[i] in inside
    decreases i
  {
    if i > 0 {
      StaysInside(edges, inside, p, i - 1);
      assert (p[i - 1], p[i - 1 + 1]) in edges;
    }
  }

  // ---------------------------------------------------------------- one update

  function With(ids: seq<string>, id: string): seq<string> { if id in ids then ids else ids + [id] }

  /** One list of an update under way: the store, the list of the updated task (still unstored), and whether an
      id was refused. */
  datatype Draft = Draft(tasks: Tasks, listed: seq<string>, refused: bool)

  function NoteBlockedBy(tasks: Tasks, id: string, blocker: string): Tasks {
    if id in tasks then tasks[id := tasks[id].(blockedBy := With(tasks[id].blockedBy, blocker))] else tasks
  }

  function NoteBlocks(tasks: Tasks, id: string, target: string): Tasks {
    if id in tasks then tasks[id := tasks[id].(blocks := With(tasks[id].blocks, target))] else tasks
  }

  /** `task` is to block `id`: refused if that already leads back to it. */
  ghost function AddBlock(d: Draft, task: string, id: string): Draft {
    if d.refused || id == "" then d
    else if Reaches(EdgesOf(d.tasks), id, task) then d.(refused := true)
    else d.(listed := With(d.listed, id), tasks := NoteBlockedBy(d.tasks, id, task))
  }

  ghost function AddBlocker(d: Draft, task: string, id: string): Draft {
    if d.refused || id == "" then d
    else if Reaches(EdgesOf(d.tasks), task, id) then d.(refused := true)
    else d.(listed := With(d.listed, id), tasks := NoteBlocks(d.tasks, id, task))
  }

  ghost function AddBlocks(d: Draft, task: string, ids: seq<string>): Draft {
    if ids == [] then d else AddBlock(AddBlocks(d, task, ids[..|ids| - 1]), task, ids[|ids| - 1])
  }

  ghost function AddBlockers(d: Draft, task: string, ids: seq<string>): Draft {
    if ids == [] then d else AddBlocker(AddBlockers(d, task, ids[..|ids| - 1]), task, ids[|ids| - 1])
  }

  /** What is asked for: new details, a new status, and the ids of the two lists. */
  datatype Change = Change(details: string, status: Status, addBlocks: seq<string>, addBlockedBy: seq<string>)

  datatype Outcome = NotFound | BadTransition | Cycle | Unchanged | Updated

  ghost function Blocking(tasks: Tasks, task: string, c: Change): Draft
    requires task in tasks
  {
    AddBlocks(Draft(tasks, tasks[task].blocks, false), task, c.addBlocks)
  }

  ghost function Blocked(tasks: Tasks, task: string, c: Change): Draft
    requires task in tasks
  {
    var first := Blocking(tasks, task, c);
    AddBlockers(Draft(first.tasks, tasks[task].blockedBy, first.refused), task, c.addBlockedBy)
  }

  ghost function Update(tasks: Tasks, task: string, c: Change): (Tasks, Outcome) {
    if task !in tasks then (tasks, NotFound)
    else
      var t := tasks[task];
      if c.status != t.status && !ValidTransition(t.status, c.status) then (tasks, BadTransition)
      else
        var d := Blocked(tasks, task, c);
        if d.refused then (d.tasks, Cycle)
        else if c.details == t.details && c.status == t.status && c.addBlocks == [] && c.addBlockedBy == []
        then (tasks, Unchanged)
        else (d.tasks[task := Task(c.details, c.status, Blocking(tasks, task, c).listed, d.listed)], Updated)
  }

  class TaskStore {
    var tasks: Tasks

    constructor ()
      ensures tasks == map[]
    {
      tasks := map[];
    }

    /** This task blocks the listed ones: each of them notes it, unless the edge would close a cycle. */
    method AddBlockEdges(task: string, before: seq<string>, ids: seq<string>)
      returns (listed: seq<string>, refused: bool)
      modifies this`tasks
      ensures Draft(tasks, listed, refused) == AddBlocks(Draft(old(tasks), before, false), task, ids)
    {
      hide Reaches;
      listed, refused := before, false;
      ghost var start := Draft(tasks, listed, false);
      for i := 0 to |ids|
        invariant Draft(tasks, listed, false) == AddBlocks(start, task, ids[..i])
      {
        assert ids[..i + 1][..i] == ids[..i];
        var id := ids[i];
        if id != "" {
          refused := CanReach(tasks, id, task);
          if refused {
            RefusedStays(start, task, ids, i + 1);
            return;
          }
          if id !in listed {
            listed := listed + [id];
          }
          if id in tasks && task !in tasks[id].blockedBy {
            tasks := tasks[id := tasks[id].(blockedBy := tasks[id].blockedBy + [task])];
          }
        }
      }
      assert ids[..|ids|] == ids;
    }

    /** The listed tasks block this one: each of them notes it, unless the edge would close a cycle. */
    method AddBlockerEdges(task: string, before: seq<string>, ids: seq<string>)
      returns (listed: seq<string>, refused: bool)
      modifies this`tasks
      ensures Draft(tasks, listed, refused) == AddBlockers(Draft(old(tasks), before, false), task, ids)
    {
      hide Reaches;
      listed, refused := before, false;
      ghost var start := Draft(tasks, listed, false);
      for i := 0 to |ids|
        invariant Draft(tasks, listed, false) == AddBlockers(start, task, ids[..i])
      {
        assert ids[..i + 1][..i] == ids[..i];
        var id := ids[i];
        if id != "" {
          refused := CanReach(tasks, task, id);
          if refused {
            RefusedStaysBehind(start, task, ids, i + 1);
            return;
          }
          if id !in listed {
            listed := listed + [id];
          }
          if id in tasks && task !in tasks[id].blocks {
            tasks := tasks[id := tasks[id].(blocks := tasks[id].blocks + [task])];
          }
        }
      }
      assert ids[..|ids|] == ids;
    }

    method Execute(task: string, c: Change) returns (outcome: Outcome)
      modifies this`tasks
      ensures (tasks, outcome) == Update(old(tasks), task, c)
    {
      if task !in tasks {
        return NotFound;
      }
      var t := tasks[task];
      var updated := c.details != t.details;
      if c.status != t.status {
        if !ValidTransition(t.status, c.status) {
          return BadTransition;
        }
        updated := true;
      }
      var blocks, refused := AddBlockEdges(task, t.blocks, c.addBlocks);
      if refused {
        RefusedStaysBehind(Draft(tasks, t.blockedBy, true), task, c.addBlockedBy, 0);
        return Cycle;
      }
      var blockedBy;
      blockedBy, refused := AddBlockerEdges(task, t.blockedBy, c.addBlockedBy);
      if refused {
        return Cycle;
      }
      updated := updated || |c.addBlocks| > 0 || |c.addBlockedBy| > 0;
      if !updated {
        return Unchanged;
      }
      tasks := tasks[task := Task(c.details, c.status, blocks, blockedBy)];
      outcome := Updated;
    }
  }

  lemma {:induction false} RefusedStays(d: Draft, task: string, ids: seq<string>, i: nat)
    requires i <= |ids| && AddBlocks(d, task, ids[..i]).refused
    ensures AddBlocks(d, task, ids) == AddBlocks(d, task, ids[..i])
    decreases |ids| - i
  {
    if i == |ids| {
      assert ids[..i] == ids;
    } else {
      assert ids[..i + 1][..i] == ids[..i];
      RefusedStays(d, task, ids, i + 1);
    }
  }

  lemma {:induction false} RefusedStaysBehind(d: Draft, task: string, ids: seq<string>, i: nat)
    requires i <= |ids| && AddBlockers(d, task, ids[..i]).refused
    ensures AddBlockers(d, task, ids) == AddBlockers(d, task, ids[..i])
    decreases |ids| - i
  {
    if i == |ids| {
      assert ids[..i] == ids;
    } else {
      assert ids[..i + 1][..i] == ids[..i];
      RefusedStaysBehind(d, task, ids, i + 1);
    }
  }
}
