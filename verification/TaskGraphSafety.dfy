/** What updates do to the task graph: exactly when it stays free of cycles, and exactly when `blocks` and
    `blockedBy` stay inverse to one another. */
module TaskGraphSafety {
  import opened TaskGraph

  lemma NoteBlockedByEdges(tasks: Tasks, id: string, blocker: string)
    ensures EdgesOf(NoteBlockedBy(tasks, id, blocker)) == EdgesOf(tasks)
  {
    var after := NoteBlockedBy(tasks, id, blocker);
    assert forall u :: u in tasks ==> after[u].blocks == tasks[u].blocks;
    assert forall e :: e in EdgesOf(after) <==> e in EdgesOf(tasks);
  }

  lemma NoteBlocksEdges(tasks: Tasks, id: string, target: string)
    ensures EdgesOf(NoteBlocks(tasks, id, target)) == EdgesOf(tasks) + if id in tasks then {(id, target)} else {}
  {
    var after := NoteBlocks(tasks, id, target);
    assert forall e :: e in EdgesOf(after) <==> e in EdgesOf(tasks) + if id in tasks then {(id, target)} else {};
  }

  predicate Meant(ids: seq<string>, id: string) { id in ids && id != "" }

  lemma MeantSnoc(ids: seq<string>)
    requires ids != []
    ensures forall id :: Meant(ids, id) <==> Meant(ids[..|ids| - 1], id) || (id == ids[|ids| - 1] && id != "")
  {
    assert ids == ids[..|ids| - 1] + [ids[|ids| - 1]];
  }

  // ---------------------------------------------------------------- adding blocks

  /** The first list leaves the edges as they are, and is refused exactly if one of its ids leads back. */
  lemma {:induction false} AddBlocksExact(d: Draft, task: string, ids: seq<string>)
    requires !d.refused && task in d.tasks
    ensures var r := AddBlocks(d, task, ids);
            && EdgesOf(r.tasks) == EdgesOf(d.tasks) && r.tasks.Keys == d.tasks.Keys && r.tasks[task] == d.tasks[task]
            && (r.refused <==> exists id :: Meant(ids, id) && Reaches(EdgesOf(d.tasks), id, task))
            && (!r.refused ==> forall id :: id in r.listed <==> id in d.listed || Meant(ids, id))
  {
    hide Reaches, EdgesOf;
    if ids != [] {
      var init, last := ids[..|ids| - 1], ids[|ids| - 1];
      AddBlocksExact(d, task, init);
      MeantSnoc(ids);
      var r := AddBlocks(d, task, init);
      NoteBlockedByEdges(r.tasks, last, task);
      ReachesSelf(EdgesOf(d.tasks), task);
    }
  }

  // ---------------------------------------------------------------- adding blockers

  /** A blocker of the updated task that is in the store. */
  predicate Stored(tasks: Tasks, ids: seq<string>, id: string) { Meant(ids, id) && id in tasks }

  /** What the second list's edges make reachable: whatever the task reaches, from whatever reaches a blocker. */
  ghost predicate ReachesVia(tasks: Tasks, task: string, ids: seq<string>, u: string, v: string) {
    exists id :: Stored(tasks, ids, id) && Reaches(EdgesOf(tasks), u, id) && Reaches(EdgesOf(tasks), task, v)
  }

  lemma AddBlockerEdges(d: Draft, task: string, id: string)
    requires !AddBlocker(d, task, id).refused && task in d.tasks && id != ""
    ensures var r := AddBlocker(d, task, id);
            && EdgesOf(r.tasks) == EdgesOf(d.tasks) + (if id in d.tasks then {(id, task)} else {})
            && r.tasks.Keys == d.tasks.Keys && r.tasks[task] == d.tasks[task]
            && (Acyclic(EdgesOf(d.tasks)) ==> Acyclic(EdgesOf(r.tasks)))
            && forall u, v :: Reaches(EdgesOf(r.tasks), u, v) <==>
                 Reaches(EdgesOf(d.tasks), u, v)
                 || (id in d.tasks && Reaches(EdgesOf(d.tasks), u, id) && Reaches(EdgesOf(d.tasks), task, v))
  {
    var edges := EdgesOf(d.tasks);
    NoteBlocksEdges(d.tasks, id, task);
    ReachesSelf(edges, task);
    assert edges + {} == edges;
    if id in d.tasks {
      if Acyclic(edges) {
        AcyclicWithEdge(edges, id, task);
      }
      forall u, v
        ensures Reaches(edges + {(id, task)}, u, v) <==>
                Reaches(edges, u, v) || (Reaches(edges, u, id) && Reaches(edges, task, v))
      {
        ReachesWithEdge(edges, id, task, u, v);
      }
    }
  }

  /** The second list keeps an acyclic store acyclic, refused or not; in any store it is refused exactly if the task
      leads to one of its ids. */
  lemma {:induction false} AddBlockersExact(d: Draft, task: string, ids: seq<string>)
    requires !d.refused && task in d.tasks
    ensures var r := AddBlockers(d, task, ids);
            && (Acyclic(EdgesOf(d.tasks)) ==> Acyclic(EdgesOf(r.tasks)))
            && r.tasks.Keys == d.tasks.Keys && r.tasks[task] == d.tasks[task]
            && (r.refused <==> exists id :: Meant(ids, id) && Reaches(EdgesOf(d.tasks), task, id))
            && (!r.refused ==>
                  (forall id :: id in r.listed <==> id in d.listed || Meant(ids, id)) &&
                  (forall u, v :: Reaches(EdgesOf(r.tasks), u, v) <==>
                     Reaches(EdgesOf(d.tasks), u, v) || ReachesVia(d.tasks, task, ids, u, v)))
  {
    hide Reaches, EdgesOf, Acyclic;
    if ids != [] {
      var init, last := ids[..|ids| - 1], ids[|ids| - 1];
      AddBlockersExact(d, task, init);
      MeantSnoc(ids);
      var r := AddBlockers(d, task, init);
      if !r.refused {
        if last != "" {
          assert Reaches(EdgesOf(r.tasks), task, last) <==> Reaches(EdgesOf(d.tasks), task, last);
          if !Reaches(EdgesOf(r.tasks), task, last) {
            AddBlockerEdges(r, task, last);
            OneMoreBlocker(d, r, task, ids);
          }
        } else {
          assert forall id :: Stored(d.tasks, ids, id) <==> Stored(d.tasks, init, id);
        }
      }
    }
  }

  lemma OneMoreBlocker(d: Draft, r: Draft, task: string, ids: seq<string>)
    requires ids != [] && ids[|ids| - 1] != "" && r.tasks.Keys == d.tasks.Keys
    requires forall u, v :: Reaches(EdgesOf(r.tasks), u, v) <==>
               Reaches(EdgesOf(d.tasks), u, v) || ReachesVia(d.tasks, task, ids[..|ids| - 1], u, v)
    ensures var last := ids[|ids| - 1];
            forall u, v ::
              Reaches(EdgesOf(r.tasks), u, v)
              || (last in r.tasks && Reaches(EdgesOf(r.tasks), u, last) && Reaches(EdgesOf(r.tasks), task, v))
              <==> Reaches(EdgesOf(d.tasks), u, v) || ReachesVia(d.tasks, task, ids, u, v)
  {
    hide Reaches, EdgesOf;
    var init, last := ids[..|ids| - 1], ids[|ids| - 1];
    MeantSnoc(ids);
    assert forall id :: Stored(d.tasks, ids, id) <==> Stored(d.tasks, init, id) || (id == last && last in d.tasks);
  }

  // ---------------------------------------------------------------- the final write

  function Out(edges: Edges, task: string, ids: seq<string>): Edges {
    if ids == [] then edges else Out(edges, task, ids[..|ids| - 1]) + {(task, ids[|ids| - 1])}
  }

  lemma {:induction false} OutEdges(edges: Edges, task: string, ids: seq<string>)
    ensures forall u, v :: (u, v) in Out(edges, task, ids) <==> (u, v) in edges || (u == task && v in ids)
  {
    if ids != [] {
      OutEdges(edges, task, ids[..|ids| - 1]);
      assert ids == ids[..|ids| - 1] + [ids[|ids| - 1]];
    }
  }

  /** Edges out of one task lead back to it exactly if one of their targets led there before. */
  lemma {:induction false} OutAcyclic(edges: Edges, task: string, ids: seq<string>)
    requires Acyclic(edges)
    ensures Acyclic(Out(edges, task, ids)) <==> forall id :: id in ids ==> !Reaches(edges, id, task)
    ensures forall u :: Reaches(Out(edges, task, ids), u, task) <==> Reaches(edges, u, task)
  {
    hide Reaches, Acyclic;
    if ids != [] {
      var init, last := ids[..|ids| - 1], ids[|ids| - 1];
      var before := Out(edges, task, init);
      OutAcyclic(edges, task, init);
      assert ids == init + [last];
      ReachesSelf(before, task);
      forall u
        ensures Reaches(before + {(task, last)}, u, task) <==> Reaches(before, u, task)
      {
        ReachesWithEdge(before, task, last, u, task);
      }
      if Acyclic(before) {
        AcyclicWithEdge(before, task, last);
      } else {
        CyclicStays(before, before + {(task, last)});
      }
    }
  }

  lemma CyclicStays(edges: Edges, more: Edges)
    requires !Acyclic(edges) && edges <= more
    ensures !Acyclic(more)
  {
    var u, v :| (u, v) in edges && Reaches(edges, v, u);
    ReachesMore(edges, more, v, u);
  }

  // ---------------------------------------------------------------- one update

  /** A task to be blocked leads to a stored task to be waited for. */
  ghost predicate Crosses(tasks: Tasks, c: Change) {
    exists b, d :: Meant(c.addBlocks, b) && Stored(tasks, c.addBlockedBy, d) && Reaches(EdgesOf(tasks), b, d)
  }

  /** An update is refused for a cycle exactly if one of the tasks to be blocked leads to the updated one, or the
      updated one leads to one of the tasks it is to wait for. */
  lemma RefusedExactly(tasks: Tasks, task: string, c: Change)
    requires task in tasks && Acyclic(EdgesOf(tasks))
    requires c.status == tasks[task].status || ValidTransition(tasks[task].status, c.status)
    ensures Update(tasks, task, c).1 == Cycle <==>
            || (exists id :: Meant(c.addBlocks, id) && Reaches(EdgesOf(tasks), id, task))
            || (exists id :: Meant(c.addBlockedBy, id) && Reaches(EdgesOf(tasks), task, id))
  {
    hide Reaches, EdgesOf, Acyclic;
    AddBlocksExact(Draft(tasks, tasks[task].blocks, false), task, c.addBlocks);
    var first := Blocking(tasks, task, c);
    if first.refused {
      RefusedStaysBehind(Draft(first.tasks, tasks[task].blockedBy, true), task, c.addBlockedBy, 0);
    } else {
      AddBlockersExact(Draft(first.tasks, tasks[task].blockedBy, false), task, c.addBlockedBy);
    }
  }

  /** One update keeps an acyclic graph acyclic, whatever its outcome, exactly unless it goes through with a task
      to be blocked that leads to a task to be waited for: the new edges of the first list are not in the store
      yet when the second list is checked. */
  lemma UpdateAcyclic(tasks: Tasks, task: string, c: Change)
    requires Acyclic(EdgesOf(tasks))
    ensures Acyclic(EdgesOf(Update(tasks, task, c).0)) <==>
            !(Update(tasks, task, c).1 == Updated && Crosses(tasks, c))
  {
    hide Reaches, EdgesOf, Acyclic;
    if task in tasks && (c.status == tasks[task].status || ValidTransition(tasks[task].status, c.status)) {
      AddBlocksExact(Draft(tasks, tasks[task].blocks, false), task, c.addBlocks);
      var first := Blocking(tasks, task, c);
      if first.refused {
        RefusedStaysBehind(Draft(first.tasks, tasks[task].blockedBy, true), task, c.addBlockedBy, 0);
      } else {
        AddBlockersExact(Draft(first.tasks, tasks[task].blockedBy, false), task, c.addBlockedBy);
        var last := Blocked(tasks, task, c);
        if !last.refused {
          FinalWrite(tasks, task, c);
        }
      }
    }
  }

  lemma WrittenEdges(tasks: Tasks, task: string, t: Task)
    requires task in tasks && forall id :: id in tasks[task].blocks ==> id in t.blocks
    ensures EdgesOf(tasks[task := t]) == Out(EdgesOf(tasks), task, t.blocks)
  {
    OutEdges(EdgesOf(tasks), task, t.blocks);
    assert forall u, v :: (u, v) in EdgesOf(tasks[task := t]) <==>
           (u, v) in EdgesOf(tasks) || (u == task && v in t.blocks);
    forall e
      ensures e in EdgesOf(tasks[task := t]) <==> e in Out(EdgesOf(tasks), task, t.blocks)
    {
      assert e == (e.0, e.1);
    }
  }

  lemma FinalWrite(tasks: Tasks, task: string, c: Change)
    requires task in tasks && Acyclic(EdgesOf(tasks)) && !Blocked(tasks, task, c).refused
    ensures var written := Blocked(tasks, task, c).tasks[task :=
                             Task(c.details, c.status, Blocking(tasks, task, c).listed,
                                  Blocked(tasks, task, c).listed)];
            Acyclic(EdgesOf(written)) <==> !Crosses(tasks, c)
  {
    hide Reaches, Acyclic;
    AddBlocksExact(Draft(tasks, tasks[task].blocks, false), task, c.addBlocks);
    var first := Blocking(tasks, task, c);
    if first.refused {
      RefusedStaysBehind(Draft(first.tasks, tasks[task].blockedBy, true), task, c.addBlockedBy, 0);
    }
    AddBlockersExact(Draft(first.tasks, tasks[task].blockedBy, false), task, c.addBlockedBy);
    var last := Blocked(tasks, task, c);
    var written := last.tasks[task := Task(c.details, c.status, first.listed, last.listed)];
    var before, edges := EdgesOf(tasks), EdgesOf(last.tasks);
    WrittenEdges(last.tasks, task, written[task]);
    OutAcyclic(edges, task, first.listed);
    ReachesSelf(before, task);
    forall id | id in first.listed
      ensures Reaches(edges, id, task) <==>
              Meant(c.addBlocks, id) && exists d :: Stored(tasks, c.addBlockedBy, d) && Reaches(before, id, d)
    {
      assert Reaches(edges, id, task) <==>
             Reaches(before, id, task) || ReachesVia(first.tasks, task, c.addBlockedBy, id, task);
      if id in tasks[task].blocks {
        assert (task, id) in edges;
        ReachesNoBack(edges, task, id);
      }
    }
  }

  lemma ReachesNoBack(edges: Edges, u: string, v: string)
    requires Acyclic(edges) && (u, v) in edges
    ensures !Reaches(edges, v, u)
  {
  }

  // ---------------------------------------------------------------- runs of updates

  datatype Event =
    | Create(id: string, details: string)
    | Delete(id: string)
    | Change(id: string, change: TaskGraph.Change)

  ghost function Apply(tasks: Tasks, e: Event): Tasks {
    match e
    case Create(id, details) => tasks[id := Task(details, Pending, [], [])]
    case Delete(id) => tasks - {id}
    case Change(id, change) => Update(tasks, id, change).0
  }

  ghost function Run(tasks: Tasks, es: seq<Event>): Tasks
    decreases |es|
  {
    if es == [] then tasks else Run(Apply(tasks, es[0]), es[1..])
  }

  /** Names ids in one of its lists only. */
  predicate OneSided(e: Event) {
    e.Change? ==>
      (forall id :: id in e.change.addBlocks ==> id == "") || (forall id :: id in e.change.addBlockedBy ==> id == "")
  }

  lemma FewerEdges(edges: Edges, more: Edges)
    requires Acyclic(more) && edges <= more
    ensures Acyclic(edges)
  {
    if !Acyclic(edges) {
      CyclicStays(edges, more);
    }
  }

  /** Over every run of creations, deletions and one-sided updates the graph stays free of cycles. */
  lemma {:induction false} RunAcyclic(tasks: Tasks, es: seq<Event>)
    requires Acyclic(EdgesOf(tasks)) && forall e :: e in es ==> OneSided(e)
    ensures Acyclic(EdgesOf(Run(tasks, es)))
    decreases |es|
  {
    if es != [] {
      match es[0]
      case Create(id, details) => FewerEdges(EdgesOf(Apply(tasks, es[0])), EdgesOf(tasks));
      case Delete(id) => FewerEdges(EdgesOf(Apply(tasks, es[0])), EdgesOf(tasks));
      case Change(id, change) =>
        UpdateAcyclic(tasks, id, change);
        assert OneSided(es[0]);
    }
    hide Acyclic, Apply;
    if es != [] {
      RunAcyclic(Apply(tasks, es[0]), es[1..]);
    }
  }

  /** The store where the two lists of one update close a cycle: a blocks b, and c is told to block a and to wait
      for b. */
  lemma TwoListsCloseCycle()
    ensures var tasks: Tasks := map["a" := Task("", Pending, ["b"], []), "b" := Task("", Pending, [], ["a"]),
                                    "c" := Task("", Pending, [], [])];
            var change := TaskGraph.Change("", Pending, ["a"], ["b"]);
            && Acyclic(EdgesOf(tasks))
            && Update(tasks, "c", change).1 == Updated
            && !Acyclic(EdgesOf(Update(tasks, "c", change).0))
  {
    var tasks: Tasks := map["a" := Task("", Pending, ["b"], []), "b" := Task("", Pending, [], ["a"]),
                            "c" := Task("", Pending, [], [])];
    var change := TaskGraph.Change("", Pending, ["a"], ["b"]);
    assert EdgesOf(tasks) == {("a", "b")};
    NoEdgesReach("c", "a");
    NoEdgesReach("b", "a");
    NoEdgesReach("c", "b");
    NoEdgesReach("a", "c");
    NoEdgesReach("b", "c");
    ReachesWithEdge(EMPTY, "a", "b", "a", "c");
    ReachesWithEdge(EMPTY, "a", "b", "c", "b");
    ReachesWithEdge(EMPTY, "a", "b", "b", "a");
    assert EMPTY + {("a", "b")} == {("a", "b")};
    hide Reaches;
    assert Acyclic(EdgesOf(tasks));
    assert Meant(change.addBlocks, "a") && forall id :: Meant(change.addBlocks, id) ==> id == "a";
    assert forall id :: Meant(change.addBlockedBy, id) ==> id == "b";
    RefusedExactly(tasks, "c", change);
    UpdateAcyclic(tasks, "c", change);
    ReachesNext(EdgesOf(tasks), "a", "b");
    assert Meant(change.addBlocks, "a") && Stored(tasks, change.addBlockedBy, "b");
  }

  const EMPTY: Edges := {}

  lemma NoEdgesReach(u: string, v: string)
    requires u != v
    ensures !Reaches(EMPTY, u, v)
  {
    ClosedUnreached(EMPTY, {u}, u, v);
  }

  // ---------------------------------------------------------------- blocks and blockedBy

  /** `blocks` and `blockedBy` tell the same story, and of stored tasks only. */
  predicate Inverse(tasks: Tasks) {
    && (forall u, v :: u in tasks && v in tasks[u].blocks ==> v in tasks && u in tasks[v].blockedBy)
    && (forall u, v :: v in tasks && u in tasks[v].blockedBy ==> u in tasks && v in tasks[u].blocks)
  }

  /** `after` is `before` with `task` noted as blocker by the tasks in `back` and as blocked by those in `forth`. */
  ghost predicate Noted(before: Tasks, after: Tasks, task: string, back: set<string>, forth: set<string>) {
    && after.Keys == before.Keys && task !in back && task !in forth
    && (forall u, v :: u in before ==>
          (v in after[u].blockedBy <==> v in before[u].blockedBy || (u in back && v == task)) &&
          (v in after[u].blocks <==> v in before[u].blocks || (u in forth && v == task)))
  }

  /** The tasks that lead to this one: it may not block them. */
  ghost function Leading(tasks: Tasks, task: string): iset<string> {
    iset id | id != "" && Reaches(EdgesOf(tasks), id, task)
  }

  /** The tasks this one leads to: it may not wait for them. */
  ghost function LedTo(tasks: Tasks, task: string): iset<string> {
    iset id | id != "" && Reaches(EdgesOf(tasks), task, id)
  }

  /** The list names `id` in front of the first id that is refused. */
  ghost predicate InFront(ids: seq<string>, refused: iset<string>, id: string) {
    exists i :: 0 <= i < |ids| && ids[i] == id && id != "" && forall j :: 0 <= j <= i ==> ids[j] !in refused
  }

  ghost predicate NoneRefused(ids: seq<string>, refused: iset<string>) { forall id :: id in ids ==> id !in refused }

  lemma FrontSnoc(ids: seq<string>, refused: iset<string>, id: string)
    requires ids != []
    ensures var init, last := ids[..|ids| - 1], ids[|ids| - 1];
            && (InFront(ids, refused, id) <==>
                InFront(init, refused, id) || (id == last && id != "" && NoneRefused(ids, refused)))
            && (NoneRefused(ids, refused) <==> NoneRefused(init, refused) && last !in refused)
  {
    var init, last := ids[..|ids| - 1], ids[|ids| - 1];
    assert ids == init + [last];
    if InFront(init, refused, id) {
      var i :| 0 <= i < |init| && init[i] == id && id != "" && forall j :: 0 <= j <= i ==> init[j] !in refused;
      assert ids[i] == id && forall j :: 0 <= j <= i ==> ids[j] == init[j];
    }
    if InFront(ids, refused, id) {
      var i :| 0 <= i < |ids| && ids[i] == id && id != "" && forall j :: 0 <= j <= i ==> ids[j] !in refused;
      if i < |init| {
        assert init[i] == id && forall j :: 0 <= j <= i ==> ids[j] == init[j];
      } else {
        assert forall x :: x in ids ==> exists j :: 0 <= j <= i && ids[j] == x;
      }
    }
    if id == last && id != "" && NoneRefused(ids, refused) {
      assert ids[|init|] == id;
    }
  }

  /** A list that is taken whole stands in front of any refusal. */
  lemma AllInFront(ids: seq<string>, refused: iset<string>)
    requires NoneRefused(ids, refused)
    ensures forall id :: Meant(ids, id) ==> InFront(ids, refused, id)
  {
    forall id | Meant(ids, id)
      ensures InFront(ids, refused, id)
    {
      var i :| 0 <= i < |ids| && ids[i] == id;
    }
  }

  /** The first list notes the task in exactly the stored tasks that it names in front of the first refused one. */
  lemma {:induction false} AddBlocksNotes(d: Draft, task: string, ids: seq<string>) returns (back: set<string>)
    requires task in d.tasks && !d.refused
    ensures var r := AddBlocks(d, task, ids);
            && Noted(d.tasks, r.tasks, task, back, {})
            && (r.refused <==> !NoneRefused(ids, Leading(d.tasks, task)))
            && (forall id :: id in back <==> id in d.tasks && InFront(ids, Leading(d.tasks, task), id))
  {
    hide Reaches, EdgesOf, InFront, NoneRefused;
    back := {};
    if ids == [] {
      NothingInFront(Leading(d.tasks, task));
    } else {
      var init, last := ids[..|ids| - 1], ids[|ids| - 1];
      back := AddBlocksNotes(d, task, init);
      AddBlocksExact(d, task, init);
      var r := AddBlocks(d, task, init);
      ReachesSelf(EdgesOf(r.tasks), task);
      forall id
        ensures InFront(ids, Leading(d.tasks, task), id) <==>
                InFront(init, Leading(d.tasks, task), id)
                || (id == last && id != "" && NoneRefused(ids, Leading(d.tasks, task)))
      {
        FrontSnoc(ids, Leading(d.tasks, task), id);
      }
      FrontSnoc(ids, Leading(d.tasks, task), last);
      if !r.refused && last != "" && !Reaches(EdgesOf(r.tasks), last, task) && last in d.tasks {
        back := back + {last};
      }
    }
  }

  lemma NothingInFront(refused: iset<string>)
    ensures NoneRefused([], refused) && forall id :: !InFront([], refused, id)
  {
  }

  /** The second list likewise. */
  lemma {:induction false} AddBlockersNotes(d: Draft, task: string, ids: seq<string>) returns (forth: set<string>)
    requires task in d.tasks && !d.refused
    ensures var r := AddBlockers(d, task, ids);
            && Noted(d.tasks, r.tasks, task, {}, forth)
            && (r.refused <==> !NoneRefused(ids, LedTo(d.tasks, task)))
            && (forall id :: id in forth <==> id in d.tasks && InFront(ids, LedTo(d.tasks, task), id))
  {
    hide Reaches, EdgesOf, InFront, NoneRefused, ReachesVia, Acyclic;
    forth := {};
    if ids == [] {
      NothingInFront(LedTo(d.tasks, task));
    } else {
      var init, last := ids[..|ids| - 1], ids[|ids| - 1];
      forth := AddBlockersNotes(d, task, init);
      AddBlockersExact(d, task, init);
      var r := AddBlockers(d, task, init);
      ReachesSelf(EdgesOf(r.tasks), task);
      forall id
        ensures InFront(ids, LedTo(d.tasks, task), id) <==>
                InFront(init, LedTo(d.tasks, task), id)
                || (id == last && id != "" && NoneRefused(ids, LedTo(d.tasks, task)))
      {
        FrontSnoc(ids, LedTo(d.tasks, task), id);
      }
      FrontSnoc(ids, LedTo(d.tasks, task), last);
      if !r.refused {
        LeadsAsBefore(d, task, init, last);
        if last != "" && !Reaches(EdgesOf(r.tasks), task, last) && last in d.tasks {
          forth := forth + {last};
        }
      }
    }
  }

  /** The second list's own edges do not change what the task leads to. */
  lemma LeadsAsBefore(d: Draft, task: string, ids: seq<string>, id: string)
    requires task in d.tasks && !d.refused && !AddBlockers(d, task, ids).refused
    ensures Reaches(EdgesOf(AddBlockers(d, task, ids).tasks), task, id) <==> Reaches(EdgesOf(d.tasks), task, id)
  {
    hide Reaches, EdgesOf, Acyclic;
    AddBlockersExact(d, task, ids);
  }

  lemma NotedTwice(a: Tasks, b: Tasks, c: Tasks, task: string, back: set<string>, forth: set<string>)
    requires Noted(a, b, task, back, {}) && Noted(b, c, task, {}, forth)
    ensures Noted(a, c, task, back, forth)
  {
  }

  /** Notes in other tasks, without the updated task's own write, keep the inverse exactly if none of them is new. */
  lemma UnansweredNotes(before: Tasks, after: Tasks, task: string, back: set<string>, forth: set<string>)
    requires Inverse(before) && task in before && Noted(before, after, task, back, forth)
    requires forall id :: id in back + forth ==> id in before
    ensures Inverse(after) <==> back <= SetOf(before[task].blocks) && forth <= SetOf(before[task].blockedBy)
  {
    if Inverse(after) {
      forall id | id in back
        ensures id in before[task].blocks
      {
        assert task in after[id].blockedBy;
        assert id in after[task].blocks;
      }
      forall id | id in forth
        ensures id in before[task].blockedBy
      {
        assert task in after[id].blocks;
        assert id in after[task].blockedBy;
      }
    }
    if back <= SetOf(before[task].blocks) && forth <= SetOf(before[task].blockedBy) {
      NothingNoted(before, after, task, back, forth);
    }
  }

  lemma NothingNoted(before: Tasks, after: Tasks, task: string, back: set<string>, forth: set<string>)
    requires Inverse(before) && task in before && Noted(before, after, task, back, forth)
    requires back <= SetOf(before[task].blocks) && forth <= SetOf(before[task].blockedBy)
    ensures Inverse(after)
  {
    forall u, v | u in before
      ensures v in after[u].blockedBy <==> v in before[u].blockedBy
      ensures v in after[u].blocks <==> v in before[u].blocks
    {
    }
    SameInverse(before, after);
  }

  lemma SameInverse(before: Tasks, after: Tasks)
    requires Inverse(before) && before.Keys == after.Keys
    requires forall u, v :: u in before ==>
               (v in after[u].blockedBy <==> v in before[u].blockedBy)
                   && (v in after[u].blocks <==> v in before[u].blocks)
    ensures Inverse(after)
  {
  }

  function SetOf(ids: seq<string>): set<string> { set id | id in ids }

  /** The lists the updated task ends up with: its own, the noted ones, and perhaps ids not in the store. */
  ghost predicate Lists(before: Tasks, task: string, t: Task, back: set<string>, forth: set<string>)
    requires task in before
  {
    && (forall id :: id in before[task].blocks || id in back ==> id in t.blocks)
    && (forall id :: id in before[task].blockedBy || id in forth ==> id in t.blockedBy)
    && (forall id :: id in t.blocks && id in before ==> id in before[task].blocks || id in back)
    && (forall id :: id in t.blockedBy && id in before ==> id in before[task].blockedBy || id in forth)
  }

  lemma AnsweredForth(before: Tasks, after: Tasks, task: string, t: Task, back: set<string>, forth: set<string>,
                      u: string, v: string)
    requires Inverse(before) && task in before && Noted(before, after, task, back, forth)
    requires Lists(before, task, t, back, forth) && forall id :: id in t.blocks ==> id in before
    requires var last := after[task := t]; u in last && v in last[u].blocks
    ensures var last := after[task := t]; v in last && u in last[v].blockedBy
  {
    if u == task {
      assert v in before;
    } else if u in forth && v == task {
    } else {
      assert v in before[u].blocks && u in before[v].blockedBy;
    }
  }

  lemma AnsweredBack(before: Tasks, after: Tasks, task: string, t: Task, back: set<string>, forth: set<string>,
                     u: string, v: string)
    requires Inverse(before) && task in before && Noted(before, after, task, back, forth)
    requires Lists(before, task, t, back, forth) && forall id :: id in t.blockedBy ==> id in before
    requires var last := after[task := t]; v in last && u in last[v].blockedBy
    ensures var last := after[task := t]; u in last && v in last[u].blocks
  {
    if v == task {
      assert u in before;
    } else if v in back && u == task {
    } else {
      assert u in before[v].blockedBy && v in before[u].blocks;
    }
  }

  /** The updated task's own write answers the notes exactly if every id it lists is in the store. */
  lemma AnsweredNotes(before: Tasks, after: Tasks, task: string, t: Task, back: set<string>, forth: set<string>)
    requires Inverse(before) && task in before && Noted(before, after, task, back, forth)
    requires Lists(before, task, t, back, forth)
    ensures Inverse(after[task := t]) <==>
            (forall id :: id in t.blocks ==> id in before) && (forall id :: id in t.blockedBy ==> id in before)
  {
    hide Lists;
    var last := after[task := t];
    InTheStore(after, before, task, back, forth);
    if (forall id :: id in t.blocks ==> id in before) && (forall id :: id in t.blockedBy ==> id in before) {
      forall u, v | u in last && v in last[u].blocks
        ensures v in last && u in last[v].blockedBy
      {
        AnsweredForth(before, after, task, t, back, forth, u, v);
      }
      forall u, v | v in last && u in last[v].blockedBy
        ensures u in last && v in last[u].blocks
      {
        AnsweredBack(before, after, task, t, back, forth, u, v);
      }
    } else if exists id :: id in t.blocks && id !in before {
      var id :| id in t.blocks && id !in before;
      assert id in last[task].blocks && id !in last;
    } else {
      var id :| id in t.blockedBy && id !in before;
      assert id in last[task].blockedBy && id !in last;
    }
  }

  /** A refused update has noted nothing that was not there already: of the stored ids in front of the refused one,
      the task blocks those of the first list, and waits for those of the second one, if that is reached. */
  ghost predicate NothingNew(tasks: Tasks, task: string, c: Change)
    requires task in tasks
  {
    && (forall id :: id in tasks && InFront(c.addBlocks, Leading(tasks, task), id) ==> id in tasks[task].blocks)
    && (NoneRefused(c.addBlocks, Leading(tasks, task)) ==>
          forall id :: id in tasks && InFront(c.addBlockedBy, LedTo(tasks, task), id) ==> id in tasks[task].blockedBy)
  }

  /** One update keeps `blocks` and `blockedBy` inverse exactly if it goes through with every id in the store, or is
      refused for a cycle behind ids whose edges are all there already, or does nothing. */
  lemma UpdateInverse(tasks: Tasks, task: string, c: Change)
    requires Inverse(tasks)
    ensures var (after, outcome) := Update(tasks, task, c);
            Inverse(after) <==>
            match outcome
            case Updated => forall id :: Meant(c.addBlocks, id) || Meant(c.addBlockedBy, id) ==> id in tasks
            case Cycle => task in tasks && NothingNew(tasks, task, c)
            case _ => true
  {
    hide Reaches, EdgesOf, Inverse, Noted, InFront, NoneRefused, Leading, LedTo;
    if task in tasks && (c.status == tasks[task].status || ValidTransition(tasks[task].status, c.status)) {
      var t := tasks[task];
      var back := AddBlocksNotes(Draft(tasks, t.blocks, false), task, c.addBlocks);
      var first := Blocking(tasks, task, c);
      if first.refused {
        RefusedStaysBehind(Draft(first.tasks, t.blockedBy, true), task, c.addBlockedBy, 0);
        UnansweredNotes(tasks, first.tasks, task, back, {});
      } else {
        SecondList(tasks, task, c, back);
      }
    }
  }

  /** A task that is told to block another one and, by mistake, itself: the update is refused, and the other task is
      left waiting for a task that does not know of it. */
  lemma RefusedLeavesNote(tasks: Tasks, task: string, other: string, c: Change)
    requires Inverse(tasks) && task in tasks && other in tasks && task != "" && other != ""
    requires other !in tasks[task].blocks && !Reaches(EdgesOf(tasks), other, task)
    requires c.addBlocks == [other, task] && c.status == tasks[task].status
    ensures Update(tasks, task, c).1 == Cycle && !Inverse(Update(tasks, task, c).0)
  {
    hide Reaches, EdgesOf, Inverse;
    ReachesSelf(EdgesOf(tasks), task);
    AddBlocksExact(Draft(tasks, tasks[task].blocks, false), task, c.addBlocks);
    var first := Blocking(tasks, task, c);
    assert Meant(c.addBlocks, task) && first.refused;
    RefusedStaysBehind(Draft(first.tasks, tasks[task].blockedBy, true), task, c.addBlockedBy, 0);
    UpdateInverse(tasks, task, c);
    assert c.addBlocks[0] == other && InFront(c.addBlocks, Leading(tasks, task), other);
  }

  lemma SecondList(tasks: Tasks, task: string, c: Change, back: set<string>)
    requires Inverse(tasks) && task in tasks && !Blocking(tasks, task, c).refused
    requires c.status == tasks[task].status || ValidTransition(tasks[task].status, c.status)
    requires Noted(tasks, Blocking(tasks, task, c).tasks, task, back, {})
    requires NoneRefused(c.addBlocks, Leading(tasks, task))
    requires forall id :: id in back <==> id in tasks && InFront(c.addBlocks, Leading(tasks, task), id)
    ensures var (after, outcome) := Update(tasks, task, c);
            Inverse(after) <==>
            match outcome
            case Updated => forall id :: Meant(c.addBlocks, id) || Meant(c.addBlockedBy, id) ==> id in tasks
            case Cycle => NothingNew(tasks, task, c)
            case _ => true
  {
    hide Reaches, EdgesOf, Inverse, Noted, InFront, NoneRefused, Leading, LedTo;
    var t, first := tasks[task], Blocking(tasks, task, c);
    InTheStore(first.tasks, tasks, task, back, {});
    var forth := AddBlockersNotes(Draft(first.tasks, t.blockedBy, false), task, c.addBlockedBy);
    SameLeads(tasks, task, c);
    var last := Blocked(tasks, task, c);
    NotedTwice(tasks, first.tasks, last.tasks, task, back, forth);
    if last.refused {
      UnansweredNotes(tasks, last.tasks, task, back, forth);
    } else {
      ListedExactly(Draft(tasks, t.blocks, false), task, c.addBlocks);
      BlockersListedExactly(Draft(first.tasks, t.blockedBy, false), task, c.addBlockedBy);
      OwnListsStored(tasks, task);
      AllInFront(c.addBlocks, Leading(tasks, task));
      AllInFront(c.addBlockedBy, LedTo(tasks, task));
      FrontMeant(c.addBlocks, Leading(tasks, task));
      FrontMeant(c.addBlockedBy, LedTo(tasks, task));
      AnsweredNotes(tasks, last.tasks, task, Task(c.details, c.status, first.listed, last.listed), back, forth);
    }
  }

  lemma FrontMeant(ids: seq<string>, refused: iset<string>)
    ensures forall id :: InFront(ids, refused, id) ==> Meant(ids, id)
  {
  }

  lemma SameLeads(tasks: Tasks, task: string, c: Change)
    requires task in tasks
    ensures LedTo(Blocking(tasks, task, c).tasks, task) == LedTo(tasks, task)
  {
    hide Reaches, EdgesOf;
    AddBlocksExact(Draft(tasks, tasks[task].blocks, false), task, c.addBlocks);
  }

  lemma InTheStore(after: Tasks, before: Tasks, task: string, back: set<string>, forth: set<string>)
    requires Noted(before, after, task, back, forth)
    ensures after.Keys == before.Keys
  {
  }

  lemma OwnListsStored(tasks: Tasks, task: string)
    requires Inverse(tasks) && task in tasks
    ensures forall id :: id in tasks[task].blocks || id in tasks[task].blockedBy ==> id in tasks
  {
  }

  lemma {:induction false} ListedExactly(d: Draft, task: string, ids: seq<string>)
    ensures var r := AddBlocks(d, task, ids);
            !r.refused ==> forall id :: id in r.listed <==> id in d.listed || Meant(ids, id)
  {
    hide Reaches, EdgesOf;
    if ids != [] {
      ListedExactly(d, task, ids[..|ids| - 1]);
      MeantSnoc(ids);
    }
  }

  lemma {:induction false} BlockersListedExactly(d: Draft, task: string, ids: seq<string>)
    ensures var r := AddBlockers(d, task, ids);
            !r.refused ==> forall id :: id in r.listed <==> id in d.listed || Meant(ids, id)
  {
    hide Reaches, EdgesOf;
    if ids != [] {
      BlockersListedExactly(d, task, ids[..|ids| - 1]);
      MeantSnoc(ids);
    }
  }
}
