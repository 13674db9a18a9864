/** The circuit breaker: a task that keeps running out of iterations is started three times in a row at most,
    whatever sessions its dispatches name. */
module CircuitBreaker {
  import opened Wrappers
  import opened SubAgents

  datatype World = World(sessions: Sessions, anchors: Anchors)

  /** What happens to a task between two looks at the tables: it is dispatched again, and the run (if there is
      one) ends, or something happens elsewhere. */
  datatype Turn =
    | Redispatch(agent: string, sessionId: string, o: Outside, receipt: Receipt, now: nat, ending: Ending)
    | Elsewhere

  /** Session table after an accepted task has run. */
  function AfterRun(sessions: Sessions, id: string, now: nat, e: Ending): Sessions {
    Recorded(Released(Touched(sessions, id, now), id), id, e)
  }

  function AfterEnding(w: World, key: (string, string), id: string, now: nat, e: Ending): World {
    World(AfterRun(w.sessions, id, now, e), if OutOfIterations(e) then Anchored(w.anchors, key, id) else w.anchors)
  }

  /** Nothing is said of what happens elsewhere but that the task keeps its anchor, and the anchored session its
      streak. */
  predicate Undisturbed(w: World, key: (string, string), w': World) {
    && AnchorOf(w'.anchors, key) == AnchorOf(w.anchors, key) && ("" !in w.sessions ==> "" !in w'.sessions)
    && var a := AnchorOf(w.anchors, key);
       a != "" && a in w.sessions ==> a in w'.sessions && w'.sessions[a].streak == w.sessions[a].streak
  }

  /** One turn of the task `task` dispatched from `from`. Ids the store makes are neither taken nor empty. */
  ghost predicate Takes(w: World, from: Caller, task: string, t: Turn, w': World) {
    match t
    case Elsewhere => Undisturbed(w, (from.mainId, task), w')
    case Redispatch(agent, sessionId, o, receipt, now, ending) =>
      && (o.store.created.Some? ==> o.store.created.value !in w.sessions && o.store.created.value != "")
      && exists mid: Sessions ::
           && Submitted(w.sessions, w.anchors, Request(agent, task, sessionId), from, o, receipt, mid)
           && w' == if receipt.Accepted?
                    then AfterEnding(World(mid, w.anchors), (from.mainId, task), receipt.id, now, ending)
                    else World(mid, w.anchors)
  }

  /** Turns, each with the tables after it. */
  ghost predicate Follows(w: World, from: Caller, task: string, run: seq<(Turn, World)>)
    decreases |run|
  {
    run == [] || (Takes(w, from, task, run[0].0, run[0].1) && Follows(run[0].1, from, task, run[1..]))
  }

  predicate Failed(t: Turn) { t.Redispatch? && t.receipt.Accepted? && OutOfIterations(t.ending) }

  predicate EndedOtherwise(t: Turn) { t.Redispatch? && t.receipt.Accepted? && !OutOfIterations(t.ending) }

  /** Runs out of iterations in a row: `n` so far, counting on through these turns. */
  function InARow(n: nat, run: seq<(Turn, World)>): nat
    decreases |run|
  {
    if run == [] then n
    else InARow(if Failed(run[0].0) then n + 1 else if EndedOtherwise(run[0].0) then 0 else n, run[1..])
  }

  /** The task's failures in a row are on record: its anchor names a registered session with that streak. */
  predicate OnRecord(w: World, key: (string, string), n: nat) {
    "" !in w.sessions &&
    (n > 0 || AnchorOf(w.anchors, key) != "" ==>
       AnchorOf(w.anchors, key) in w.sessions && w.sessions[AnchorOf(w.anchors, key)].streak >= n)
  }

  // ---------------------------------------------------------------- one dispatch

  /** An anchored dispatch goes to the anchored session or nowhere, and is started there exactly if the streak
      allows it and nothing else is in the way. */
  lemma AnchoredDispatch(w: World, from: Caller, req: Request, o: Outside, receipt: Receipt, mid: Sessions)
    requires Submitted(w.sessions, w.anchors, req, from, o, receipt, mid)
    requires var a := AnchorOf(w.anchors, (from.mainId, req.task)); a != "" && a in w.sessions
    ensures var a := AnchorOf(w.anchors, (from.mainId, req.task));
            && a in mid && mid[a].streak == w.sessions[a].streak && mid.Keys == w.sessions.Keys
            && (receipt.Accepted? ==> receipt.id == a)
            && (receipt.Accepted? <==>
                && o.agentExists && o.inSession && o.registers && o.emits
                && (req.sessionId == "" || req.sessionId == a) && w.sessions[a].streak < ITERATION_FAIL_LIMIT)
            && (receipt.Accepted? ==>
                  receipt.ask == if w.sessions[a].streak > 0 then Continue else Whole(req.task))
  {
    var a := AnchorOf(w.anchors, (from.mainId, req.task));
    if o.agentExists && o.inSession && !IsDetour(w.anchors, from.mainId, req) {
      var c: Option<Claim> :|
        && Locates(w.sessions, Profile(req.agent, from.dir, from.agent), Aimed(w.anchors, from.mainId, req), o.store, c)
        && OnClaim(w.sessions, req, o, receipt, mid, c);
      assert c == Some(Named(a));
    }
  }

  /** Any accepted dispatch runs on a registered session that has its streak from before. */
  lemma AcceptedDispatch(w: World, from: Caller, req: Request, o: Outside, receipt: Receipt, mid: Sessions)
    requires Submitted(w.sessions, w.anchors, req, from, o, receipt, mid) && "" !in w.sessions
    requires o.store.created.Some? ==> o.store.created.value !in w.sessions && o.store.created.value != ""
    ensures "" !in mid && w.sessions.Keys <= mid.Keys
    ensures receipt.Accepted? ==> receipt.id in mid && mid[receipt.id].streak < ITERATION_FAIL_LIMIT
    ensures forall id :: id in w.sessions ==> mid[id].streak == w.sessions[id].streak
  {
    if o.agentExists && o.inSession && !IsDetour(w.anchors, from.mainId, req) {
      var c: Option<Claim> :|
        && Locates(w.sessions, Profile(req.agent, from.dir, from.agent), Aimed(w.anchors, from.mainId, req), o.store, c)
        && OnClaim(w.sessions, req, o, receipt, mid, c);
      if c.Some? {
        LocatedNamed(w, Profile(req.agent, from.dir, from.agent), Aimed(w.anchors, from.mainId, req), o.store, c.value);
      }
      hide Locates;
      ClaimKeepsStreaks(w.sessions, req, o, receipt, mid, c);
    }
  }

  lemma ClaimKeepsStreaks(sessions: Sessions, req: Request, o: Outside, receipt: Receipt, after: Sessions,
                          c: Option<Claim>)
    requires OnClaim(sessions, req, o, receipt, after, c) && "" !in sessions
    requires c.Some? ==> c.value.id != "" && (c.value.Reused? || c.value.Named? ==> c.value.id in sessions)
    ensures "" !in after && sessions.Keys <= after.Keys
    ensures receipt.Accepted? ==> receipt.id in after && after[receipt.id].streak < ITERATION_FAIL_LIMIT
    ensures forall id :: id in sessions ==> after[id].streak == sessions[id].streak
  {
  }

  lemma LocatedNamed(w: World, p: Profile, named: string, store: Store, c: Claim)
    requires Locates(w.sessions, p, named, store, Some(c)) && "" !in w.sessions
    requires store.created.Some? ==> store.created.value !in w.sessions && store.created.value != ""
    ensures c.id != "" && ((c.Reused? || c.Named?) ==> c.id in w.sessions)
  {
    if c.Recovered? {
      LatestNamed(store.listing.value, p);
    }
  }

  lemma {:induction false} LatestNamed(infos: seq<Info>, p: Profile)
    ensures LatestOf(infos, p).Some? ==> LatestOf(infos, p).value.id != ""
  {
    if infos != [] {
      LatestNamed(infos[..|infos| - 1], p);
    }
  }

  // ---------------------------------------------------------------- whole runs

  /** A run that ends on the anchored session, or on the first one, leaves its failures on record. */
  lemma EndingOnRecord(w: World, key: (string, string), id: string, now: nat, e: Ending, n: nat)
    requires OnRecord(w, key, n) && id in w.sessions && w.sessions[id].streak < ITERATION_FAIL_LIMIT
    requires AnchorOf(w.anchors, key) != "" ==> AnchorOf(w.anchors, key) == id
    ensures OnRecord(AfterEnding(w, key, id, now, e), key, if OutOfIterations(e) then n + 1 else 0)
    ensures n < ITERATION_FAIL_LIMIT
  {
  }

  lemma TurnOnRecord(w: World, from: Caller, task: string, t: Turn, w': World, n: nat)
    requires Takes(w, from, task, t, w') && OnRecord(w, (from.mainId, task), n) && n <= ITERATION_FAIL_LIMIT
    ensures var n' := if Failed(t) then n + 1 else if EndedOtherwise(t) then 0 else n;
            OnRecord(w', (from.mainId, task), n') && n' <= ITERATION_FAIL_LIMIT
  {
    if t.Redispatch? {
      var mid: Sessions :|
        && Submitted(w.sessions, w.anchors, Request(t.agent, task, t.sessionId), from, t.o, t.receipt, mid)
        && w' == if t.receipt.Accepted?
                 then AfterEnding(World(mid, w.anchors), (from.mainId, task), t.receipt.id, t.now, t.ending)
                 else World(mid, w.anchors);
      hide Submitted;
      AcceptedDispatch(w, from, Request(t.agent, task, t.sessionId), t.o, t.receipt, mid);
      if AnchorOf(w.anchors, (from.mainId, task)) != "" {
        AnchoredDispatch(w, from, Request(t.agent, task, t.sessionId), t.o, t.receipt, mid);
      }
      if t.receipt.Accepted? {
        EndingOnRecord(World(mid, w.anchors), (from.mainId, task), t.receipt.id, t.now, t.ending, n);
        hide AfterEnding, OnRecord;
      }
    }
  }

  /** In every run, whatever the dispatches name and whatever goes on elsewhere, a task runs out of iterations at
      most three times in a row. */
  lemma {:induction false} BreakerBounds(w: World, from: Caller, task: string, run: seq<(Turn, World)>, n: nat)
    requires Follows(w, from, task, run)
    requires OnRecord(w, (from.mainId, task), n) && n <= ITERATION_FAIL_LIMIT
    ensures InARow(n, run) <= ITERATION_FAIL_LIMIT
    ensures OnRecord(if run == [] then w else run[|run| - 1].1, (from.mainId, task), InARow(n, run))
    decreases |run|
  {
    hide Takes, OnRecord;
    if run != [] {
      var (t, w') := run[0];
      var n' := if Failed(t) then n + 1 else if EndedOtherwise(t) then 0 else n;
      TurnOnRecord(w, from, task, t, w', n);
      BreakerBounds(w', from, task, run[1..], n');
    }
  }

  /** Behind three in a row the breaker has tripped for good: no dispatch of the task is accepted any more. */
  lemma {:induction false} TrippedForGood(w: World, from: Caller, task: string, run: seq<(Turn, World)>)
    requires Follows(w, from, task, run)
    requires OnRecord(w, (from.mainId, task), ITERATION_FAIL_LIMIT)
    ensures forall k :: 0 <= k < |run| && run[k].0.Redispatch? ==> !run[k].0.receipt.Accepted?
    decreases |run|
  {
    if run != [] {
      var (t, w') := run[0];
      TurnOnRecord(w, from, task, t, w', ITERATION_FAIL_LIMIT);
      if t.Redispatch? {
        var mid: Sessions :|
          Submitted(w.sessions, w.anchors, Request(t.agent, task, t.sessionId), from, t.o, t.receipt, mid);
        AnchoredDispatch(w, from, Request(t.agent, task, t.sessionId), t.o, t.receipt, mid);
      }
      hide Takes, OnRecord;
      TrippedForGood(w', from, task, run[1..]);
      assert forall k :: 1 <= k < |run| ==> run[k] == run[1..][k - 1];
    }
  }

  // ---------------------------------------------------------------- the two side conditions

  /** A run of another task on the anchored session opens a tripped breaker exactly unless it, too, runs out of
      iterations. */
  lemma ForeignRunResets(w: World, from: Caller, req: Request, o: Outside, receipt: Receipt, mid: Sessions,
                         now: nat, foreign: Ending)
    requires var a := AnchorOf(w.anchors, (from.mainId, req.task));
             && a != "" && a in w.sessions && w.sessions[a].streak >= ITERATION_FAIL_LIMIT
             && (req.sessionId == "" || req.sessionId == a)
             && Submitted(AfterRun(w.sessions, a, now, foreign), w.anchors, req, from, o, receipt, mid)
    requires o.agentExists && o.inSession && o.registers && o.emits
    ensures receipt.Accepted? <==> !OutOfIterations(foreign)
  {
    hide Submitted;
    AnchoredDispatch(World(AfterRun(w.sessions, AnchorOf(w.anchors, (from.mainId, req.task)), now, foreign), w.anchors),
                     from, req, o, receipt, mid);
  }

  /** The table of anchors stays within its limit, and recording one anchor keeps the others exactly while it is
      below the limit: at the limit all of them are forgotten. */
  lemma AnchorsBounded(anchors: Anchors, key: (string, string), id: string)
    requires |anchors| <= ANCHOR_LIMIT
    ensures |Anchored(anchors, key, id)| <= ANCHOR_LIMIT && AnchorOf(Anchored(anchors, key, id), key) == id
    ensures (forall other :: other != key ==>
               AnchorOf(Anchored(anchors, key, id), other) == AnchorOf(anchors, other))
       <==> (|anchors| < ANCHOR_LIMIT || forall other :: other != key ==> AnchorOf(anchors, other) == "")
  {
    var only: Anchors := map[key := id];
    assert only.Keys == {key};
    if key in anchors {
      assert anchors[key := id].Keys == anchors.Keys;
    } else {
      assert anchors[key := id].Keys == anchors.Keys + {key};
    }
  }

  /** Nothing but the streak of its session is in the way of a dispatch. */
  predicate Clear(o: Outside) { o.agentExists && o.inSession && o.registers && o.emits }

  /** The streak a session comes with; none, if it is not in the table yet. */
  function StreakIn(sessions: Sessions, id: string): nat { if id in sessions then sessions[id].streak else 0 }

  /** Without an anchor a dispatch is judged by the streak of whatever session it names or is located on. */
  lemma UnanchoredDispatch(w: World, from: Caller, req: Request, o: Outside, receipt: Receipt, mid: Sessions)
    requires Submitted(w.sessions, w.anchors, req, from, o, receipt, mid)
    requires AnchorOf(w.anchors, (from.mainId, req.task)) == ""
    ensures req.sessionId != "" && req.sessionId in w.sessions ==>
              (receipt.Accepted? <==> Clear(o) && w.sessions[req.sessionId].streak < ITERATION_FAIL_LIMIT)
              && (receipt.Accepted? ==> receipt.id == req.sessionId)
    ensures exists c: Option<Claim> ::
              && Locates(w.sessions, Profile(req.agent, from.dir, from.agent), req.sessionId, o.store, c)
              && (receipt.Accepted? <==>
                  Clear(o) && c.Some? && StreakIn(w.sessions, c.value.id) < ITERATION_FAIL_LIMIT)
              && (receipt.Accepted? ==> receipt.id == c.value.id)
  {
    var p := Profile(req.agent, from.dir, from.agent);
    if o.agentExists && o.inSession {
      var c: Option<Claim> :| Locates(w.sessions, p, req.sessionId, o.store, c)
          && OnClaim(w.sessions, req, o, receipt, mid, c);
      ClaimJudged(w.sessions, req, o, receipt, mid, c);
      if req.sessionId in w.sessions && req.sessionId != "" {
        assert c == Some(Named(req.sessionId));
      }
    } else {
      var c := SomethingLocated(w.sessions, p, req.sessionId, o.store);
    }
  }

  lemma ClaimJudged(sessions: Sessions, req: Request, o: Outside, receipt: Receipt, after: Sessions, c: Option<Claim>)
    requires o.agentExists && o.inSession && OnClaim(sessions, req, o, receipt, after, c)
    ensures receipt.Accepted? <==> Clear(o) && c.Some? && StreakIn(sessions, c.value.id) < ITERATION_FAIL_LIMIT
    ensures receipt.Accepted? ==> receipt.id == c.value.id
  {
  }

  lemma SomethingLocated(sessions: Sessions, p: Profile, named: string, store: Store) returns (c: Option<Claim>)
    ensures Locates(sessions, p, named, store, c)
  {
    if named != "" {
      c := if named in sessions then Some(Named(named))
           else if named in store.loads then Some(Restored(named, store.loads[named])) else None;
    } else if exists id :: MostRecentIdle(sessions, p, id) {
      var id :| MostRecentIdle(sessions, p, id);
      c := Some(Reused(id));
    } else {
      var id := Recoverable(sessions, p, store);
      c := if id.Some? then Some(Recovered(id.value, store.loads[id.value]))
           else if store.created.Some? && store.created.value in store.loads
           then Some(Created(store.created.value, store.loads[store.created.value])) else None;
    }
  }

  /** A task whose breaker has tripped is dispatched again, naming another session that is below the limit, after some
      other task has recorded its anchor: it is accepted exactly if that recording found the table full, and nothing
      else is in the way. */
  lemma ForgottenAnchorReopens(w: World, from: Caller, req: Request, o: Outside, receipt: Receipt, mid: Sessions,
                               other: (string, string), id: string)
    requires var a := AnchorOf(w.anchors, (from.mainId, req.task));
             && a != "" && a in w.sessions && w.sessions[a].streak >= ITERATION_FAIL_LIMIT && req.sessionId != a
    requires req.sessionId != "" && req.sessionId in w.sessions
    requires w.sessions[req.sessionId].streak < ITERATION_FAIL_LIMIT && other != (from.mainId, req.task)
    requires Submitted(w.sessions, Anchored(w.anchors, other, id), req, from, o, receipt, mid)
    ensures receipt.Accepted? <==> Clear(o) && |w.anchors| >= ANCHOR_LIMIT
  {
    hide Submitted;
    var after := World(w.sessions, Anchored(w.anchors, other, id));
    if |w.anchors| >= ANCHOR_LIMIT {
      UnanchoredDispatch(after, from, req, o, receipt, mid);
    } else {
      AnchoredDispatch(after, from, req, o, receipt, mid);
    }
  }
}
