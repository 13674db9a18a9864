/** The circuit breaker in time. A run that has ended is first settled, which wakes its caller, then its outcome goes
    to the streak of its session, and only then is its task anchored; dispatches of the task may come in between. */
module BreakerTiming {
  import opened Wrappers
  import opened SubAgents
  import opened CircuitBreaker

  // ---------------------------------------------------------------- steps

  datatype Phase = Running | Settled(ending: Ending) | Counted

  /** An accepted dispatch of the task whose outcome is not on record yet. */
  datatype Flight = Flight(id: string, phase: Phase)

  /** The tables, the task's flights, and the sessions it has run on. */
  datatype Air = Air(w: World, flights: map<nat, Flight>, own: set<string>)

  datatype Beat =
    | Dispatch(flight: nat, agent: string, sessionId: string, o: Outside, receipt: Receipt)
    | Settle(flight: nat, now: nat, ending: Ending)
    | Count(flight: nat, ending: Ending)
    | Anchor(flight: nat)
    | Elsewhere

  /** Nothing is said of what happens elsewhere but that the task keeps its anchor, and its sessions their streaks. */
  predicate Aside(s: Air, key: (string, string), s': Air) {
    && s'.flights == s.flights && s'.own == s.own && AnchorOf(s'.w.anchors, key) == AnchorOf(s.w.anchors, key)
    && "" !in s'.w.sessions && SameStreaks(s.w.sessions, s'.w.sessions, s.own)
  }

  predicate SameStreaks(before: Sessions, after: Sessions, ids: set<string>) {
    forall id :: id in ids && id in before ==> id in after && after[id].streak == before[id].streak
  }

  predicate In(s: Air, k: nat, phase: Phase) { k in s.flights && s.flights[k].phase == phase }

  function AfterSettle(s: Air, k: nat, now: nat, ending: Ending): Air
    requires k in s.flights
  {
    var id := s.flights[k].id;
    Air(World(Released(Touched(s.w.sessions, id, now), id), s.w.anchors), s.flights[k := Flight(id, Settled(ending))],
        s.own)
  }

  function AfterCount(s: Air, k: nat, ending: Ending): Air
    requires k in s.flights
  {
    var id := s.flights[k].id;
    Air(World(Recorded(s.w.sessions, id, ending), s.w.anchors),
        if OutOfIterations(ending) then s.flights[k := Flight(id, Counted)] else s.flights - {k}, s.own)
  }

  function AfterAnchor(s: Air, key: (string, string), k: nat): Air
    requires k in s.flights
  {
    Air(World(s.w.sessions, Anchored(s.w.anchors, key, s.flights[k].id)), s.flights - {k}, s.own)
  }

  ghost predicate Beats(s: Air, from: Caller, task: string, beat: Beat, s': Air) {
    var key := (from.mainId, task);
    match beat
    case Dispatch(k, agent, sessionId, o, receipt) =>
      && k !in s.flights
      && (o.store.created.Some? ==> o.store.created.value !in s.w.sessions && o.store.created.value != "")
      && Submitted(s.w.sessions, s.w.anchors, Request(agent, task, sessionId), from, o, receipt, s'.w.sessions)
      && s'.w.anchors == s.w.anchors
      && s'.flights == (if receipt.Accepted? then s.flights[k := Flight(receipt.id, Running)] else s.flights)
      && s'.own == s.own + if receipt.Accepted? then {receipt.id} else {}
    case Settle(k, now, ending) => In(s, k, Running) && s' == AfterSettle(s, k, now, ending)
    case Count(k, ending) => In(s, k, Settled(ending)) && s' == AfterCount(s, k, ending)
    case Anchor(k) => In(s, k, Counted) && s' == AfterAnchor(s, key, k)
    case Elsewhere => Aside(s, key, s')
  }

  /** Beats, each with what it leaves; at most `most` flights are not on record at any time. */
  ghost predicate Flies(s: Air, from: Caller, task: string, run: seq<(Beat, Air)>, most: nat)
    decreases |run|
  {
    run == [] ||
    (Beats(s, from, task, run[0].0, run[0].1) && |run[0].1.flights| <= most
     && Flies(run[0].1, from, task, run[1..], most))
  }

  /** Runs out of iterations in a row, as they are put on record. */
  function FailedInARow(n: nat, run: seq<(Beat, Air)>): nat
    decreases |run|
  {
    if run == [] then n else FailedInARow(After(n, run[0].0), run[1..])
  }

  function After(n: nat, beat: Beat): nat {
    if beat.Count? then if OutOfIterations(beat.ending) then n + 1 else 0 else n
  }

  // ---------------------------------------------------------------- scores

  function Score(sessions: Sessions, id: string, cap: nat): nat {
    if id !in sessions then 0 else if sessions[id].streak < cap then sessions[id].streak else cap
  }

  ghost function Total(sessions: Sessions, ids: set<string>, cap: nat): nat {
    if ids == {} then 0 else var id :| id in ids; Total(sessions, ids - {id}, cap) + Score(sessions, id, cap)
  }

  lemma {:induction false} TotalWithout(sessions: Sessions, ids: set<string>, cap: nat, id: string)
    requires id in ids
    ensures Total(sessions, ids, cap) == Total(sessions, ids - {id}, cap) + Score(sessions, id, cap)
    decreases |ids|
  {
    hide Score;
    var first :| first in ids
                 && Total(sessions, ids, cap) == Total(sessions, ids - {first}, cap) + Score(sessions, first, cap);
    if first != id {
      TotalWithout(sessions, ids - {first}, cap, id);
      TotalWithout(sessions, ids - {id}, cap, first);
      assert ids - {first} - {id} == ids - {id} - {first};
    }
  }

  lemma {:induction false} TotalSame(before: Sessions, after: Sessions, ids: set<string>, cap: nat)
    requires forall id :: id in ids ==> Score(before, id, cap) == Score(after, id, cap)
    ensures Total(before, ids, cap) == Total(after, ids, cap)
    decreases |ids|
  {
    hide Score;
    if ids != {} {
      var id :| id in ids;
      TotalWithout(before, ids, cap, id);
      TotalWithout(after, ids, cap, id);
      TotalSame(before, after, ids - {id}, cap);
    }
  }

  lemma OneMoreTimes(n: nat, cap: nat)
    ensures (n + 1) * cap == n * cap + cap
  {
  }

  lemma {:induction false} TotalBelow(sessions: Sessions, ids: set<string>, cap: nat)
    ensures Total(sessions, ids, cap) <= |ids| * cap
    decreases |ids|
  {
    if ids != {} {
      var id :| id in ids;
      hide Total;
      TotalWithout(sessions, ids, cap, id);
      TotalBelow(sessions, ids - {id}, cap);
      OneMoreTimes(|ids - {id}|, cap);
    }
  }

  // ---------------------------------------------------------------- what every run keeps

  function IdsOf(flights: map<nat, Flight>): set<string> { set k | k in flights :: flights[k].id }

  /** Flights on a session whose outcome its streak does not show yet. */
  function Open(flights: map<nat, Flight>, id: string): set<nat> {
    set k | k in flights && flights[k].id == id && flights[k].phase != Counted
  }

  function Cap(most: nat): nat
    requires most > 0
  {
    ITERATION_FAIL_LIMIT - 1 + most
  }

  /** `ids` are the sessions that count: those in flight until there is an anchor, and those alone from then on. The
      failures in a row are among their streaks, and no streak passes the cap while a flight may still add to it. */
  ghost predicate Kept(s: Air, key: (string, string), n: nat, most: nat, wide: nat, ids: set<string>)
    requires most > 0
  {
    var anchor := AnchorOf(s.w.anchors, key);
    && "" !in s.w.sessions && |s.flights| <= most && |ids| <= wide && IdsOf(s.flights) <= ids <= s.own
    && (if anchor == "" then ids == IdsOf(s.flights) && most <= wide else anchor in ids)
    && (forall id :: id in ids ==> id in s.w.sessions)
    && n <= Total(s.w.sessions, ids, Cap(most))
    && (forall id :: id in ids && Open(s.flights, id) != {} ==>
          s.w.sessions[id].streak + |Open(s.flights, id)| <= Cap(most))
  }

  lemma FewerIn<T>(a: set<T>, b: set<T>)
    requires a <= b
    ensures |a| <= |b|
  {
    assert b == a + (b - a);
  }

  lemma {:induction false} FewIds(flights: map<nat, Flight>)
    ensures |IdsOf(flights)| <= |flights|
    decreases |flights|
  {
    if flights == map[] {
      assert IdsOf(flights) == {};
    } else {
      var k :| k in flights;
      var rest := flights - {k};
      assert rest.Keys == flights.Keys - {k};
      FewIds(rest);
      assert IdsOf(flights) == IdsOf(rest) + {flights[k].id};
    }
  }

  lemma FewOpen(flights: map<nat, Flight>, id: string)
    ensures |Open(flights, id)| <= |flights|
  {
    FewerIn(Open(flights, id), flights.Keys);
  }

  /** A dispatch does not touch the streaks of registered sessions. */
  lemma RefusedKept(s: Air, key: (string, string), s': Air, n: nat, most: nat, wide: nat, ids: set<string>)
    requires most > 0 && Kept(s, key, n, most, wide, ids)
    requires s'.flights == s.flights && s'.own == s.own && AnchorOf(s'.w.anchors, key) == AnchorOf(s.w.anchors, key)
    requires "" !in s'.w.sessions && SameStreaks(s.w.sessions, s'.w.sessions, ids)
    ensures Kept(s', key, n, most, wide, ids)
  {
    hide Total, IdsOf, Open;
    TotalSame(s.w.sessions, s'.w.sessions, ids, Cap(most));
  }

  /** One more flight, on the anchored session if there is one, and below the limit. */
  lemma AcceptedKept(s: Air, key: (string, string), s': Air, k: nat, id: string, n: nat, most: nat, wide: nat,
                     ids: set<string>)
    returns (now: set<string>)
    requires most > 0 && Kept(s, key, n, most, wide, ids) && k !in s.flights && |s'.flights| <= most
    requires s'.flights == s.flights[k := Flight(id, Running)] && s'.own == s.own + {id}
    requires AnchorOf(s'.w.anchors, key) == AnchorOf(s.w.anchors, key)
    requires AnchorOf(s.w.anchors, key) != "" ==> id == AnchorOf(s.w.anchors, key)
    requires "" !in s'.w.sessions && SameStreaks(s.w.sessions, s'.w.sessions, ids)
    requires id in s'.w.sessions && s'.w.sessions[id].streak < ITERATION_FAIL_LIMIT
    ensures Kept(s', key, n, most, wide, now)
  {
    hide Total, IdsOf, Open;
    now := ids + {id};
    TotalGrown(s.w.sessions, s'.w.sessions, ids, id, Cap(most));
    FlightAdded(s.flights, k, id);
  }

  lemma TotalGrown(before: Sessions, after: Sessions, ids: set<string>, id: string, cap: nat)
    requires forall other :: other in ids ==> other in before
    requires SameStreaks(before, after, ids)
    ensures Total(before, ids, cap) <= Total(after, ids + {id}, cap)
  {
    hide Total;
    TotalSame(before, after, ids, cap);
    if id in ids {
      assert ids + {id} == ids;
    } else {
      TotalWithout(after, ids + {id}, cap, id);
      assert ids + {id} - {id} == ids;
    }
  }

  lemma FlightAdded(flights: map<nat, Flight>, k: nat, id: string)
    requires k !in flights
    ensures var more := flights[k := Flight(id, Running)];
            && IdsOf(more) == IdsOf(flights) + {id} && |IdsOf(more)| <= |more| && |Open(more, id)| <= |more|
            && forall other :: other != id ==> Open(more, other) == Open(flights, other)
  {
    var more := flights[k := Flight(id, Running)];
    assert more[k].id == id && forall j :: j in flights ==> more[j] == flights[j];
    FewIds(more);
    FewOpen(more, id);
    forall other | other != id
      ensures Open(more, other) == Open(flights, other)
    {
    }
  }

  lemma DispatchKept(s: Air, from: Caller, task: string, beat: Beat, s': Air, n: nat, most: nat, wide: nat,
                     ids: set<string>)
    returns (now: set<string>)
    requires most > 0 && Kept(s, (from.mainId, task), n, most, wide, ids)
    requires beat.Dispatch? && Beats(s, from, task, beat, s') && |s'.flights| <= most
    ensures Kept(s', (from.mainId, task), n, most, wide, now)
  {
    var key, req := (from.mainId, task), Request(beat.agent, task, beat.sessionId);
    AcceptedDispatch(s.w, from, req, beat.o, beat.receipt, s'.w.sessions);
    if AnchorOf(s.w.anchors, key) != "" {
      AnchoredDispatch(s.w, from, req, beat.o, beat.receipt, s'.w.sessions);
    }
    hide Submitted, Total, IdsOf, Open;
    now := ids;
    if beat.receipt.Accepted? {
      now := AcceptedKept(s, key, s', beat.flight, beat.receipt.id, n, most, wide, ids);
    } else {
      RefusedKept(s, key, s', n, most, wide, ids);
    }
  }

  lemma SettledKept(s: Air, key: (string, string), k: nat, now: nat, ending: Ending, n: nat, most: nat, wide: nat,
                    ids: set<string>)
    requires most > 0 && Kept(s, key, n, most, wide, ids) && In(s, k, Running)
    ensures Kept(AfterSettle(s, k, now, ending), key, n, most, wide, ids)
  {
    hide Total, IdsOf, Open;
    var id := s.flights[k].id;
    TotalSame(s.w.sessions, Released(Touched(s.w.sessions, id, now), id), ids, Cap(most));
    FlightMoved(s.flights, k, Settled(ending));
  }

  lemma FlightMoved(flights: map<nat, Flight>, k: nat, phase: Phase)
    requires k in flights && flights[k].phase != Counted
    ensures var moved := flights[k := Flight(flights[k].id, phase)];
            && |moved| == |flights| && IdsOf(moved) == IdsOf(flights)
            && forall id :: Open(moved, id) == if phase == Counted then Open(flights, id) - {k} else Open(flights, id)
  {
    var moved := flights[k := Flight(flights[k].id, phase)];
    assert moved.Keys == flights.Keys;
    assert forall j :: j in moved ==> moved[j].id == flights[j].id;
    forall id
      ensures Open(moved, id) == if phase == Counted then Open(flights, id) - {k} else Open(flights, id)
    {
    }
  }

  lemma OpenUntilNow(flights: map<nat, Flight>, k: nat)
    requires k in flights && flights[k].phase != Counted
    ensures var open := Open(flights, flights[k].id); k in open && |open - {k}| == |open| - 1
    ensures flights[k].id in IdsOf(flights)
    ensures forall id :: id != flights[k].id ==> Open(flights, id) - {k} == Open(flights, id)
  {
  }

  /** One more failure on record: the streak grows by what the flight no longer adds. */
  lemma FailureKept(s: Air, key: (string, string), k: nat, ending: Ending, n: nat, most: nat, wide: nat,
                    ids: set<string>)
    requires most > 0 && Kept(s, key, n, most, wide, ids) && In(s, k, Settled(ending))
    requires OutOfIterations(ending)
    ensures Kept(AfterCount(s, k, ending), key, n + 1, most, wide, ids)
  {
    hide Total, IdsOf, Open, OutOfIterations;
    var id := s.flights[k].id;
    var after := Recorded(s.w.sessions, id, ending);
    FlightMoved(s.flights, k, Counted);
    OpenUntilNow(s.flights, k);
    TotalWithout(s.w.sessions, ids, Cap(most), id);
    TotalWithout(after, ids, Cap(most), id);
    TotalSame(s.w.sessions, after, ids - {id}, Cap(most));
  }

  /** Any other outcome starts the count anew, and the streak with it. */
  lemma OtherwiseKept(s: Air, key: (string, string), k: nat, ending: Ending, n: nat, most: nat, wide: nat,
                      ids: set<string>)
    returns (now: set<string>)
    requires most > 0 && Kept(s, key, n, most, wide, ids) && In(s, k, Settled(ending))
    requires !OutOfIterations(ending)
    ensures Kept(AfterCount(s, k, ending), key, 0, most, wide, now)
  {
    hide Total, IdsOf, Open, OutOfIterations;
    var id, flights := s.flights[k].id, s.flights - {k};
    now := if AnchorOf(s.w.anchors, key) == "" then IdsOf(flights) else ids;
    LeftOver(s.flights, k);
  }

  /** What is left when a flight is gone. */
  lemma LeftOver(flights: map<nat, Flight>, k: nat)
    requires k in flights
    ensures |flights - {k}| == |flights| - 1 && IdsOf(flights - {k}) <= IdsOf(flights)
            && flights[k].id in IdsOf(flights)
    ensures |IdsOf(flights - {k})| <= |flights - {k}|
    ensures forall id :: Open(flights - {k}, id) <= Open(flights, id)
    ensures forall id :: |Open(flights - {k}, id)| <= |Open(flights, id)|
  {
    FewIds(flights - {k});
    assert (flights - {k}).Keys == flights.Keys - {k};
    forall id
      ensures Open(flights - {k}, id) <= Open(flights, id) && |Open(flights - {k}, id)| <= |Open(flights, id)|
    {
      FewerIn(Open(flights - {k}, id), Open(flights, id));
    }
  }

  lemma AnchorKept(s: Air, key: (string, string), k: nat, n: nat, most: nat, wide: nat, ids: set<string>)
    requires most > 0 && Kept(s, key, n, most, wide, ids) && In(s, k, Counted)
    ensures Kept(AfterAnchor(s, key, k), key, n, most, wide, ids)
  {
    hide Total, IdsOf, Open;
    LeftOver(s.flights, k);
  }

  lemma BeatKept(s: Air, from: Caller, task: string, beat: Beat, s': Air, n: nat, most: nat, wide: nat,
                 ids: set<string>)
    returns (now: set<string>)
    requires most > 0 && Kept(s, (from.mainId, task), n, most, wide, ids)
    requires Beats(s, from, task, beat, s') && |s'.flights| <= most
    ensures Kept(s', (from.mainId, task), After(n, beat), most, wide, now)
  {
    hide Kept, Submitted, AfterSettle, AfterCount, AfterAnchor, OutOfIterations;
    var key := (from.mainId, task);
    now := ids;
    match beat
    case Dispatch(_, _, _, _, _) => now := DispatchKept(s, from, task, beat, s', n, most, wide, ids);
    case Settle(k, time, ending) => SettledKept(s, key, k, time, ending, n, most, wide, ids);
    case Count(k, ending) =>
      if OutOfIterations(ending) {
        FailureKept(s, key, k, ending, n, most, wide, ids);
      } else {
        now := OtherwiseKept(s, key, k, ending, n, most, wide, ids);
      }
    case Anchor(k) => AnchorKept(s, key, k, n, most, wide, ids);
    case Elsewhere =>
      OwnSessions(s, key, n, most, wide, ids);
      RefusedKept(s, key, s', n, most, wide, ids);
  }

  lemma OwnSessions(s: Air, key: (string, string), n: nat, most: nat, wide: nat, ids: set<string>)
    requires most > 0 && Kept(s, key, n, most, wide, ids)
    ensures ids <= s.own
  {
  }

  lemma {:induction false} RunKept(s: Air, from: Caller, task: string, run: seq<(Beat, Air)>, n: nat, most: nat,
                                   wide: nat, ids: set<string>)
    requires most > 0 && Flies(s, from, task, run, most) && Kept(s, (from.mainId, task), n, most, wide, ids)
    ensures FailedInARow(n, run) <= wide * Cap(most)
    decreases |run|
  {
    hide Kept, Beats;
    if run == [] {
      KeptBelow(s, (from.mainId, task), n, most, wide, ids);
    } else {
      var now := BeatKept(s, from, task, run[0].0, run[0].1, n, most, wide, ids);
      RunKept(run[0].1, from, task, run[1..], After(n, run[0].0), most, wide, now);
    }
  }

  lemma KeptBelow(s: Air, key: (string, string), n: nat, most: nat, wide: nat, ids: set<string>)
    requires most > 0 && Kept(s, key, n, most, wide, ids)
    ensures n <= wide * Cap(most)
  {
    hide Total;
    TotalBelow(s.w.sessions, ids, Cap(most));
    assert |ids| * Cap(most) <= wide * Cap(most);
  }

  // ---------------------------------------------------------------- the bound

  /** No flight of the task is under way; if it has an anchor, that names a registered session. */
  predicate Grounded(s: Air, key: (string, string)) {
    var anchor := AnchorOf(s.w.anchors, key);
    s.flights == map[] && "" !in s.w.sessions && (anchor != "" ==> anchor in s.w.sessions && anchor in s.own)
  }

  /** With at most `most` flights that are not on record at any time, dispatched whenever they like, with or without an
      anchor: a task runs out of iterations in a row no more often than the limit less one and `most` say for each
      session it can be on, and that is the anchored one, or one for each flight until there is an anchor. */
  lemma ParallelBound(s: Air, from: Caller, task: string, run: seq<(Beat, Air)>, most: nat)
    requires most > 0 && Grounded(s, (from.mainId, task)) && Flies(s, from, task, run, most)
    ensures FailedInARow(0, run)
            <= (if AnchorOf(s.w.anchors, (from.mainId, task)) == "" then most
                else 1) * (ITERATION_FAIL_LIMIT - 1 + most)
  {
    hide Flies, FailedInARow;
    var anchor := AnchorOf(s.w.anchors, (from.mainId, task));
    assert IdsOf(s.flights) == {} && forall id :: Open(s.flights, id) == {};
    if anchor == "" {
      RunKept(s, from, task, run, 0, most, most, {});
    } else {
      RunKept(s, from, task, run, 0, most, 1, {anchor});
    }
  }

  /** Where each dispatch comes after the recording of the one before, a task runs out of iterations three times in a
      row at most, whatever the dispatches name. */
  lemma PunctualBound(s: Air, from: Caller, task: string, run: seq<(Beat, Air)>)
    requires Grounded(s, (from.mainId, task)) && Flies(s, from, task, run, 1)
    ensures FailedInARow(0, run) <= ITERATION_FAIL_LIMIT
  {
    hide Flies, FailedInARow;
    ParallelBound(s, from, task, run, 1);
  }

  // ---------------------------------------------------------------- settling is not recording

  /** Every dispatch comes after the settling of all flights before it, as a caller sees it that waits for results. */
  predicate Prompt(s: Air, run: seq<(Beat, Air)>)
    decreases |run|
  {
    run == [] ||
    ((run[0].0.Dispatch? ==> forall k :: k in s.flights ==> s.flights[k].phase != Running)
     && Prompt(run[0].1, run[1..]))
  }

  function Last(s: Air, run: seq<(Beat, Air)>): Air { if run == [] then s else run[|run| - 1].1 }

  lemma {:induction false} Appended(s: Air, from: Caller, task: string, a: seq<(Beat, Air)>, b: seq<(Beat, Air)>,
                                    n: nat)
    requires Flies(s, from, task, a, 2) && Flies(Last(s, a), from, task, b, 2) && Prompt(s, a) && Prompt(Last(s, a), b)
    ensures Flies(s, from, task, a + b, 2) && Prompt(s, a + b)
    ensures FailedInARow(n, a + b) == FailedInARow(FailedInARow(n, a), b)
    decreases |a|
  {
    hide Beats;
    if a == [] {
      assert a + b == b;
    } else {
      assert (a + b)[0] == a[0] && (a + b)[1..] == a[1..] + b;
      Appended(a[0].1, from, task, a[1..], b, After(n, a[0].0));
    }
  }

  const OUT: Ending := Ending("", "", "max_iterations")

  const WILLING: Outside := Outside(true, true, Store(None, map[], None), true, true)

  /** One flight, settled but not on record, on session p; the task is anchored to q or not at all. */
  predicate Due(s: Air, key: (string, string), k: nat, p: string, q: string, pStreak: nat, qStreak: nat) {
    && s.flights == map[k := Flight(p, Settled(OUT))] && p != q && p != "" && q != ""
    && p in s.w.sessions && s.w.sessions[p].streak == pStreak && q in s.w.sessions && s.w.sessions[q].streak == qStreak
    && AnchorOf(s.w.anchors, key) in {"", q}
  }

  /** A dispatch naming a registered session that the anchor allows, with nothing in its way. */
  lemma NamedDispatch(s: Air, from: Caller, task: string, k: nat, q: string) returns (beat: Beat, s': Air)
    requires k !in s.flights && q != "" && q in s.w.sessions && s.w.sessions[q].streak < ITERATION_FAIL_LIMIT
    requires AnchorOf(s.w.anchors, (from.mainId, task)) in {"", q}
    ensures beat.Dispatch? && Beats(s, from, task, beat, s') && s'.w.anchors == s.w.anchors
    ensures s'.flights == s.flights[k := Flight(q, Running)] && s'.w.sessions == Claimed(s.w.sessions, Named(q))
  {
    var streak := s.w.sessions[q].streak;
    var receipt := Accepted(q, if streak > 0 then Continue else Whole(task));
    var sessions := Claimed(s.w.sessions, Named(q));
    beat := Dispatch(k, "", q, WILLING, receipt);
    s' := Air(World(sessions, s.w.anchors), s.flights[k := Flight(q, Running)], s.own + {q});
    assert OnClaim(s.w.sessions, Request("", task, q), WILLING, receipt, sessions, Some(Named(q)));
  }

  /** The task is dispatched on q before its failure on p is on record, and fails there, too. */
  lemma Round(s: Air, from: Caller, task: string, k: nat, p: string, q: string, pStreak: nat, qStreak: nat, n: nat)
    returns (run: seq<(Beat, Air)>)
    requires Due(s, (from.mainId, task), k, p, q, pStreak, qStreak) && qStreak < ITERATION_FAIL_LIMIT
    ensures Flies(s, from, task, run, 2) && Prompt(s, run) && FailedInARow(n, run) == n + 1
    ensures Due(Last(s, run), (from.mainId, task), k + 1, q, p, qStreak, pStreak + 1)
  {
    hide Due, Beats, Flies, Prompt, FailedInARow;
    DueDispatch(s, (from.mainId, task), k, p, q, pStreak, qStreak);
    var beat, s1 := NamedDispatch(s, from, task, k + 1, q);
    var s2, s3, s4 := ThreeBeats(s, s1, from, task, k, p, q, pStreak, qStreak);
    var x, y, z := (Count(k, OUT), s2), (Anchor(k), s3), (Settle(k + 1, 1, OUT), s4);
    NoBeat(s4, from, task, n + 1);
    MoreBeats(s3, from, task, z.0, s4, [], n + 1);
    MoreBeats(s2, from, task, y.0, s3, [z] + [], n + 1);
    MoreBeats(s1, from, task, x.0, s2, [y] + ([z] + []), n);
    MoreBeats(s, from, task, beat, s1, [x] + ([y] + ([z] + [])), n);
    run := [(beat, s1)] + ([x] + ([y] + ([z] + [])));
    assert |run| == 4 && run[3] == z;
  }

  lemma DueDispatch(s: Air, key: (string, string), k: nat, p: string, q: string, pStreak: nat, qStreak: nat)
    requires Due(s, key, k, p, q, pStreak, qStreak)
    ensures q != "" && q in s.w.sessions && s.w.sessions[q].streak == qStreak && AnchorOf(s.w.anchors, key) in {"", q}
    ensures k + 1 !in s.flights && forall j :: j in s.flights ==> s.flights[j].phase != Running
  {
  }

  /** Behind the new dispatch the old failure goes on record, and the new run fails. */
  lemma ThreeBeats(s: Air, s1: Air, from: Caller, task: string, k: nat, p: string, q: string, pStreak: nat,
                   qStreak: nat)
    returns (s2: Air, s3: Air, s4: Air)
    requires Due(s, (from.mainId, task), k, p, q, pStreak, qStreak)
    requires s1.flights == s.flights[k + 1 := Flight(q, Running)] && s1.w.sessions == Claimed(s.w.sessions, Named(q))
    ensures Beats(s1, from, task, Count(k, OUT), s2) && Beats(s2, from, task, Anchor(k), s3)
    ensures Beats(s3, from, task, Settle(k + 1, 1, OUT), s4)
    ensures |s1.flights| == |s2.flights| == 2 && |s3.flights| == |s4.flights| == 1 && OutOfIterations(OUT)
    ensures Due(s4, (from.mainId, task), k + 1, q, p, qStreak, pStreak + 1)
  {
    hide OutOfIterations, Anchored, Claimed, Recorded, Released, Touched;
    OutFails();
    TwoFlights(s1.flights, k, p, q);
    BothStreaks(s.w.sessions, p, q);
    s2 := AfterCount(s1, k, OUT);
    s3 := AfterAnchor(s2, (from.mainId, task), k);
    s4 := AfterSettle(s3, k + 1, 1, OUT);
    AnchoredThere(s2.w.anchors, (from.mainId, task), p);
  }

  lemma OutFails()
    ensures OutOfIterations(OUT)
  {
  }

  lemma TwoFlights(flights: map<nat, Flight>, k: nat, p: string, q: string)
    requires flights == map[k := Flight(p, Settled(OUT))][k + 1 := Flight(q, Running)]
    ensures var counted := flights[k := Flight(p, Counted)];
            var alone := counted - {k};
            var settled := alone[k + 1 := Flight(q, Settled(OUT))];
            && |flights| == |counted| == 2 && |alone| == |settled| == 1
            && alone == map[k + 1 := Flight(q, Running)] && settled == map[k + 1 := Flight(q, Settled(OUT))]
  {
    var counted := flights[k := Flight(p, Counted)];
    var alone := counted - {k};
    assert flights.Keys == counted.Keys == {k, k + 1} && alone.Keys == {k + 1};
    assert alone[k + 1 := Flight(q, Settled(OUT))].Keys == {k + 1};
  }

  lemma BothStreaks(sessions: Sessions, p: string, q: string)
    requires p in sessions && q in sessions && p != q
    ensures var recorded := Recorded(Claimed(sessions, Named(q)), p, OUT);
            var settled := Released(Touched(recorded, q, 1), q);
            && p in settled && settled[p].streak == sessions[p].streak + 1
            && q in settled && settled[q].streak == sessions[q].streak
  {
  }

  lemma AnchoredThere(anchors: Anchors, key: (string, string), id: string)
    ensures AnchorOf(Anchored(anchors, key, id), key) == id
  {
  }

  lemma NoBeat(s: Air, from: Caller, task: string, n: nat)
    ensures Flies(s, from, task, [], 2) && Prompt(s, []) && FailedInARow(n, []) == n
  {
  }

  lemma MoreBeats(s: Air, from: Caller, task: string, beat: Beat, s': Air, rest: seq<(Beat, Air)>, n: nat)
    requires Beats(s, from, task, beat, s') && |s'.flights| <= 2 && Flies(s', from, task, rest, 2) && Prompt(s', rest)
    requires beat.Dispatch? ==> forall k :: k in s.flights ==> s.flights[k].phase != Running
    ensures Flies(s, from, task, [(beat, s')] + rest, 2) && Prompt(s, [(beat, s')] + rest)
    ensures FailedInARow(n, [(beat, s')] + rest) == FailedInARow(After(n, beat), rest)
  {
    hide Beats;
    assert ([(beat, s')] + rest)[0] == (beat, s') && ([(beat, s')] + rest)[1..] == rest;
  }

  /** From one settled failure on, in turn on both sessions, until both are at the limit. */
  lemma {:induction false} InTurn(s: Air, from: Caller, task: string, k: nat, p: string, q: string, pStreak: nat,
                                  qStreak: nat, n: nat)
    returns (run: seq<(Beat, Air)>)
    requires Due(s, (from.mainId, task), k, p, q, pStreak, qStreak)
    requires pStreak < ITERATION_FAIL_LIMIT && pStreak <= qStreak <= ITERATION_FAIL_LIMIT && qStreak <= pStreak + 1
    ensures Flies(s, from, task, run, 2) && Prompt(s, run)
    ensures FailedInARow(n, run) == n + 2 * ITERATION_FAIL_LIMIT - pStreak - qStreak
    decreases 2 * ITERATION_FAIL_LIMIT - pStreak - qStreak
  {
    if qStreak < ITERATION_FAIL_LIMIT {
      var front := Round(s, from, task, k, p, q, pStreak, qStreak, n);
      hide Due, Flies, Prompt, FailedInARow;
      var rest := InTurn(Last(s, front), from, task, k + 1, q, p, qStreak, pStreak + 1, n + 1);
      Appended(s, from, task, front, rest, n);
      run := front + rest;
    } else {
      var last := AfterCount(s, k, OUT);
      assert last.flights.Keys == {k};
      NoBeat(last, from, task, n + 1);
      MoreBeats(s, from, task, Count(k, OUT), last, [], n);
      run := [(Count(k, OUT), last)] + [];
    }
  }

  lemma FirstFails(s: Air, s1: Air, from: Caller, task: string, p: string, q: string) returns (s2: Air)
    requires s1.flights == s.flights[0 := Flight(p, Running)] && s1.w.sessions == Claimed(s.w.sessions, Named(p))
    requires s.flights == map[] && p != q && p in s.w.sessions && q in s.w.sessions && "" !in s.w.sessions
    requires s.w.sessions[p].streak == s.w.sessions[q].streak == 0 && AnchorOf(s1.w.anchors, (from.mainId, task)) == ""
    ensures Beats(s1, from, task, Settle(0, 1, OUT), s2) && |s1.flights| == |s2.flights| == 1
    ensures Due(s2, (from.mainId, task), 0, p, q, 0, 0)
  {
    s2 := AfterSettle(s1, 0, 1, OUT);
    assert s1.flights == map[0 := Flight(p, Running)] && s2.flights == map[0 := Flight(p, Settled(OUT))];
    assert s1.flights.Keys == s2.flights.Keys == {0};
  }

  /** A task without an anchor, two sessions without failures, and a caller that dispatches it again as soon as it is
      told of a failure, naming the other session: the task runs out of iterations six times in a row. */
  lemma SixInARow(s: Air, from: Caller, task: string, p: string, q: string) returns (run: seq<(Beat, Air)>)
    requires Grounded(s, (from.mainId, task)) && AnchorOf(s.w.anchors, (from.mainId, task)) == ""
    requires p != q && p in s.w.sessions && q in s.w.sessions
    requires s.w.sessions[p].streak == s.w.sessions[q].streak == 0
    ensures Flies(s, from, task, run, 2) && Prompt(s, run)
    ensures FailedInARow(0, run) == 6
  {
    hide Due, Beats, Flies, Prompt, FailedInARow;
    var beat, s1 := NamedDispatch(s, from, task, 0, p);
    var s2 := FirstFails(s, s1, from, task, p, q);
    var rest := InTurn(s2, from, task, 0, p, q, 0, 0, 0);
    MoreBeats(s1, from, task, Settle(0, 1, OUT), s2, rest, 0);
    MoreBeats(s, from, task, beat, s1, [(Settle(0, 1, OUT), s2)] + rest, 0);
    run := [(beat, s1)] + ([(Settle(0, 1, OUT), s2)] + rest);
  }
}
