/** What a dispatch does to the table of sessions, what it asks for, and how a run is judged, told by the fields
    alone. */
module DispatchContents {
  import opened Wrappers
  import opened SubAgents
  import opened CircuitBreaker

  // ---------------------------------------------------------------- listings and endings

  predicate Fits(info: Info, p: Profile) { info.id != "" && info.profile == p }

  lemma {:induction false} LatestFits(infos: seq<Info>, p: Profile)
    ensures LatestOf(infos, p).Some? <==> exists info :: info in infos && Fits(info, p)
    ensures LatestOf(infos, p).Some? ==>
              var latest := LatestOf(infos, p).value;
              && latest in infos && Fits(latest, p)
              && forall info :: info in infos && Fits(info, p) ==> info.lastActivity <= latest.lastActivity
  {
    if infos != [] {
      var init, last := infos[..|infos| - 1], infos[|infos| - 1];
      LatestFits(init, p);
      assert infos == init + [last];
      assert forall info :: info in infos <==> info in init || info == last;
      if LatestOf(infos, p).Some? {
        assert LatestOf(infos, p).value in infos;
      }
    }
  }

  /** The latest of a listing is listed with the profile, none of the profile is later, and none in front of it is as
      late; there is one exactly if any is listed. */
  lemma {:induction false} LatestIs(infos: seq<Info>, p: Profile)
    ensures LatestOf(infos, p).Some? <==> exists info :: info in infos && Fits(info, p)
    ensures LatestOf(infos, p).Some? ==>
              var latest := LatestOf(infos, p).value;
              && Fits(latest, p)
              && (forall info :: info in infos && Fits(info, p) ==> info.lastActivity <= latest.lastActivity)
              && exists k :: FirstOf(infos, k, latest, p)
  {
    LatestFits(infos, p);
    if LatestOf(infos, p).Some? {
      var k := LatestAt(infos, p);
    }
  }

  /** It stands there, and none of the profile in front of it is as late. */
  predicate FirstOf(infos: seq<Info>, k: int, latest: Info, p: Profile) {
    && 0 <= k < |infos| && infos[k] == latest
    && forall j :: 0 <= j < k && Fits(infos[j], p) ==> infos[j].lastActivity < latest.lastActivity
  }

  lemma {:induction false} LatestAt(infos: seq<Info>, p: Profile) returns (k: nat)
    requires LatestOf(infos, p).Some?
    ensures FirstOf(infos, k, LatestOf(infos, p).value, p)
  {
    var init, last := infos[..|infos| - 1], infos[|infos| - 1];
    var latest := LatestOf(infos, p).value;
    LatestFits(init, p);
    assert forall j :: 0 <= j < |init| ==> infos[j] == init[j] && init[j] in init;
    if LatestOf(init, p) == Some(latest) {
      k := LatestAt(init, p);
    } else {
      k := |init|;
    }
  }

  /** A run is settled as failed if it came back with an error, or without an answer for a reason other than a question
      to the user; it counts as out of iterations if that is the reason it was ended for. */
  lemma EndingExact(e: Ending)
    ensures FailureReason(e) == "" <==> e.error == "" && (e.answer != "" || e.termination in {"", "ask_user_pending"})
    ensures FailureReason(e) != "" ==> FailureReason(e) == if e.error != "" then e.error else e.termination
    ensures OutOfIterations(e) <==> e.termination == "max_iterations" && (e.error != "" || e.answer == "")
  {
  }

  // ---------------------------------------------------------------- the table

  /** The same session, but for its claim. */
  predicate SameButClaim(s: Session, t: Session) {
    s.profile == t.profile && s.lastUsed == t.lastUsed && s.streak == t.streak
  }

  /** A dispatch touches one session at most: an accepted one is claimed, a tripped one is not; any other session, and
      every other field, stays as it was. A session that is new to the table has neither been used nor failed. */
  lemma DispatchTable(sessions: Sessions, anchors: Anchors, req: Request, from: Caller, o: Outside, receipt: Receipt,
                      after: Sessions)
    requires Submitted(sessions, anchors, req, from, o, receipt, after)
    ensures forall id :: id in sessions ==> id in after && SameButClaim(sessions[id], after[id])
    ensures receipt.Accepted? ==>
              && receipt.id in after && after[receipt.id].spawning && after.Keys == sessions.Keys + {receipt.id}
              && (forall id :: id in sessions && id != receipt.id ==> after[id] == sessions[id])
              && (receipt.id !in sessions ==> after[receipt.id].lastUsed == 0 && after[receipt.id].streak == 0)
    ensures receipt.Tripped? ==>
              forall id :: id in sessions && after[id] != sessions[id] ==> !after[id].spawning
    ensures receipt.UnknownAgent? || receipt.NoSession? || receipt.Detour? || receipt.NotLocated? ==> after == sessions
  {
    if o.agentExists && o.inSession && !IsDetour(anchors, from.mainId, req) {
      var c: Option<Claim> :|
        && Locates(sessions, Profile(req.agent, from.dir, from.agent), Aimed(anchors, from.mainId, req), o.store, c)
        && OnClaim(sessions, req, o, receipt, after, c);
      if c.Some? {
        LocatedKeys(sessions, Profile(req.agent, from.dir, from.agent), Aimed(anchors, from.mainId, req), o.store, c);
      }
      hide Locates;
      ClaimTable(sessions, req, o, receipt, after, c);
    }
  }

  lemma LocatedKeys(sessions: Sessions, p: Profile, named: string, store: Store, c: Option<Claim>)
    requires Locates(sessions, p, named, store, c) && c.Some?
    ensures c.value.Reused? || c.value.Named? ==> c.value.id in sessions
  {
  }

  lemma ClaimTable(sessions: Sessions, req: Request, o: Outside, receipt: Receipt, after: Sessions, c: Option<Claim>)
    requires OnClaim(sessions, req, o, receipt, after, c) && o.agentExists && o.inSession
    requires c.Some? && (c.value.Reused? || c.value.Named?) ==> c.value.id in sessions
    ensures forall id :: id in sessions ==> id in after && SameButClaim(sessions[id], after[id])
    ensures receipt.Accepted? ==>
              && receipt.id in after && after[receipt.id].spawning && after.Keys == sessions.Keys + {receipt.id}
              && (forall id :: id in sessions && id != receipt.id ==> after[id] == sessions[id])
              && (receipt.id !in sessions ==> after[receipt.id].lastUsed == 0 && after[receipt.id].streak == 0)
    ensures receipt.Tripped? ==>
              forall id :: id in sessions && after[id] != sessions[id] ==> !after[id].spawning
    ensures receipt.NotLocated? ==> after == sessions
  {
    if c.Some? && c.value.id in sessions {
      assert sessions.Keys + {c.value.id} == sessions.Keys;
    }
  }

  /** The receipt: who is refused for what, and what an accepted run is asked: to go on, if its session has failed for
      want of iterations, else the whole task. */
  lemma ReceiptExact(sessions: Sessions, anchors: Anchors, req: Request, from: Caller, o: Outside, receipt: Receipt,
                     after: Sessions)
    requires Submitted(sessions, anchors, req, from, o, receipt, after)
    ensures var anchor := AnchorOf(anchors, (from.mainId, req.task));
            && (receipt.UnknownAgent? <==> !o.agentExists)
            && (receipt.NoSession? <==> o.agentExists && !o.inSession)
            && (receipt.Detour? <==> o.agentExists && o.inSession && anchor != "" && req.sessionId !in {"", anchor})
            && (receipt.Detour? ==> receipt.anchor == anchor)
            && (receipt.Accepted? ==>
                  receipt.ask == if StreakIn(sessions, receipt.id) > 0 then Continue else Whole(req.task))
            && (receipt.Tripped? ==> receipt.streak >= 3)
            && (receipt.NotRegistered? ==> !o.registers) && (receipt.Panicked? ==> o.registers && !o.emits)
  {
    hide Locates;
  }

  // ---------------------------------------------------------------- which session is taken

  /** An unnamed dispatch of a task without an anchor goes on with an idle session of its profile, and of several with
      one that was used last, if there is any. */
  lemma IdleIsReused(sessions: Sessions, anchors: Anchors, req: Request, from: Caller, o: Outside, receipt: Receipt,
                     after: Sessions)
    requires Submitted(sessions, anchors, req, from, o, receipt, after) && receipt.Accepted?
    requires req.sessionId == "" && AnchorOf(anchors, (from.mainId, req.task)) == ""
    ensures var p := Profile(req.agent, from.dir, from.agent);
            SomeWaits(sessions, p) ==>
              && receipt.id in sessions && Waits(sessions[receipt.id], p)
              && forall id :: id in sessions && Waits(sessions[id], p) ==>
                   sessions[id].lastUsed <= sessions[receipt.id].lastUsed
  {
    var p := Profile(req.agent, from.dir, from.agent);
    if SomeWaits(sessions, p) {
      var id := SomeMostRecent(sessions, p);
    }
  }

  /** Of this profile, used before, and not claimed. */
  predicate Waits(s: Session, p: Profile) { s.profile == p && s.lastUsed > 0 && !s.spawning }

  predicate SomeWaits(sessions: Sessions, p: Profile) { exists id :: id in sessions && Waits(sessions[id], p) }

  lemma SomeMostRecent(sessions: Sessions, p: Profile) returns (id: string)
    requires SomeWaits(sessions, p)
    ensures MostRecentIdle(sessions, p, id)
  {
    var idle := set id | id in sessions && Waits(sessions[id], p);
    var some :| some in sessions && Waits(sessions[some], p);
    assert some in idle;
    id := Latest(sessions, idle);
    assert id in sessions && Idle(sessions[id], p);
    forall other | other in sessions && Idle(sessions[other], p)
      ensures sessions[other].lastUsed <= sessions[id].lastUsed
    {
      assert Waits(sessions[other], p) && other in idle;
    }
  }

  lemma {:induction false} Latest(sessions: Sessions, ids: set<string>) returns (id: string)
    requires ids != {} && forall other :: other in ids ==> other in sessions
    ensures id in ids && forall other :: other in ids ==> sessions[other].lastUsed <= sessions[id].lastUsed
    decreases |ids|
  {
    var one :| one in ids;
    var rest := ids - {one};
    id := one;
    if rest != {} {
      var later := Latest(sessions, rest);
      if sessions[later].lastUsed > sessions[one].lastUsed {
        id := later;
      }
    }
    assert forall other :: other in ids ==> other == one || other in rest;
  }

  /** A dispatch that names a session, or whose task has an anchor, is accepted on that one or not at all; if it is not
      in the table it is loaded from the store, with the profile it has there. */
  lemma NamedIsTaken(sessions: Sessions, anchors: Anchors, req: Request, from: Caller, o: Outside, receipt: Receipt,
                     after: Sessions)
    requires Submitted(sessions, anchors, req, from, o, receipt, after) && receipt.Accepted?
    requires req.sessionId != "" || AnchorOf(anchors, (from.mainId, req.task)) != ""
    ensures var anchor := AnchorOf(anchors, (from.mainId, req.task));
            && receipt.id == (if anchor != "" then anchor else req.sessionId)
            && (receipt.id !in sessions ==>
                  receipt.id in o.store.loads && after[receipt.id].profile == o.store.loads[receipt.id])
  {
  }

  /** The store lists this as the first of the latest sessions of the profile, it is not in the table, and it loads. */
  predicate Stored(sessions: Sessions, p: Profile, store: Store, id: string) {
    && store.listing.Some? && id !in sessions && id in store.loads
    && exists k :: 0 <= k < |store.listing.value| && LatestListed(store.listing.value, k, p)
                   && store.listing.value[k].id == id
  }

  predicate LatestListed(infos: seq<Info>, k: int, p: Profile) {
    && 0 <= k < |infos| && Fits(infos[k], p)
    && (forall j :: 0 <= j < |infos| && Fits(infos[j], p) ==> infos[j].lastActivity <= infos[k].lastActivity)
    && forall j :: 0 <= j < k && Fits(infos[j], p) ==> infos[j].lastActivity < infos[k].lastActivity
  }

  lemma StoredIsRecoverable(sessions: Sessions, p: Profile, store: Store, id: string)
    ensures Stored(sessions, p, store, id) <==> Recoverable(sessions, p, store) == Some(id)
  {
    if store.listing.Some? {
      var infos := store.listing.value;
      LatestIs(infos, p);
      LatestFits(infos, p);
      if LatestOf(infos, p).Some? {
        var k := LatestAt(infos, p);
        assert LatestListed(infos, k, p);
        forall j | LatestListed(infos, j, p)
          ensures infos[j].id == LatestOf(infos, p).value.id
        {
          assert infos[k].lastActivity == infos[j].lastActivity && k == j;
        }
      } else {
        assert forall j :: 0 <= j < |infos| ==> infos[j] in infos;
      }
    }
  }

  /** A session that is new to the table is taken by an unnamed dispatch only if no idle one of its profile is there:
      the one that the store lists as its latest, if that is not in the table and loads, and else a created one. */
  lemma NewOnlyIfNone(sessions: Sessions, anchors: Anchors, req: Request, from: Caller, o: Outside, receipt: Receipt,
                      after: Sessions)
    requires Submitted(sessions, anchors, req, from, o, receipt, after) && receipt.Accepted?
    requires req.sessionId == "" && AnchorOf(anchors, (from.mainId, req.task)) == "" && receipt.id !in sessions
    ensures var p := Profile(req.agent, from.dir, from.agent);
            && (forall id :: id in sessions ==> !Waits(sessions[id], p))
            && receipt.id in o.store.loads && after[receipt.id].profile == o.store.loads[receipt.id]
            && (forall id :: Stored(sessions, p, o.store, id) ==> receipt.id == id)
            && ((forall id :: !Stored(sessions, p, o.store, id)) ==> o.store.created == Some(receipt.id))
  {
    hide Stored, LatestOf;
    var p := Profile(req.agent, from.dir, from.agent);
    var c: Option<Claim> :| Locates(sessions, p, "", o.store, c) && OnClaim(sessions, req, o, receipt, after, c);
    if SomeWaits(sessions, p) {
      var id := SomeMostRecent(sessions, p);
      assert false;
    }
    forall id
      ensures Stored(sessions, p, o.store, id) <==> Recoverable(sessions, p, o.store) == Some(id)
    {
      StoredIsRecoverable(sessions, p, o.store, id);
    }
  }

  /** A session that has just been run on is idle, and, if nobody has a later time, it is the one an unnamed dispatch of
      its profile takes next. */
  lemma RunIsReused(sessions: Sessions, id: string, now: nat, e: Ending)
    requires id in sessions && now > 0
    requires forall other :: other in sessions ==> sessions[other].lastUsed < now
    ensures var after := AfterRun(sessions, id, now, e);
            && after.Keys == sessions.Keys && Waits(after[id], sessions[id].profile)
            && forall other :: MostRecentIdle(after, sessions[id].profile, other) <==> other == id
  {
  }
}
