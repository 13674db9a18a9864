/** The table of sub-agent sessions: how a dispatch finds, restores or creates the session it runs on, how it
    claims it against parallel dispatches, and how a task that keeps running out of iterations is stopped. */
module SubAgents {
  import opened Wrappers

  /** Consecutive runs out of iterations after which a session takes no more dispatches. */
  const ITERATION_FAIL_LIMIT: nat := 3
  /** Entries of the anchor table at which it is emptied. */
  const ANCHOR_LIMIT: nat := 128

  /** What dispatches must agree in to continue one another's session. */
  datatype Profile = Profile(agent: string, dir: string, sponsor: string)

  /** A registered session; `lastUsed` is 0 until a run has touched it. */
  datatype Session = Session(profile: Profile, lastUsed: nat, spawning: bool, streak: nat)

  type Sessions = map<string, Session>

  /** What is kept for failed tasks: main session and task text (a digest in the program) to failed session. */
  type Anchors = map<(string, string), string>

  /** A session the store knows of, as its listing shows it. */
  datatype Info = Info(id: string, profile: Profile, lastActivity: int)

  /** The store: its listing (or none), the sessions that load, and the id `Create` comes back with (if any). */
  datatype Store = Store(listing: Option<seq<Info>>, loads: map<string, Profile>, created: Option<string>)

  /** How a dispatch came by its session. */
  datatype Claim =
    | Reused(id: string)
    | Recovered(id: string, profile: Profile)
    | Created(id: string, profile: Profile)
    | Named(id: string)
    | Restored(id: string, profile: Profile)

  predicate Idle(s: Session, p: Profile) { s.profile == p && s.lastUsed > 0 && !s.spawning }

  /** An idle session of this profile, used no earlier than any other. */
  predicate MostRecentIdle(sessions: Sessions, p: Profile, id: string) {
    id in sessions && Idle(sessions[id], p) &&
    forall other :: other in sessions && Idle(sessions[other], p) ==> sessions[other].lastUsed <= sessions[id].lastUsed
  }

  /** The first of the latest sessions of this profile in a listing. */
  function LatestOf(infos: seq<Info>, p: Profile): Option<Info> {
    if infos == [] then None
    else
      var init, last := LatestOf(infos[..|infos| - 1], p), infos[|infos| - 1];
      if last.id == "" || last.profile != p then init
      else if init.None? || last.lastActivity > init.value.lastActivity then Some(last)
      else init
  }

  /** Claims one table allows, each within one hold of the table's lock. */
  predicate CanClaim(sessions: Sessions, p: Profile, c: Claim) {
    match c
    case Reused(id) => MostRecentIdle(sessions, p, id)
    case Named(id) => id in sessions
    case _ => c.id !in sessions
  }

  function Claimed(sessions: Sessions, c: Claim): Sessions {
    if c.id in sessions then sessions[c.id := sessions[c.id].(spawning := true)]
    else if c.Reused? || c.Named? then sessions
    else sessions[c.id := Session(c.profile, 0, true, 0)]
  }

  function Released(sessions: Sessions, id: string): Sessions {
    if id in sessions then sessions[id := sessions[id].(spawning := false)] else sessions
  }

  function Touched(sessions: Sessions, id: string, now: nat): Sessions {
    if id in sessions then sessions[id := sessions[id].(lastUsed := now)] else sessions
  }

  /** Which claim `getOrCreate` makes, given what is in the table and in the store. */
  ghost predicate Locates(sessions: Sessions, p: Profile, named: string, store: Store, c: Option<Claim>) {
    if named != "" then
      if named in sessions then c == Some(Named(named))
      else if named in store.loads then c == Some(Restored(named, store.loads[named]))
      else c == None
    else if exists id :: MostRecentIdle(sessions, p, id) then
      c.Some? && c.value.Reused? && MostRecentIdle(sessions, p, c.value.id)
    else if Recoverable(sessions, p, store).Some? then
      c == Some(Recovered(Recoverable(sessions, p, store).value, store.loads[Recoverable(sessions, p, store).value]))
    else if store.created.Some? && store.created.value in store.loads then
      c == Some(Created(store.created.value, store.loads[store.created.value]))
    else c == None
  }

  /** The stored session to go on with: the latest of the profile, unless it is in the table already. */
  function Recoverable(sessions: Sessions, p: Profile, store: Store): (id: Option<string>)
    ensures id.Some? ==> id.value !in sessions && id.value in store.loads
  {
    if store.listing.None? then None
    else
      var latest := LatestOf(store.listing.value, p);
      if latest.Some? && latest.value.id !in sessions && latest.value.id in store.loads then Some(latest.value.id)
      else None
  }

  // ---------------------------------------------------------------- how a run ends

  /** What an execution came back with. */
  datatype Ending = Ending(error: string, answer: string, termination: string)

  /** The reason a task is settled as failed; empty if it is settled as completed. */
  function FailureReason(e: Ending): string {
    if e.error != "" then e.error
    else if e.answer == "" && e.termination != "" && e.termination != "ask_user_pending" then e.termination
    else ""
  }

  /** Failed for want of iterations. */
  predicate OutOfIterations(e: Ending) { FailureReason(e) != "" && e.termination == "max_iterations" }

  function Recorded(sessions: Sessions, id: string, e: Ending): Sessions {
    if id !in sessions then sessions
    else sessions[id := sessions[id].(streak := if OutOfIterations(e) then sessions[id].streak + 1 else 0)]
  }

  function Anchored(anchors: Anchors, key: (string, string), id: string): Anchors {
    (if |anchors| >= ANCHOR_LIMIT then map[] else anchors)[key := id]
  }

  // ---------------------------------------------------------------- dispatching

  datatype Request = Request(agent: string, task: string, sessionId: string)

  /** The session a dispatch is made from. */
  datatype Caller = Caller(mainId: string, dir: string, agent: string)

  /** What lies outside the table during one dispatch: does the agent exist, is there a calling session, the
      store, does the control plane register the task, does the listener for the event go through. */
  datatype Outside = Outside(agentExists: bool, inSession: bool, store: Store, registers: bool, emits: bool)

  datatype AskText = Whole(task: string) | Continue

  datatype Receipt =
    | UnknownAgent
    | NoSession
    | Detour(anchor: string)
    | NotLocated
    | Tripped(streak: nat)
    | NotRegistered
    | Panicked
    | Accepted(id: string, ask: AskText)

  function AnchorOf(anchors: Anchors, key: (string, string)): string {
    if key in anchors then anchors[key] else ""
  }

  /** The session a dispatch is bound for: the anchor of a failed task overrules an empty name. */
  function Aimed(anchors: Anchors, main: string, req: Request): string {
    var anchor := AnchorOf(anchors, (main, req.task));
    if anchor != "" then anchor else req.sessionId
  }

  predicate IsDetour(anchors: Anchors, main: string, req: Request) {
    var anchor := AnchorOf(anchors, (main, req.task));
    anchor != "" && req.sessionId != "" && req.sessionId != anchor
  }

  /** One dispatch, from the table before it to the receipt and the table after it. */
  ghost predicate Submitted(sessions: Sessions, anchors: Anchors, req: Request, from: Caller, o: Outside,
                      receipt: Receipt, after: Sessions)
  {
    if !o.agentExists then receipt == UnknownAgent && after == sessions
    else if !o.inSession then receipt == NoSession && after == sessions
    else if IsDetour(anchors, from.mainId, req) then
      receipt == Detour(AnchorOf(anchors, (from.mainId, req.task))) && after == sessions
    else
      exists c: Option<Claim> ::
        && Locates(sessions, Profile(req.agent, from.dir, from.agent), Aimed(anchors, from.mainId, req), o.store, c)
        && OnClaim(sessions, req, o, receipt, after, c)
  }

  /** The rest of a dispatch, once its session is claimed. */
  predicate OnClaim(sessions: Sessions, req: Request, o: Outside, receipt: Receipt, after: Sessions, c: Option<Claim>) {
    if c.None? then receipt == NotLocated && after == sessions
    else
      var claimed := Claimed(sessions, c.value);
      var streak := if c.value.id in claimed then claimed[c.value.id].streak else 0;
      if streak >= ITERATION_FAIL_LIMIT then receipt == Tripped(streak) && after == Released(claimed, c.value.id)
      else after == claimed &&
           if !o.registers then receipt == NotRegistered
           else if !o.emits then receipt == Panicked
           else receipt == Accepted(c.value.id, if streak > 0 then Continue else Whole(req.task))
  }

  class SubAgentManager {
    var sessions: Sessions
    var anchors: Anchors

    constructor ()
      ensures sessions == map[] && anchors == map[]
    {
      sessions, anchors := map[], map[];
    }

    /** The most recently used idle session of the profile, claimed in the same breath. */
    method FindIdleSession(p: Profile) returns (best: Option<string>)
      modifies this`sessions
      ensures best.None? ==> sessions == old(sessions) && forall id :: id in sessions ==> !Idle(sessions[id], p)
      ensures best.Some? ==> MostRecentIdle(old(sessions), p, best.value) &&
                             sessions == Claimed(old(sessions), Reused(best.value))
    {
      best := None;
      var rest := sessions.Keys;
      while rest != {}
        invariant rest <= sessions.Keys
        invariant best.None? ==> forall id :: id in sessions && id !in rest ==> !Idle(sessions[id], p)
        invariant best.Some? ==> best.value in sessions && Idle(sessions[best.value], p)
        invariant best.Some? ==> forall id :: id in sessions && id !in rest && Idle(sessions[id], p) ==>
                    sessions[id].lastUsed <= sessions[best.value].lastUsed
        decreases |rest|
      {
        var id :| id in rest;
        rest := rest - {id};
        var s := sessions[id];
        if s.profile != p || s.lastUsed == 0 || s.spawning {
          continue;
        }
        if best.None? || s.lastUsed > sessions[best.value].lastUsed {
          best := Some(id);
        }
      }
      if best.Some? {
        sessions := sessions[best.value := sessions[best.value].(spawning := true)];
      }
    }

    method LatestStored(infos: seq<Info>, p: Profile) returns (latest: Option<Info>)
      ensures latest == LatestOf(infos, p)
    {
      latest := None;
      for i := 0 to |infos|
        invariant latest == LatestOf(infos[..i], p)
      {
        assert infos[..i + 1][..i] == infos[..i];
        var info := infos[i];
        if info.id == "" || info.profile != p {
          continue;
        }
        if latest.None? || info.lastActivity > latest.value.lastActivity {
          latest := Some(info);
        }
      }
      assert infos[..|infos|] == infos;
    }

    method RecoverLatestSession(p: Profile, store: Store) returns (id: Option<string>)
      modifies this`sessions
      ensures id == Recoverable(old(sessions), p, store)
      ensures sessions == if id.Some? then Claimed(old(sessions), Recovered(id.value, store.loads[id.value]))
                          else old(sessions)
    {
      id := None;
      if store.listing.None? {
        return;
      }
      var latest := LatestStored(store.listing.value, p);
      if latest.None? || latest.value.id in sessions || latest.value.id !in store.loads {
        return;
      }
      id := Some(latest.value.id);
      sessions := sessions[id.value := Session(store.loads[id.value], 0, true, 0)];
    }

    /** The session for a dispatch, claimed. A created id is new to the table. */
    method GetOrCreate(p: Profile, named: string, store: Store) returns (c: Option<Claim>)
      requires store.created.Some? ==> store.created.value !in sessions
      modifies this`sessions
      ensures Locates(old(sessions), p, named, store, c)
      ensures c.Some? ==> CanClaim(old(sessions), p, c.value) && sessions == Claimed(old(sessions), c.value)
      ensures c.None? ==> sessions == old(sessions)
    {
      c := None;
      if named != "" {
        if named in sessions {
          sessions := sessions[named := sessions[named].(spawning := true)];
          return Some(Named(named));
        }
        if named !in store.loads {
          return;
        }
        c := Some(Restored(named, store.loads[named]));
      } else {
        var idle := FindIdleSession(p);
        if idle.Some? {
          return Some(Reused(idle.value));
        }
        var recovered := RecoverLatestSession(p, store);
        if recovered.Some? {
          return Some(Recovered(recovered.value, store.loads[recovered.value]));
        }
        if store.created.None? || store.created.value !in store.loads {
          return;
        }
        c := Some(Created(store.created.value, store.loads[store.created.value]));
      }
      sessions := sessions[c.value.id := Session(c.value.profile, 0, true, 0)];
    }

    method TouchSession(id: string, now: nat)
      modifies this`sessions
      ensures sessions == Touched(old(sessions), id, now)
    {
      if id in sessions {
        sessions := sessions[id := sessions[id].(lastUsed := now)];
      }
    }

    method ReleaseSpawn(id: string)
      modifies this`sessions
      ensures sessions == Released(old(sessions), id)
    {
      if id in sessions {
        sessions := sessions[id := sessions[id].(spawning := false)];
      }
    }

    method RecordIterationOutcome(id: string, termination: string, failure: string)
      modifies this`sessions
      ensures forall e: Ending :: e.termination == termination && FailureReason(e) == failure ==>
                sessions == Recorded(old(sessions), id, e)
    {
      if id !in sessions {
        return;
      }
      var streak := sessions[id].streak;
      if failure == "" {
        streak := 0;
      } else if termination == "max_iterations" {
        streak := streak + 1;
      } else {
        streak := 0;
      }
      sessions := sessions[id := sessions[id].(streak := streak)];
    }

    method RecordFailedTaskAnchor(main: string, task: string, id: string)
      modifies this`anchors
      ensures anchors == Anchored(old(anchors), (main, task), id)
    {
      if |anchors| >= ANCHOR_LIMIT {
        anchors := map[];
      }
      anchors := anchors[(main, task) := id];
    }

    method Submit(req: Request, from: Caller, o: Outside) returns (receipt: Receipt)
      requires o.store.created.Some? ==> o.store.created.value !in sessions
      modifies this`sessions
      ensures Submitted(old(sessions), anchors, req, from, o, receipt, sessions)
    {
      if !o.agentExists {
        return UnknownAgent;
      }
      if !o.inSession {
        return NoSession;
      }
      var sessionId := req.sessionId;
      var key := (from.mainId, req.task);
      var anchor := if key in anchors then anchors[key] else "";
      if anchor != "" {
        if sessionId != "" && sessionId != anchor {
          return Detour(anchor);
        }
        sessionId := anchor;
      }
      var c := GetOrCreate(Profile(req.agent, from.dir, from.agent), sessionId, o.store);
      if c.None? {
        assert OnClaim(old(sessions), req, o, NotLocated, sessions, c);
        return NotLocated;
      }
      var id := c.value.id;
      var streak := sessions[id].streak;
      if streak >= ITERATION_FAIL_LIMIT {
        ReleaseSpawn(id);
        receipt := Tripped(streak);
      } else if !o.registers {
        receipt := NotRegistered;
      } else if !o.emits {
        receipt := Panicked;
      } else {
        receipt := Accepted(id, if streak > 0 then Continue else Whole(req.task));
      }
      assert OnClaim(old(sessions), req, o, receipt, sessions, c);
    }

    /** What a finished task leaves in the tables. */
    method SettleOutcome(from: Caller, task: string, id: string, e: Ending) returns (failure: string)
      modifies this`sessions, this`anchors
      ensures failure == FailureReason(e)
      ensures sessions == Recorded(old(sessions), id, e)
      ensures anchors == if OutOfIterations(e) then Anchored(old(anchors), (from.mainId, task), id) else old(anchors)
    {
      failure := "";
      if e.error != "" {
        failure := e.error;
      } else if e.answer == "" && e.termination != "" && e.termination != "ask_user_pending" {
        failure := e.termination;
      }
      RecordIterationOutcome(id, e.termination, failure);
      if e.termination == "max_iterations" && failure != "" {
        RecordFailedTaskAnchor(from.mainId, task, id);
      }
    }
  }
}
