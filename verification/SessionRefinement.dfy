/** Memory refines the store: exactly which operations keep the two in step, over every run. */
module SessionRefinement {
  import opened Text
  import opened Messages
  import opened SessionLog

  // ---------------------------------------------------------------- deletion by timestamp is a filter

  function Stamps(msgs: seq<Message>): set<int> { set m | m in msgs :: m.timestamp }

  function Others(log: seq<Message>, stamps: set<int>): seq<Message> {
    if log == [] then []
    else if log[0].timestamp in stamps then Others(log[1..], stamps)
    else [log[0]] + Others(log[1..], stamps)
  }

  /** No message of `log` shares a timestamp with `msgs`. */
  predicate Apart(log: seq<Message>, msgs: seq<Message>) {
    forall m :: m in log ==> m.timestamp !in Stamps(msgs)
  }

  lemma {:induction false} WithoutOthers(log: seq<Message>, stamps: set<int>, t: int)
    ensures Without(Others(log, stamps), t) == Others(log, stamps + {t})
  {
    if log != [] {
      WithoutOthers(log[1..], stamps, t);
      if log[0].timestamp !in stamps {
        var rest := Others(log[1..], stamps);
        assert ([log[0]] + rest)[1..] == rest;
      }
    }
  }

  lemma {:induction false} OthersOfNone(log: seq<Message>)
    ensures Others(log, {}) == log
  {
    if log != [] {
      OthersOfNone(log[1..]);
    }
  }

  lemma {:induction false} WithoutEachFilters(log: seq<Message>, gone: seq<Message>)
    ensures WithoutEach(log, gone) == Others(log, Stamps(gone))
  {
    if gone == [] {
      OthersOfNone(log);
      assert Stamps(gone) == {};
    } else {
      var init, last := gone[..|gone| - 1], gone[|gone| - 1];
      WithoutEachFilters(log, init);
      WithoutOthers(log, Stamps(init), last.timestamp);
      assert gone == init + [last];
      assert Stamps(gone) == Stamps(init) + {last.timestamp};
    }
  }

  lemma {:induction false} OthersAppend(a: seq<Message>, b: seq<Message>, stamps: set<int>)
    ensures Others(a + b, stamps) == Others(a, stamps) + Others(b, stamps)
  {
    if a == [] {
      assert a + b == b;
    } else {
      OthersAppend(a[1..], b, stamps);
      assert (a + b)[0] == a[0] && (a + b)[1..] == a[1..] + b;
      var left, right := Others(a[1..], stamps), Others(b, stamps);
      assert [a[0]] + (left + right) == [a[0]] + left + right;
    }
  }

  lemma {:induction false} OthersShrinks(log: seq<Message>, stamps: set<int>)
    ensures |Others(log, stamps)| <= |log|
    ensures |Others(log, stamps)| == |log| <==> forall m :: m in log ==> m.timestamp !in stamps
    ensures (forall m :: m in log ==> m.timestamp !in stamps) ==> Others(log, stamps) == log
    ensures (forall m :: m in log ==> m.timestamp in stamps) ==> Others(log, stamps) == []
  {
    if log != [] {
      OthersShrinks(log[1..], stamps);
      assert log == [log[0]] + log[1..];
    }
  }

  /** Deleting a round's timestamps from the stored history takes out the round and nothing else
      exactly when no other message carries one of them. */
  lemma DeletionIsExact(pre: seq<Message>, round: seq<Message>, post: seq<Message>)
    ensures WithoutEach(pre + round + post, round) == pre + post <==> Apart(pre, round) && Apart(post, round)
  {
    hide Others, WithoutEach;
    var t := Stamps(round);
    WithoutEachFilters(pre + round + post, round);
    OthersAppend(pre + round, post, t);
    OthersAppend(pre, round, t);
    OthersShrinks(pre, t);
    OthersShrinks(round, t);
    OthersShrinks(post, t);
    var left, right := Others(pre, t), Others(post, t);
    assert WithoutEach(pre + round + post, round) == left + right by {
      assert left + [] == left;
    }
    assert left + right == pre + post ==> |left| == |pre| && |right| == |post|;
  }

  /** Stopping part-way leaves the store short. */
  lemma PartialDeletionShows(log: seq<Message>, gone: seq<Message>)
    requires gone != [] && gone[0] in log
    ensures WithoutEach(log, gone) != log
  {
    WithoutEachFilters(log, gone);
    OthersShrinks(log, Stamps(gone));
    assert gone[0].timestamp in Stamps(gone);
  }

  // ---------------------------------------------------------------- rounds

  /** What DeleteRound takes out: the last user message with this timestamp, and what follows it up to the next user
      message. */
  lemma RoundShape(w: seq<Message>, timestamp: int)
    requires Round(w, timestamp).Some?
    ensures var (c, e) := Round(w, timestamp).value;
            && w[c].role == User && w[c].timestamp == timestamp
            && (forall k :: c < k < |w| ==> !(w[k].role == User && w[k].timestamp == timestamp))
            && (forall k :: c < k < e ==> w[k].role != User)
            && (e < |w| ==> w[e].role == User)
  {
    UserAtFound(w, timestamp);
  }

  /** A round can go without breaking the pairing of what stays. */
  lemma DeleteRoundKeepsPairing(w: seq<Message>, timestamp: int)
    requires WellPaired(w) && Round(w, timestamp).Some?
    ensures var (c, e) := Round(w, timestamp).value; WellPaired(w[..c] + w[e..])
  {
    RoundShape(w, timestamp);
    var (c, e) := Round(w, timestamp).value;
    assert w == w[..c] + w[c..] && w == w[..e] + w[e..];
    WellPairedSplit(w[..c], w[c..]);
    WellPairedSplit(w[..e], w[e..]);
    WellPairedAppend(w[..c], w[e..]);
  }

  // ---------------------------------------------------------------- staying in step

  /** The condition under which an operation on a synced session leaves it synced. */
  predicate KeepsStep(s: State, op: Op)
    requires s.InBounds()
  {
    match op
    case AppendOp(msgs, accepts) => accepts == 0 || |Kept(msgs)| <= accepts
    case DeleteRoundOp(timestamp, accepts) =>
      (match Round(s.Window(), timestamp)
       case None => true
       case Some((c, e)) =>
         var round := s.Window()[c..e];
         accepts == 0 || (|round| <= accepts && Apart(s.messages[..s.cursor + c], round)
                                             && Apart(s.messages[s.cursor + e..], round)))
    case TruncateOp(keep, accepts) => keep < 0 || keep >= |s.messages| || (accepts > 0 && keep >= s.cursor)
    case ResetOp(accepts) => accepts != 1 || s.messages == []
    case TryCompactOp(now, sv) =>
      CoolingDown(s.failedAt, now) || !NeedsCompaction(s.Window(), sv.contextLength)
      || !Compacts(s.Window(), sv) || sv.cursorStored
    case ForceCompactOp(now, sv) =>
      s.Window() == [] || WindowTokens(s.Window()) <= FORCE_THRESHOLD || !Compacts(s.Window(), sv) || sv.cursorStored
    case ReloadOp(accepts) => accepts != 1 || s.cursor == 0
  }

  lemma AppendStep(s: State, msgs: seq<Message>, accepts: nat)
    requires s.InBounds() && s.Synced()
    ensures AfterAppend(s, msgs, accepts).Synced() <==> KeepsStep(s, AppendOp(msgs, accepts))
  {
    var kept := Kept(msgs);
    assert kept[..|kept|] == kept;
    assert |s.log + kept[..Min(accepts, |kept|)]| == |s.log| + Min(accepts, |kept|);
  }

  /** Deleting the first n messages of a round from the store, and all or nothing of it from memory. */
  lemma RoundPieces(pre: seq<Message>, round: seq<Message>, post: seq<Message>, n: nat)
    requires round != [] && n <= |round|
    ensures WithoutEach(pre + round + post, round[..n]) == (if n == |round| then pre + post else pre + round + post)
       <==> n == 0 || (n == |round| && Apart(pre, round) && Apart(post, round))
  {
    hide Apart, WithoutEach;
    if n == |round| {
      assert round[..n] == round;
      DeletionIsExact(pre, round, post);
    } else if n > 0 {
      assert round[..n][0] == (pre + round + post)[|pre|];
      PartialDeletionShows(pre + round + post, round[..n]);
    } else {
      NothingDeleted(pre + round + post, round[..n]);
    }
  }

  lemma DeleteRoundStep(s: State, timestamp: int, accepts: nat)
    requires s.InBounds() && s.Synced()
    ensures AfterDeleteRound(s, timestamp, accepts).Synced() <==> KeepsStep(s, DeleteRoundOp(timestamp, accepts))
  {
    hide Round, Apart, WithoutEach, AfterDeleteRound;
    match Round(s.Window(), timestamp)
    case None =>
      NoRoundDeleted(s, timestamp, accepts);
    case Some((c, e)) =>
      RoundDeleted(s, timestamp, c, e, accepts);
      var (start, stop, round) := (s.cursor + c, s.cursor + e, s.Window()[c..e]);
      ThreeParts(s.messages, s.cursor, c, e);
      RoundPieces(s.messages[..start], round, s.messages[stop..], Min(accepts, e - c));
  }

  lemma ThreeParts(s: seq<Message>, from: nat, c: nat, e: nat)
    requires from <= |s| && c <= e <= |s[from..]|
    ensures s[from + c..from + e] == s[from..][c..e]
    ensures s == s[..from + c] + s[from..][c..e] + s[from + e..]
  {
  }

  lemma NothingDeleted(log: seq<Message>, gone: seq<Message>)
    requires gone == []
    ensures WithoutEach(log, gone) == log
  {
  }

  lemma TruncateStep(s: State, keep: int, accepts: nat)
    requires s.InBounds() && s.Synced()
    ensures AfterTruncate(s, keep, accepts).Synced() <==> KeepsStep(s, TruncateOp(keep, accepts))
  {
    if 0 <= keep < |s.messages| {
      assert |s.messages[..keep]| == keep;
    }
  }

  /** For every operation the condition is exact. */
  lemma StepSynced(s: State, op: Op)
    requires s.InBounds() && s.Synced()
    ensures Step(s, op).Synced() <==> KeepsStep(s, op)
  {
    hide Round, WindowTokens, Compacts;
    match op
    case AppendOp(msgs, accepts) => AppendStep(s, msgs, accepts);
    case DeleteRoundOp(timestamp, accepts) => DeleteRoundStep(s, timestamp, accepts);
    case TruncateOp(keep, accepts) => TruncateStep(s, keep, accepts);
    case _ =>
  }

  /** Nothing but a reload from a store that is out of step can push the cursor past the messages. */
  lemma StepInBounds(s: State, op: Op)
    requires s.InBounds()
    ensures Step(s, op).InBounds() <==> !(op.ReloadOp? && op.accepts > 1 && s.logCursor > |s.log|)
  {
    hide WindowTokens, Compacts, WithoutEach;
  }

  // ---------------------------------------------------------------- runs

  predicate RunKeepsStep(s: State, ops: seq<Op>)
    requires s.InBounds() && s.Synced()
    decreases |ops|
  {
    ops == [] ||
    (KeepsStep(s, ops[0]) &&
     (StepSynced(s, ops[0]); StepInBounds(s, ops[0]); RunKeepsStep(Step(s, ops[0]), ops[1..])))
  }

  function Run(s: State, ops: seq<Op>): State
    requires s.InBounds() && s.Synced() && RunKeepsStep(s, ops)
    decreases |ops|
  {
    if ops == [] then s
    else
      StepSynced(s, ops[0]);
      StepInBounds(s, ops[0]);
      Run(Step(s, ops[0]), ops[1..])
  }

  /** Over any run of operations that each meet their condition, memory stays the store's image, the
      cursor stays inside the history, and loading the session afresh gives the very same state. */
  lemma {:induction false} RunRefines(s: State, ops: seq<Op>)
    requires s.InBounds() && s.Synced() && RunKeepsStep(s, ops)
    ensures var t := Run(s, ops);
            t.InBounds() && t.Synced() && AfterReload(t, 2) == t
    decreases |ops|
  {
    if ops != [] {
      StepSynced(s, ops[0]);
      StepInBounds(s, ops[0]);
      RunRefines(Step(s, ops[0]), ops[1..]);
    }
  }

  /** The clamped cursor of Truncate is not stored: after a reload the cursor points past the end
      exactly when the cut was made below it. */
  lemma TruncateThenReload(s: State, keep: nat)
    requires s.InBounds() && s.Synced() && keep < |s.messages|
    ensures AfterReload(AfterTruncate(s, keep, 1), 2).InBounds() <==> keep >= s.cursor
  {
    assert |s.messages[..keep]| == keep;
  }

  /** Reading a session again that the store answers for puts it in step with the store, whatever it held. */
  lemma ReloadSyncs(s: State)
    ensures var t := AfterReload(s, 2);
            t.Synced() && t.log == s.log && t.logCursor == s.logCursor && t.failedAt == s.failedAt
  {
  }

  /** A reset that the store accepts leaves nothing, in memory or in the store; one that it refuses leaves memory as it
      was. */
  lemma ResetForgets(s: State, accepts: nat)
    ensures accepts >= 2 ==> AfterReset(s, accepts) == State([], 0, [], 0, s.failedAt)
    ensures accepts < 2 ==> AfterReset(s, accepts).messages == s.messages && AfterReset(s, accepts).cursor == s.cursor
  {
  }

  /** An append that the store accepts puts the messages that have text or calls behind the others, in order, in memory
      and in the store; a refused one leaves memory as it was. */
  lemma AppendAdds(s: State, msgs: seq<Message>, more: seq<Message>, accepts: nat)
    requires accepts >= |msgs| + |more|
    ensures AfterAppend(s, [], accepts) == s
    ensures AfterAppend(s, msgs + more, accepts) == AfterAppend(AfterAppend(s, msgs, |msgs|), more, |more|)
    ensures |msgs| == 1 ==>
              AfterAppend(s, msgs, accepts)
              == if Blank(msgs[0].content) && msgs[0].toolCalls == [] then s
                 else s.(messages := s.messages + msgs, log := s.log + msgs)
  {
    hide Storable;
    KeptAppend(msgs, more);
    KeptFew(msgs);
    KeptFew(more);
    var a, b := Kept(msgs), Kept(more);
    assert a[..|a|] == a && b[..|b|] == b && (a + b)[..|a + b|] == a + b;
    assert s.messages + (a + b) == s.messages + a + b && s.log + (a + b) == s.log + a + b;
    assert Kept([]) == [] && s.messages + [] == s.messages && s.log + [] == s.log;
    KeptSingle(msgs);
  }

  lemma KeptFew(msgs: seq<Message>)
    ensures |Kept(msgs)| <= |msgs|
  {
    KeptAll(msgs);
  }

  lemma KeptSingle(msgs: seq<Message>)
    ensures |msgs| == 1 ==> Kept(msgs) == if Blank(msgs[0].content) && msgs[0].toolCalls == [] then [] else msgs
  {
  }

  // ---------------------------------------------------------------- the cooldown

  /** Operations of an ordinary turn: messages come, rounds go, the automatic compaction is tried. */
  predicate Ordinary(ops: seq<Op>, until: nat) {
    forall i :: 0 <= i < |ops| ==>
      match ops[i]
      case AppendOp(_, _) => true
      case DeleteRoundOp(_, _) => true
      case TryCompactOp(now, _) => now < until
      case _ => false
  }

  predicate NoReload(ops: seq<Op>) {
    forall i :: 0 <= i < |ops| ==> !ops[i].ReloadOp?
  }

  function RunAny(s: State, ops: seq<Op>): State
    requires s.InBounds() && NoReload(ops)
    decreases |ops|
  {
    if ops == [] then s else StepInBounds(s, ops[0]); RunAny(Step(s, ops[0]), ops[1..])
  }

  /** A compaction that fails for whatever reason leaves the cursor where it was, and no automatic
      compaction moves it before the cooldown is over, whatever else the session does. */
  lemma {:induction false} FailureHoldsTheCursor(s: State, now: nat, sv: Services, ops: seq<Op>)
    requires s.InBounds() && now > 0 && !Compacts(s.Window(), sv)
    requires Ordinary(ops, now + COOLDOWN) && NoReload(ops)
    ensures var t := RunAny(AfterCompact(s, now, sv), ops);
            t.cursor == s.cursor && t.logCursor == s.logCursor && t.failedAt == now
    ensures AfterCompact(s, now, sv).messages == s.messages && AfterCompact(s, now, sv).log == s.log
  {
    CursorHeld(AfterCompact(s, now, sv), ops, now + COOLDOWN);
  }

  lemma {:induction false} CursorHeld(s: State, ops: seq<Op>, until: nat)
    requires s.InBounds() && s.failedAt > 0 && until == s.failedAt + COOLDOWN
    requires Ordinary(ops, until) && NoReload(ops)
    ensures var t := RunAny(s, ops);
            t.cursor == s.cursor && t.logCursor == s.logCursor && t.failedAt == s.failedAt
    decreases |ops|
  {
    if ops != [] {
      StepInBounds(s, ops[0]);
      CursorHeld(Step(s, ops[0]), ops[1..], until);
    }
  }
}
