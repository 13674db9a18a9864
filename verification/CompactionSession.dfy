/** The session's compaction, told by what the compactor answers and the sink takes; and every run of a session's
    appends and compactions as a run of the compaction machine. */
module CompactionSession {
  import opened Messages
  import opened Sanitizing
  import opened RequestAssembly
  import opened SessionLog
  import Compaction

  // ---------------------------------------------------------------- one compaction

  /** There is a compactor that makes some text of the cleaned window, and a sink that takes this very text. */
  predicate Taken(w: seq<Message>, sv: Services) {
    && sv.sink.Some? && sv.compactor.Some?
    && match sv.compactor.value(Sanitize(w))
       case Some(text) => text != "" && sv.sink.value(text)
       case None => false
  }

  /** A compaction of a window moves the cursor exactly if there is a sink and a compactor, this makes some text of the
      cleaned window, and that takes this very text. Otherwise nothing changes but the failure time. */
  lemma CompactsExactly(s: State, now: nat, sv: Services)
    requires s.InBounds() && s.Window() != [] && now > 0
    ensures var t := AfterCompact(s, now, sv);
            && t.messages == s.messages && t.log == s.log
            && (t.cursor != s.cursor <==> Taken(s.Window(), sv))
            && (Taken(s.Window(), sv) ==>
                  && t.cursor == |s.messages| && t.failedAt == 0
                  && t.logCursor == if sv.cursorStored then |s.messages| else s.logCursor)
            && (!Taken(s.Window(), sv) ==> t.cursor == s.cursor && t.logCursor == s.logCursor && t.failedAt == now)
  {
    hide Sanitize;
    SanitizeNeverEmpty(s.Window());
  }

  /** The automatic compaction starts exactly if no failure is younger than five minutes, the model's context length
      is known, and the window is not empty and has more than 80 percent of it. */
  lemma TriesExactly(s: State, now: nat, sv: Services)
    requires s.InBounds()
    ensures var due := (s.failedAt == 0 || now >= s.failedAt + 5 * 60 * 1_000_000_000)
                       && s.Window() != [] && sv.contextLength > 0
                       && 10 * WindowTokens(s.Window()) > 8 * sv.contextLength;
            AfterTryCompact(s, now, sv) == if due then AfterCompact(s, now, sv) else s
  {
    hide WindowTokens, AfterCompact;
  }

  /** The compaction on demand starts exactly if the window has more than a hundred thousand tokens. */
  lemma ForcesExactly(s: State, now: nat, sv: Services)
    requires s.InBounds()
    ensures var due := s.Window() != [] && WindowTokens(s.Window()) > 100_000;
            AfterForceCompact(s, now, sv) == if due then AfterCompact(s, now, sv) else s
  {
  }

  lemma {:induction false} WindowTokensAppend(a: seq<Message>, b: seq<Message>)
    ensures WindowTokens(a + b) == WindowTokens(a) + WindowTokens(b)
  {
    hide MessageTokens;
    if b == [] {
      assert a + b == a;
    } else {
      WindowTokensAppend(a, b[..|b| - 1]);
      assert (a + b)[..|a + b| - 1] == a + b[..|b| - 1] && (a + b)[|a + b| - 1] == b[|b| - 1];
    }
  }

  /** A window's tokens are those of its parts; an answer with a reported usage counts what was generated for it, any
      other message what its text is estimated at. */
  lemma TokensOfOne(m: Message)
    ensures m.role == Assistant && m.usage.Some? && m.usage.value.completion > 0 && m.usage.value.reasoning >= 0 ==>
              WindowTokens([m]) == m.usage.value.completion + m.usage.value.reasoning
    ensures m.role != Assistant || m.usage.None? ==> WindowTokens([m]) == EstimateTokens(m.content)
  {
    assert [m][..0] == [];
  }

  // ---------------------------------------------------------------- a compaction as a run of the machine

  predicate Matches(m: Compaction.State, s: State) { m.messages == s.messages && m.cursor == s.cursor }

  function StepsOf(s: State, sv: Services, k: nat): seq<Compaction.Step>
    requires s.InBounds()
  {
    if Taken(s.Window(), sv) then [Compaction.Capture(k), Compaction.Deliver(k), Compaction.Move(k)]
    else [Compaction.Capture(k), Compaction.Fail(k)]
  }

  /** A whole compaction is a capture, then a delivery and a move, or a failure, with nothing in between. */
  lemma DoCompactSteps(s: State, now: nat, sv: Services, m: Compaction.State, k: nat)
    requires s.InBounds() && s.Window() != [] && now > 0 && Matches(m, s) && k !in m.flights
    ensures var steps := StepsOf(s, sv, k);
            && Compaction.Legal(m, steps) && Compaction.Undisturbed(m, steps)
            && var n := Compaction.Run(m, steps);
               && Matches(n, AfterCompact(s, now, sv)) && n.flights == m.flights
               && n.summaries == if Taken(s.Window(), sv) then m.summaries + [(s.cursor, s.Window())] else m.summaries
  {
    hide Taken, AfterCompact;
    CompactsExactly(s, now, sv);
    var m1 := Compaction.Apply(m, Compaction.Capture(k));
    assert m1.flights - {k} == m.flights;
    if Taken(s.Window(), sv) {
      var m2 := Compaction.Apply(m1, Compaction.Deliver(k));
      assert m2.flights - {k} == m.flights;
      LegalThree(m, Compaction.Capture(k), Compaction.Deliver(k), Compaction.Move(k));
    } else {
      LegalTwo(m, Compaction.Capture(k), Compaction.Fail(k));
    }
  }

  lemma LegalOne(m: Compaction.State, a: Compaction.Step)
    requires Compaction.Enabled(m, a) && (a.Move? ==> Compaction.Current(m, a.flight))
    ensures Compaction.Legal(m, [a]) && Compaction.Undisturbed(m, [a])
    ensures Compaction.Run(m, [a]) == Compaction.Apply(m, a)
  {
    hide Compaction.Apply;
    assert [a][1..] == [];
    assert Compaction.Legal(Compaction.Apply(m, a), []) && Compaction.Undisturbed(Compaction.Apply(m, a), []);
    assert Compaction.Run(Compaction.Apply(m, a), []) == Compaction.Apply(m, a);
  }

  lemma LegalTwo(m: Compaction.State, a: Compaction.Step, b: Compaction.Step)
    requires Compaction.Enabled(m, a) && Compaction.Enabled(Compaction.Apply(m, a), b) && !a.Move?
    requires b.Move? ==> Compaction.Current(Compaction.Apply(m, a), b.flight)
    ensures Compaction.Legal(m, [a, b]) && Compaction.Undisturbed(m, [a, b])
    ensures Compaction.Run(m, [a, b]) == Compaction.Apply(Compaction.Apply(m, a), b)
  {
    hide Compaction.Apply;
    LegalOne(Compaction.Apply(m, a), b);
    assert [a, b][1..] == [b];
  }

  lemma LegalThree(m: Compaction.State, a: Compaction.Step, b: Compaction.Step, c: Compaction.Step)
    requires Compaction.Enabled(m, a) && Compaction.Enabled(Compaction.Apply(m, a), b) && !a.Move? && !b.Move?
    requires Compaction.Enabled(Compaction.Apply(Compaction.Apply(m, a), b), c)
    requires c.Move? ==> Compaction.Current(Compaction.Apply(Compaction.Apply(m, a), b), c.flight)
    ensures Compaction.Legal(m, [a, b, c]) && Compaction.Undisturbed(m, [a, b, c])
    ensures Compaction.Run(m, [a, b, c]) == Compaction.Apply(Compaction.Apply(Compaction.Apply(m, a), b), c)
  {
    hide Compaction.Apply;
    LegalTwo(Compaction.Apply(m, a), b, c);
    assert [a, b, c][1..] == [b, c];
  }

  lemma {:induction false} LegalAppend(m: Compaction.State, a: seq<Compaction.Step>, b: seq<Compaction.Step>)
    requires Compaction.Legal(m, a) && Compaction.Undisturbed(m, a)
    requires Compaction.Legal(Compaction.Run(m, a), b) && Compaction.Undisturbed(Compaction.Run(m, a), b)
    ensures Compaction.Legal(m, a + b) && Compaction.Undisturbed(m, a + b)
    ensures Compaction.Run(m, a + b) == Compaction.Run(Compaction.Run(m, a), b)
    decreases |a|
  {
    hide Compaction.Apply, Compaction.Enabled;
    if a == [] {
      assert a + b == b;
    } else {
      assert (a + b)[0] == a[0] && (a + b)[1..] == a[1..] + b;
      LegalAppend(Compaction.Apply(m, a[0]), a[1..], b);
    }
  }

  // ---------------------------------------------------------------- runs of a session

  /** Messages come, and compactions are tried and forced. */
  ghost predicate Growing(ops: seq<Op>) {
    forall op :: op in ops ==> Grows(op)
  }

  predicate Grows(op: Op) {
    op.AppendOp? || ((op.TryCompactOp? || op.ForceCompactOp?) && op.now > 0)
  }

  ghost function RunAll(s: State, ops: seq<Op>): State
    requires s.InBounds() && Growing(ops)
    decreases |ops|
  {
    if ops == [] then s else GrowingStep(s, ops); RunAll(Step(s, ops[0]), ops[1..])
  }

  lemma GrowingStep(s: State, ops: seq<Op>)
    requires s.InBounds() && Growing(ops) && ops != []
    ensures Step(s, ops[0]).InBounds() && Growing(ops[1..])
  {
    hide WindowTokens, Compacts;
    assert Grows(ops[0]) && forall op :: op in ops[1..] ==> op in ops;
  }

  /** Some compaction of these had a sink that took the text its compactor made of this window. */
  ghost predicate TakenIn(ops: seq<Op>, w: seq<Message>) {
    exists op :: op in ops && (op.TryCompactOp? || op.ForceCompactOp?) && Taken(w, op.services)
  }

  /** Steps of the machine that come to the same as one operation of the session. */
  lemma OneAsSteps(s: State, op: Op, m: Compaction.State) returns (steps: seq<Compaction.Step>)
    requires s.InBounds() && Growing([op]) && Matches(m, s) && m.flights == map[]
    ensures Compaction.Legal(m, steps) && Compaction.Undisturbed(m, steps)
    ensures var n := Compaction.Run(m, steps);
            && Matches(n, Step(s, op)) && n.flights == map[]
            && (n.summaries == m.summaries
                || (n.summaries == m.summaries + [(s.cursor, s.Window())] && TakenIn([op], s.Window())))
  {
    hide AfterCompact, Taken, WindowTokens;
    assert op in [op];
    steps := [];
    match op
    case AppendOp(msgs, accepts) =>
      var kept := Kept(msgs);
      if |kept| <= accepts {
        steps := [Compaction.Append(kept)];
        LegalOne(m, steps[0]);
      }
    case TryCompactOp(now, sv) =>
      if AfterTryCompact(s, now, sv) != s {
        TriesExactly(s, now, sv);
        DoCompactSteps(s, now, sv, m, 0);
        steps := StepsOf(s, sv, 0);
      }
    case ForceCompactOp(now, sv) =>
      if AfterForceCompact(s, now, sv) != s {
        ForcesExactly(s, now, sv);
        DoCompactSteps(s, now, sv, m, 0);
        steps := StepsOf(s, sv, 0);
      }
    case _ =>
  }

  /** Every run of the session is a run of the machine in which no append comes between a capture and its move. */
  lemma {:induction false} RunAsSteps(s: State, ops: seq<Op>, m: Compaction.State) returns (steps: seq<Compaction.Step>)
    requires s.InBounds() && Growing(ops) && Matches(m, s) && m.flights == map[]
    ensures Compaction.Legal(m, steps) && Compaction.Undisturbed(m, steps)
    ensures var n := Compaction.Run(m, steps);
            && Matches(n, RunAll(s, ops)) && n.flights == map[] && m.summaries <= n.summaries
            && forall k :: |m.summaries| <= k < |n.summaries| ==> TakenIn(ops, n.summaries[k].1)
    decreases |ops|
  {
    hide Step, Taken, Compaction.Apply, Compaction.Enabled;
    steps := [];
    if ops != [] {
      var op, rest := ops[0], ops[1..];
      GrowingStep(s, ops);
      assert ops == [op] + rest && forall x :: x in [op] ==> x in ops;
      var first := OneAsSteps(s, op, m);
      var n := Compaction.Run(m, first);
      var more := RunAsSteps(Step(s, op), rest, n);
      LegalAppend(m, first, more);
      steps := first + more;
      MoreTaken([op], rest);
    }
  }

  lemma MoreTaken(a: seq<Op>, b: seq<Op>)
    ensures forall w :: TakenIn(a, w) || TakenIn(b, w) ==> TakenIn(a + b, w)
  {
    hide Taken;
  }

  /** Message i stands in this window, which begins at `start`. */
  predicate Lies(messages: seq<Message>, i: nat, start: nat, w: seq<Message>) {
    i < |messages| && start <= i < start + |w| && w[i - start] == messages[i]
  }

  /** Whatever messages come and whatever compactions are tried, forced, and fail: every message in front of the cursor
      of a session that began without one moved was in a window of which a sink took the text that a compactor made of
      it. */
  lemma SessionForgetsNothing(s: State, ops: seq<Op>, i: nat)
    requires s.InBounds() && s.cursor == 0 && Growing(ops) && i < RunAll(s, ops).cursor
    ensures var t := RunAll(s, ops);
            && t.cursor <= |t.messages|
            && exists start: nat, w: seq<Message> :: Lies(t.messages, i, start, w) && TakenIn(ops, w)
  {
    hide Step, Taken;
    var m := Compaction.State(s.messages, 0, map[], []);
    var steps := RunAsSteps(s, ops, m);
    Compaction.UndisturbedIsPunctual(m, steps);
    Compaction.NeverForgets(m, steps);
    var n, t := Compaction.Run(m, steps), RunAll(s, ops);
    assert i !in Compaction.Forgotten(n) && Compaction.Covered(n, i);
    var k :| 0 <= k < |n.summaries| && Compaction.Within(n, n.summaries[k].0, n.summaries[k].1, i);
    var (start, w) := (n.summaries[k].0, n.summaries[k].1);
    assert Lies(t.messages, i, start, w) && TakenIn(ops, w);
  }
}
