/** Compaction beside appends: it captures the window under the lock, has it summarised and delivered without the
    lock, and moves the cursor under the lock again. Several may be under way at once. */
module Compaction {
  import opened Messages

  /** A compaction under way: where its window began, the window it captured, whether the sink took the summary. */
  datatype Flight = Flight(start: nat, window: seq<Message>, delivered: bool)

  /** `summaries` are the windows (and where they began) whose summaries the sink accepted. */
  datatype State = State(messages: seq<Message>, cursor: nat, flights: map<nat, Flight>,
                         summaries: seq<(nat, seq<Message>)>)

  datatype Step =
    | Append(msgs: seq<Message>)
    | Capture(flight: nat)
    | Deliver(flight: nat)
    | Fail(flight: nat)
    | Move(flight: nat)

  predicate Enabled(s: State, step: Step) {
    match step
    case Append(_) => true
    case Capture(k) => k !in s.flights && s.cursor < |s.messages|
    case Deliver(k) => k in s.flights && !s.flights[k].delivered
    case Fail(k) => k in s.flights && !s.flights[k].delivered
    case Move(k) => k in s.flights && s.flights[k].delivered
  }

  function Apply(s: State, step: Step): State
    requires Enabled(s, step)
  {
    match step
    case Append(msgs) => s.(messages := s.messages + msgs)
    case Capture(k) => s.(flights := s.flights[k := Flight(s.cursor, s.messages[s.cursor..], false)])
    case Deliver(k) =>
      var f := s.flights[k];
      s.(flights := s.flights[k := f.(delivered := true)], summaries := s.summaries + [(f.start, f.window)])
    case Fail(k) => s.(flights := s.flights - {k})
    case Move(k) => s.(flights := s.flights - {k}, cursor := |s.messages|)
  }

  predicate Legal(s: State, steps: seq<Step>)
    decreases |steps|
  {
    steps == [] || (Enabled(s, steps[0]) && Legal(Apply(s, steps[0]), steps[1..]))
  }

  function Run(s: State, steps: seq<Step>): State
    requires Legal(s, steps)
    decreases |steps|
  {
    if steps == [] then s else Run(Apply(s, steps[0]), steps[1..])
  }

  // ---------------------------------------------------------------- what is remembered

  /** Message i is in this window. */
  predicate Within(s: State, start: nat, window: seq<Message>, i: nat) {
    i < |s.messages| && start <= i < start + |window| && window[i - start] == s.messages[i]
  }

  predicate Covered(s: State, i: nat) {
    exists k :: 0 <= k < |s.summaries| && Within(s, s.summaries[k].0, s.summaries[k].1, i)
  }

  /** Messages no request will show again and no accepted summary has seen. */
  function Forgotten(s: State): set<nat> {
    set i | 0 <= i < s.cursor && !Covered(s, i)
  }

  /** Every captured window is still a stretch of the messages, from no later than the cursor on; a delivered one
      is among the accepted summaries. */
  predicate Captured(s: State) {
    s.cursor <= |s.messages| && forall k :: k in s.flights ==> FlightCaptured(s, k)
  }

  predicate FlightCaptured(s: State, k: nat)
    requires k in s.flights
  {
    var f := s.flights[k];
    && f.start <= s.cursor && f.start + |f.window| <= |s.messages|
    && f.window == s.messages[f.start..f.start + |f.window|]
    && (f.delivered ==> (f.start, f.window) in s.summaries)
  }

  lemma StepCaptured(s: State, step: Step)
    requires Captured(s) && Enabled(s, step)
    ensures Captured(Apply(s, step))
  {
    hide FlightCaptured;
    forall k | k in Apply(s, step).flights
      ensures FlightCaptured(Apply(s, step), k)
    {
      if k in s.flights {
        assert FlightCaptured(s, k);
      }
      StepFlight(s, step, k);
    }
  }

  lemma StepFlight(s: State, step: Step, k: nat)
    requires Enabled(s, step) && s.cursor <= |s.messages|
    requires k in Apply(s, step).flights && (k in s.flights ==> FlightCaptured(s, k))
    ensures FlightCaptured(Apply(s, step), k)
  {
    var after := Apply(s, step);
    if step.Deliver? {
      assert after.summaries[|s.summaries|] == (s.flights[step.flight].start, s.flights[step.flight].window);
    }
    if k in s.flights {
      var f := s.flights[k];
      assert after.messages[..|s.messages|] == s.messages;
      assert after.messages[f.start..f.start + |f.window|] == s.messages[f.start..f.start + |f.window|];
    } else {
      assert step == Capture(k);
    }
  }

  /** Nothing is deleted or changed, and what has been covered stays so. */
  lemma StepKeeps(s: State, step: Step, i: nat)
    requires Enabled(s, step)
    ensures s.messages <= Apply(s, step).messages
    ensures Covered(s, i) ==> Covered(Apply(s, step), i)
  {
    if Covered(s, i) {
      var after := Apply(s, step);
      var k :| 0 <= k < |s.summaries| && Within(s, s.summaries[k].0, s.summaries[k].1, i);
      assert after.summaries[k] == s.summaries[k];
      assert Within(after, after.summaries[k].0, after.summaries[k].1, i);
    }
  }

  /** Messages that arrived behind the window of a flight, and that no accepted summary has seen either. */
  function Late(s: State, k: nat): set<nat>
    requires k in s.flights
  {
    var end := s.flights[k].start + |s.flights[k].window|;
    set i | end <= i < |s.messages| && s.cursor <= i && !Covered(s, i)
  }

  /** One step forgets nothing, but for the move of a cursor, which forgets exactly the late messages. */
  lemma StepForgets(s: State, step: Step)
    requires Captured(s) && Enabled(s, step)
    ensures step.Move? ==> Forgotten(Apply(s, step)) == Forgotten(s) + Late(s, step.flight)
    ensures !step.Move? ==> Forgotten(Apply(s, step)) <= Forgotten(s)
  {
    var after := Apply(s, step);
    forall i: nat
      ensures Covered(s, i) ==> Covered(after, i)
    {
      StepKeeps(s, step, i);
    }
    if step.Move? {
      var f := s.flights[step.flight];
      var at :| 0 <= at < |s.summaries| && s.summaries[at] == (f.start, f.window);
      forall i: nat | i < |s.messages|
        ensures Covered(after, i) <==> Covered(s, i)
        ensures f.start <= i < f.start + |f.window| ==> Covered(s, i)
      {
        SameSummaries(s, after, i);
        if f.start <= i < f.start + |f.window| {
          assert Within(s, s.summaries[at].0, s.summaries[at].1, i);
        }
      }
      assert f.start <= s.cursor;
    }
  }

  lemma SameSummaries(s: State, after: State, i: nat)
    requires s.messages == after.messages && s.summaries == after.summaries
    ensures Covered(after, i) <==> Covered(s, i)
  {
    forall k | 0 <= k < |s.summaries|
      ensures Within(s, s.summaries[k].0, s.summaries[k].1, i) <==>
              Within(after, after.summaries[k].0, after.summaries[k].1, i)
    {
    }
  }

  // ---------------------------------------------------------------- whole runs

  /** Every move of the run finds nothing late. */
  predicate Punctual(s: State, steps: seq<Step>)
    requires Legal(s, steps)
    decreases |steps|
  {
    steps == [] ||
    ((steps[0].Move? ==> Late(s, steps[0].flight) == {}) && Punctual(Apply(s, steps[0]), steps[1..]))
  }

  /** Over every run no message is deleted; and if every move is punctual, every message left of the cursor was in
      a window whose summary the sink accepted. */
  lemma {:induction false} NeverForgets(s: State, steps: seq<Step>)
    requires Captured(s) && Legal(s, steps)
    ensures Captured(Run(s, steps)) && s.messages <= Run(s, steps).messages
    ensures Punctual(s, steps) ==> Forgotten(Run(s, steps)) <= Forgotten(s)
    decreases |steps|
  {
    hide Captured, Enabled, Apply, Forgotten, Late;
    if steps != [] {
      StepCaptured(s, steps[0]);
      StepKeeps(s, steps[0], 0);
      StepForgets(s, steps[0]);
      NeverForgets(Apply(s, steps[0]), steps[1..]);
    }
  }

  /** A late move forgets, and only a later summary of the same messages can make up for it. */
  lemma LateMoveForgets(s: State, k: nat)
    requires Captured(s) && Enabled(s, Move(k))
    ensures Forgotten(Apply(s, Move(k))) <= Forgotten(s) <==> Late(s, k) == {}
  {
    StepForgets(s, Move(k));
    assert forall i :: i in Late(s, k) ==> i !in Forgotten(s);
  }

  // ---------------------------------------------------------------- a sufficient condition

  /** Nothing has arrived behind the captured window. */
  predicate Current(s: State, k: nat)
    requires k in s.flights
  {
    s.flights[k].start + |s.flights[k].window| == |s.messages|
  }

  /** No append lands between a capture and the move it leads to (appends may land before a failure). */
  predicate Undisturbed(s: State, steps: seq<Step>)
    requires Legal(s, steps)
    decreases |steps|
  {
    steps == [] ||
    ((steps[0].Move? ==> Current(s, steps[0].flight)) && Undisturbed(Apply(s, steps[0]), steps[1..]))
  }

  lemma {:induction false} UndisturbedIsPunctual(s: State, steps: seq<Step>)
    requires Legal(s, steps) && Undisturbed(s, steps)
    ensures Punctual(s, steps)
    decreases |steps|
  {
    hide Enabled, Apply;
    if steps != [] {
      UndisturbedIsPunctual(Apply(s, steps[0]), steps[1..]);
    }
  }

  /** What a compaction that captured the window and was delivered finds late, after these were appended. */
  lemma LateAlone(s: State, k: nat, appended: seq<Message>)
    requires Captured(s) && k in s.flights && Current(s, k)
    requires forall f :: 0 <= f < |s.summaries| ==> s.summaries[f].0 + |s.summaries[f].1| <= |s.messages|
    ensures forall i :: i in Late(Apply(s, Append(appended)), k) <==> |s.messages| <= i < |s.messages| + |appended|
  {
    var after := Apply(s, Append(appended));
    forall i: nat | |s.messages| <= i
      ensures !Covered(after, i)
    {
    }
  }

  /** One compaction on its own: what it forgets is exactly what was appended while it was under way. */
  lemma AloneForgetsAppended(s: State, k: nat, appended: seq<Message>)
    requires Captured(s) && Enabled(s, Capture(k)) && Forgotten(s) == {}
    requires forall f :: 0 <= f < |s.summaries| ==> s.summaries[f].0 + |s.summaries[f].1| <= |s.messages|
    ensures var steps := [Capture(k), Deliver(k), Append(appended), Move(k)];
            && Legal(s, steps)
            && forall i :: i in Forgotten(Run(s, steps)) <==> |s.messages| <= i < |s.messages| + |appended|
  {
    var steps := [Capture(k), Deliver(k), Append(appended), Move(k)];
    var s1 := Apply(s, Capture(k));
    var s2 := Apply(s1, Deliver(k));
    var s3 := Apply(s2, Append(appended));
    hide Forgotten, Covered, Within, Captured, Late, Legal, Run;
    CursorInBounds(s);
    UpToTheMove(s, k, appended);
    LateAlone(s2, k, appended);
    StepForgets(s3, Move(k));
    FourSteps(s, steps);
  }

  lemma UpToTheMove(s: State, k: nat, appended: seq<Message>)
    requires Captured(s) && Enabled(s, Capture(k))
    ensures var s2 := Apply(Apply(s, Capture(k)), Deliver(k));
            var s3 := Apply(s2, Append(appended));
            Captured(s2) && Captured(s3) && Forgotten(s3) <= Forgotten(s)
  {
    hide Forgotten, Captured, Late;
    var s1 := Apply(s, Capture(k));
    var s2 := Apply(s1, Deliver(k));
    StepCaptured(s, Capture(k));
    StepCaptured(s1, Deliver(k));
    StepCaptured(s2, Append(appended));
    StepForgets(s, Capture(k));
    StepForgets(s1, Deliver(k));
    StepForgets(s2, Append(appended));
  }

  lemma CursorInBounds(s: State)
    requires Captured(s)
    ensures s.cursor <= |s.messages|
  {
  }

  lemma FourSteps(s: State, steps: seq<Step>)
    requires |steps| == 4 && Enabled(s, steps[0]) && Enabled(Apply(s, steps[0]), steps[1])
    requires Enabled(Apply(Apply(s, steps[0]), steps[1]), steps[2])
    requires Enabled(Apply(Apply(Apply(s, steps[0]), steps[1]), steps[2]), steps[3])
    ensures Legal(s, steps)
    ensures Run(s, steps) == Apply(Apply(Apply(Apply(s, steps[0]), steps[1]), steps[2]), steps[3])
  {
    hide Enabled, Apply;
    var s1 := Apply(s, steps[0]);
    var s2 := Apply(s1, steps[1]);
    var s3 := Apply(s2, steps[2]);
    var r1, r2, r3 := steps[1..], steps[1..][1..], steps[1..][1..][1..];
    assert r1[0] == steps[1] && r2[0] == steps[2] && r3[0] == steps[3] && r3[1..] == [];
    assert Legal(s3, r3) && Run(s3, r3) == Run(Apply(s3, steps[3]), []);
    assert Legal(s2, r2) && Run(s2, r2) == Run(s3, r3);
    assert Legal(s1, r1) && Run(s1, r1) == Run(s2, r2);
  }
}
