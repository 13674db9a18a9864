/** When the clean-ups do what they are for: out of a window in which calls may lack results they make a request
    in which every call is answered right behind it. */
module RequestValidity {
  import opened Text
  import opened Messages
  import opened Sanitizing
  import opened RequestAssembly
  import opened RequestStability
  import opened SanitizingExact

  lemma RunIdsTail(w: seq<Message>, i: nat)
    requires i < |w|
    ensures RunIds(w, i + 1) == RunIds(w[i + 1..], 0)
  {
    RunIdsShift(w[..i + 1], w[i + 1..], 0);
    assert w[..i + 1] + w[i + 1..] == w;
  }

  /** In front of other messages: the whole is well-paired if they are, and start by answering this one's calls. */
  lemma PairedBehind(m: Message, rest: seq<Message>)
    ensures WellPaired([m] + rest) <==> WellPaired(rest) && (Calls(m) ==> CallIds(m.toolCalls) <= RunIds(rest, 0))
    ensures RunIds([m] + rest, 0) == if m.role == Tool then {m.toolCallId} + RunIds(rest, 0) else {}
  {
    var out := [m] + rest;
    RunIdsShift([m], rest, 0);
    assert Answered(out, 0) <==> (Calls(m) ==> CallIds(m.toolCalls) <= RunIds(rest, 0));
    forall i | 0 < i < |out|
      ensures Answered(out, i) <==> Answered(rest, i - 1)
    {
      RunIdsShift([m], rest, i);
    }
    forall i | 0 <= i < |rest|
      ensures Answered(out, i + 1) <==> Answered(rest, i)
    {
      RunIdsShift([m], rest, i + 1);
    }
  }

  // ---------------------------------------------------------------- stripping

  /** The ids answered by the run of tool messages that starts at position i, once the messages that strip to
      nothing are out of the way. */
  function RunPast(w: seq<Message>, i: nat, ids: set<string>): set<string>
    decreases |w| - i
  {
    if i >= |w| then {}
    else if StripOne(w[i], ids) == [] then RunPast(w, i + 1, ids)
    else if w[i].role == Tool then {w[i].toolCallId} + RunPast(w, i + 1, ids)
    else {}
  }

  /** Every call of message i that is answered anywhere is answered behind it. */
  predicate InPlaceAt(w: seq<Message>, i: nat, ids: set<string>)
    requires i < |w|
  {
    Calls(w[i]) ==> forall c :: c in w[i].toolCalls && c.id in ids ==> c.id in RunPast(w, i + 1, ids)
  }

  /** Results stand where they belong. Any number of calls may lack results. */
  predicate InPlace(w: seq<Message>, ids: set<string>) { forall i :: 0 <= i < |w| ==> InPlaceAt(w, i, ids) }

  lemma {:induction false} RunPastTail(w: seq<Message>, i: nat, ids: set<string>)
    requires w != []
    ensures RunPast(w, i + 1, ids) == RunPast(w[1..], i, ids)
    decreases |w| - i
  {
    hide StripOne;
    if i + 1 < |w| {
      RunPastTail(w, i + 1, ids);
    }
  }

  lemma InPlaceTail(w: seq<Message>, ids: set<string>)
    requires w != []
    ensures InPlace(w, ids) <==> InPlaceAt(w, 0, ids) && InPlace(w[1..], ids)
  {
    forall i | 0 <= i < |w[1..]|
      ensures InPlaceAt(w[1..], i, ids) <==> InPlaceAt(w, i + 1, ids)
    {
      RunPastTail(w, i + 1, ids);
    }
    hide InPlaceAt;
    if InPlaceAt(w, 0, ids) && InPlace(w[1..], ids) {
      forall i | 0 <= i < |w|
        ensures InPlaceAt(w, i, ids)
      {
        if i > 0 {
          assert InPlaceAt(w[1..], i - 1, ids);
        }
      }
    }
    forall i | InPlace(w, ids) && 0 <= i < |w[1..]|
      ensures InPlaceAt(w[1..], i, ids)
    {
      assert InPlaceAt(w, i + 1, ids);
    }
  }

  /** What is kept of a message, and which ids that calls for. */
  lemma StrippedMessage(m: Message, ids: set<string>)
    ensures var out := StripOne(m, ids);
            && |out| <= 1 && (out == [] ==> Calls(m) && forall c :: c in m.toolCalls ==> c.id !in ids)
            && (out != [] ==> out == [out[0]] && out[0].role == m.role && out[0].toolCallId == m.toolCallId)
            && (out != [] && Calls(m) && !Calls(out[0]) ==> forall c :: c in m.toolCalls ==> c.id !in ids)
            && (out != [] && Calls(out[0]) ==>
                  Calls(m) && forall c :: c in out[0].toolCalls <==> c in m.toolCalls && c.id in ids)
  {
    hide Blank;
    KeptCallsExact(m.toolCalls, ids);
    var kept := KeptCalls(m.toolCalls, ids);
    assert kept == [] ==> forall c :: c in m.toolCalls ==> c !in kept;
  }

  lemma AllIds(calls: seq<ToolCall>, answers: set<string>)
    ensures CallIds(calls) <= answers <==> forall c :: c in calls ==> c.id in answers
  {
    forall c | c in calls
      ensures c.id in CallIds(calls)
    {
    }
  }

  /** Whether a stripped message has its calls answered behind it. */
  lemma StrippedAnswered(m: Message, ids: set<string>, answers: set<string>)
    requires StripOne(m, ids) != []
    ensures var kept := StripOne(m, ids)[0];
            (Calls(kept) ==> CallIds(kept.toolCalls) <= answers) <==>
            (Calls(m) ==> forall c :: c in m.toolCalls && c.id in ids ==> c.id in answers)
  {
    StrippedMessage(m, ids);
    AllIds(StripOne(m, ids)[0].toolCalls, answers);
    hide StripOne, CallIds;
  }

  lemma {:induction false} StripTail(w: seq<Message>, ids: set<string>)
    ensures WellPaired(StripAll(w, ids)) <==> InPlace(w, ids)
    ensures RunIds(StripAll(w, ids), 0) == RunPast(w, 0, ids)
    decreases |w|
  {
    hide StripOne, StripAll, InPlace, WellPaired, RunIds;
    if w == [] {
      NothingPaired(ids);
    } else {
      var m, rest := w[0], w[1..];
      StripTail(rest, ids);
      InPlaceTail(w, ids);
      RunPastTail(w, 0, ids);
      StripFirst(w, ids);
      StrippedMessage(m, ids);
      var out := StripAll(rest, ids);
      if StripOne(m, ids) == [] {
        assert [] + out == out;
      } else {
        PairedBehind(StripOne(m, ids)[0], out);
        StrippedAnswered(m, ids, RunPast(rest, 0, ids));
      }
    }
  }

  lemma NothingPaired(ids: set<string>)
    ensures WellPaired(StripAll([], ids)) && InPlace([], ids) && RunIds(StripAll([], ids), 0) == RunPast([], 0, ids)
  {
  }

  /** Stripping makes a window well-paired exactly if every call that is answered anywhere is answered right behind
      its message, messages that strip to nothing aside. */
  lemma StripPairs(w: seq<Message>)
    ensures WellPaired(Strip(w)) <==> InPlace(w, Resulted(w))
  {
    StripTail(w, Resulted(w));
  }

  /** An id that is used again hides a missing result: stripping then leaves the call open. */
  lemma ReusedIdStaysOpen()
    ensures var asst := Plain(Assistant, "x", 0).(toolCalls := [ToolCall("a", "read", "")]);
            var w := [asst, Plain(Tool, "r", 0).(toolCallId := "a"), asst];
            Strip(w) == w && !WellPaired(w)
  {
    var call := ToolCall("a", "read", "");
    var asst := Plain(Assistant, "x", 0).(toolCalls := [call]);
    var w := [asst, Plain(Tool, "r", 0).(toolCallId := "a"), asst];
    ResultedExact(w);
    assert w[1].role == Tool && w[1].toolCallId == "a";
    StripIdentity(w);
    assert call in w[2].toolCalls && RunIds(w, 3) == {};
    assert "a" in CallIds(w[2].toolCalls);
    assert !Answered(w, 2);
  }

  // ---------------------------------------------------------------- sanitizing

  /** The second pass, from the front. */
  function PassFrom(w: seq<Message>, dropping: bool, incomplete: set<string>): seq<Message>
    decreases |w|
  {
    if w == [] then []
    else
      var p := SanitizeOne(Pass([], dropping), w[0], incomplete);
      p.out + PassFrom(w[1..], p.dropping, incomplete)
  }

  lemma {:induction false} PassSplits(w: seq<Message>, i: nat, incomplete: set<string>)
    requires i <= |w|
    ensures var p := SanitizePass(w[..i], incomplete);
            SanitizePass(w, incomplete).out == p.out + PassFrom(w[i..], p.dropping, incomplete)
    decreases |w| - i
  {
    hide SanitizeOne;
    if i == |w| {
      assert w[..i] == w;
    } else {
      PassSplits(w, i + 1, incomplete);
      assert w[..i + 1][..i] == w[..i] && w[..i + 1][i] == w[i];
      assert w[i..][0] == w[i] && w[i..][1..] == w[i + 1..];
      OneAppends(SanitizePass(w[..i], incomplete), w[i], incomplete);
    }
  }

  lemma OneAppends(p: Pass, m: Message, incomplete: set<string>)
    ensures var q := SanitizeOne(Pass([], p.dropping), m, incomplete);
            SanitizeOne(p, m, incomplete) == Pass(p.out + q.out, q.dropping)
  {
    assert p.out + [] == p.out;
  }

  /** Every message without an incomplete call is answered. */
  predicate ClosedAnswered(w: seq<Message>, incomplete: set<string>) {
    forall i :: 0 <= i < |w| && !Open(w[i], incomplete) ==> Answered(w, i)
  }

  lemma AnsweredTail(w: seq<Message>, i: nat)
    requires i + 1 < |w|
    ensures Answered(w, i + 1) <==> Answered(w[1..], i)
  {
    RunIdsTail(w, i + 1);
    RunIdsTail(w[1..], i);
    assert w[i + 1 + 1..] == w[1..][i + 1..];
  }

  lemma ClosedTail(w: seq<Message>, incomplete: set<string>)
    requires w != []
    ensures ClosedAnswered(w, incomplete) <==>
            (!Open(w[0], incomplete) && Calls(w[0]) ==> CallIds(w[0].toolCalls) <= RunIds(w[1..], 0))
            && ClosedAnswered(w[1..], incomplete)
  {
    RunIdsTail(w, 0);
    assert Answered(w, 0) <==> (Calls(w[0]) ==> CallIds(w[0].toolCalls) <= RunIds(w[1..], 0));
    forall i | 0 <= i < |w[1..]|
      ensures Answered(w, i + 1) <==> Answered(w[1..], i)
    {
      AnsweredTail(w, i);
    }
    hide Answered, Open;
    if ClosedAnswered(w[1..], incomplete) {
      forall i | 0 < i < |w| && !Open(w[i], incomplete)
        ensures Answered(w, i)
      {
        assert Answered(w, i - 1 + 1) <==> Answered(w[1..], i - 1);
      }
    }
  }

  /** One message of the pass: kept as it is, kept without its calls, or dropped. */
  lemma PassMessage(m: Message, dropping: bool, incomplete: set<string>)
    requires m.role == Tool ==> m.toolCallId !in incomplete
    ensures var p := SanitizeOne(Pass([], dropping), m, incomplete);
            && p.dropping == (if m.role == Tool then dropping else Open(m, incomplete))
            && p.out == (if m.role == Tool && dropping then []
                         else if Open(m, incomplete) then [m.(toolCalls := [])] else [m])
  {
  }

  lemma {:induction false} SanitizeTail(w: seq<Message>, dropping: bool, incomplete: set<string>)
    requires Unanswered(w, incomplete)
    ensures WellPaired(PassFrom(w, dropping, incomplete)) <==> ClosedAnswered(w, incomplete)
    ensures !dropping ==> RunIds(PassFrom(w, dropping, incomplete), 0) == RunIds(w, 0)
    decreases |w|
  {
    hide WellPaired, ClosedAnswered, SanitizeOne, Open, RunIds, Calls, CallIds;
    if w == [] {
      NothingSanitized(dropping, incomplete);
    } else {
      var m, rest := w[0], w[1..];
      assert m in w && forall x :: x in rest ==> x in w;
      PassMessage(m, dropping, incomplete);
      var p := SanitizeOne(Pass([], dropping), m, incomplete);
      SanitizeTail(rest, p.dropping, incomplete);
      ClosedTail(w, incomplete);
      OpenCalls(m, incomplete);
      PairedBehind(m, rest);
      assert w == [m] + rest;
      var out := PassFrom(rest, p.dropping, incomplete);
      assert [] + out == out;
      if Open(m, incomplete) {
        PairedBehind(m.(toolCalls := []), out);
      } else {
        PairedBehind(m, out);
      }
    }
  }

  lemma OpenCalls(m: Message, incomplete: set<string>)
    ensures Open(m, incomplete) ==> m.role == Assistant && !Calls(m.(toolCalls := []))
    ensures Calls(m) ==> m.role == Assistant
  {
  }

  lemma NothingSanitized(dropping: bool, incomplete: set<string>)
    ensures WellPaired(PassFrom([], dropping, incomplete)) && ClosedAnswered([], incomplete)
    ensures RunIds(PassFrom([], dropping, incomplete), 0) == RunIds([], 0)
  {
  }

  /** Sanitizing makes a window well-paired exactly if every message without an incomplete call is answered right
      behind it. */
  lemma SanitizePairs(w: seq<Message>)
    ensures WellPaired(Sanitize(w)) <==> ClosedAnswered(w, Incomplete(w))
  {
    IncompleteUnanswered(w);
    SanitizeTail(w, false, Incomplete(w));
    PassSplits(w, 0, Incomplete(w));
    assert w[..0] == [] && w[0..] == w;
    assert [] + PassFrom(w, false, Incomplete(w)) == PassFrom(w, false, Incomplete(w));
  }

  // ---------------------------------------------------------------- windows that end early

  lemma {:induction false} RunWitness(w: seq<Message>, i: nat, id: string) returns (j: nat)
    requires id in RunIds(w, i)
    ensures i <= j < |w| && w[j].toolCallId == id && forall k :: i <= k <= j ==> w[k].role == Tool
    decreases |w| - i
  {
    if w[i].toolCallId == id {
      j := i;
    } else {
      j := RunWitness(w, i + 1, id);
    }
  }

  lemma {:induction false} RunReaches(w: seq<Message>, i: nat, j: nat)
    requires i <= j < |w| && forall k :: i <= k <= j ==> w[k].role == Tool
    ensures w[j].toolCallId in RunIds(w, i)
    decreases j - i
  {
    if i < j {
      RunReaches(w, i + 1, j);
    }
  }

  /** No two results share an id. */
  predicate ResultsDiffer(w: seq<Message>) {
    forall j, k :: 0 <= j < k < |w| && w[j].role == Tool && w[k].role == Tool ==> w[j].toolCallId != w[k].toolCallId
  }

  /** In what is left of a well-paired window that was cut off anywhere, as a cancelled run leaves it, a call that is
      answered at all is answered right behind its message. */
  lemma CutOffInPlace(w: seq<Message>, n: nat, i: nat, c: ToolCall)
    requires WellPaired(w) && ResultsDiffer(w) && i < n <= |w|
    requires Calls(w[i]) && c in w[i].toolCalls && c.id in ToolIds(w[..n])
    ensures c.id in RunIds(w[..n], i + 1)
  {
    var cut := w[..n];
    ExpectedExact(cut);
    var k :| 0 <= k < |cut| && cut[k].role == Tool && cut[k].toolCallId == c.id;
    assert Answered(w, i) && c.id in CallIds(w[i].toolCalls);
    var j := RunWitness(w, i + 1, c.id);
    assert w[k] == cut[k] && j == k;
    RunReaches(cut, i + 1, j);
  }

  lemma {:induction false} RunWithin(w: seq<Message>, i: nat, ids: set<string>)
    ensures RunIds(w, i) <= RunPast(w, i, ids)
    decreases |w| - i
  {
    if i < |w| {
      RunWithin(w, i + 1, ids);
    }
  }

  /** What a cancelled run leaves of a well-paired window is made well-paired again by either clean-up. */
  lemma CutOffIsRepaired(w: seq<Message>, n: nat)
    requires WellPaired(w) && n <= |w| && ResultsDiffer(w)
    ensures WellPaired(Strip(w[..n])) && WellPaired(Sanitize(w[..n]))
  {
    hide Strip, Sanitize, StripOne, ResultsDiffer, InPlaceAt, Answered, Open, Incomplete, Resulted;
    var cut := w[..n];
    StripPairs(cut);
    SanitizePairs(cut);
    forall i | 0 <= i < |cut|
      ensures InPlaceAt(cut, i, Resulted(cut))
      ensures !Open(cut[i], Incomplete(cut)) ==> Answered(cut, i)
    {
      CutOffAt(w, n, i);
    }
  }

  lemma CutOffAt(w: seq<Message>, n: nat, i: nat)
    requires WellPaired(w) && i < n <= |w| && ResultsDiffer(w)
    ensures InPlaceAt(w[..n], i, Resulted(w[..n]))
    ensures !Open(w[..n][i], Incomplete(w[..n])) ==> Answered(w[..n], i)
  {
    hide Strip, Sanitize, StripOne, WellPaired, ResultsDiffer, Open, Incomplete, Resulted, RunIds, RunPast, ToolIds;
    var cut := w[..n];
    ResultedAmong(cut);
    RunWithin(cut, i + 1, Resulted(cut));
    forall c | Calls(cut[i]) && c in cut[i].toolCalls && c.id in ToolIds(cut)
      ensures c.id in RunIds(cut, i + 1)
    {
      CutOffInPlace(w, n, i, c);
    }
    if Calls(cut[i]) && !Open(cut[i], Incomplete(cut)) {
      CompleteIds(cut, i);
    }
  }

  lemma CompleteIds(w: seq<Message>, i: nat)
    requires i < |w| && Calls(w[i]) && !Open(w[i], Incomplete(w))
    ensures CallIds(w[i].toolCalls) <= ToolIds(w)
    ensures forall id :: id in CallIds(w[i].toolCalls) ==> exists c :: c in w[i].toolCalls && c.id == id
  {
    ExpectedExact(w);
    assert forall id :: id in CallIds(w[i].toolCalls) ==> id in Expected(w);
  }

  lemma {:induction false} ResultedAmong(w: seq<Message>)
    ensures Resulted(w) <= ToolIds(w)
  {
    if w != [] {
      ResultedAmong(w[..|w| - 1]);
    }
  }
}
