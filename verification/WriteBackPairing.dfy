/** Write-back and the pairing rule: for engine messages made of complete rounds, exactly when the suffix
    written to the session has every tool call answered by the results right after it. */
module WriteBackPairing {
  import opened Wrappers
  import opened Text
  import opened Messages
  import opened EventBridge
  import opened WriteBackRuns

  // ---------------------------------------------------------------- the part of a write that matters here

  function Bare(m: Message): Message { m.(usage := None, finishReason := "") }

  function BareAll(out: seq<Message>): (r: seq<Message>)
    ensures |r| == |out|
    ensures forall k :: 0 <= k < |out| ==> r[k] == Bare(out[k])
  {
    if out == [] then [] else [Bare(out[0])] + BareAll(out[1..])
  }

  function Stored(m: Message): seq<Message> { if Storable(m) then [m] else [] }

  /** What one engine message becomes, usage and finish mark aside. */
  function LaneOne(l: Lane, images: seq<ImageEntry>, m: EngineMsg): (Lane, seq<Message>) {
    match m.role
    case Assistant =>
      var (lane, calls) := QueueIds(l, m.toolCalls);
      (lane, Stored(Message(Assistant, m.text, m.reasoning, [], 0, "", calls, "", None)))
    case Tool =>
      var (lane, id) := TakeResult(l, images, m.toolCallId);
      var one := Stored(Plain(Tool, m.text, 0).(toolCallId := id));
      if HasImages(lane)
      then (lane.(pendingImages := None), one + [ImageMessage(lane.pendingImages.value)])
      else (lane, one)
    case role => (l, Stored(Plain(role, m.text, 0)))
  }

  function LaneAll(l: Lane, images: seq<ImageEntry>, msgs: seq<EngineMsg>): (Lane, seq<Message>)
    decreases |msgs|
  {
    if msgs == [] then (l, [])
    else
      var (l1, one) := LaneOne(l, images, msgs[0]);
      var (l2, rest) := LaneAll(l1, images, msgs[1..]);
      (l2, one + rest)
  }

  lemma EmitOneLane(b: Bridge, msgs: seq<EngineMsg>, i: nat)
    requires i < |msgs|
    ensures var (l, out) := LaneOne(b.lane, b.images, msgs[i]);
            var (b1, whole) := EmitOne(b, msgs, i);
            b1.lane == l && b1.images == b.images && BareAll(whole) == out
  {
    hide TakeUsage, QueueIds, TakeResult, Blank;
  }

  lemma {:induction false} BareAppend(a: seq<Message>, b: seq<Message>)
    ensures BareAll(a + b) == BareAll(a) + BareAll(b)
  {
  }

  lemma {:induction false} EmitRangeLane(b: Bridge, msgs: seq<EngineMsg>, i: nat, n: nat)
    requires i <= n <= |msgs|
    ensures var (b1, out) := EmitRange(b, msgs, i, n);
            b1.images == b.images && (b1.lane, BareAll(out)) == LaneAll(b.lane, b.images, msgs[i..n])
    decreases n - i
  {
    hide EmitOne, LaneOne, BareAll;
    if i < n {
      EmitOneLane(b, msgs, i);
      var (b1, one) := EmitOne(b, msgs, i);
      EmitRangeLane(b1, msgs, i + 1, n);
      BareAppend(one, EmitRange(b1, msgs, i + 1, n).1);
      assert msgs[i..n][0] == msgs[i] && msgs[i..n][1..] == msgs[i + 1..n];
    } else {
      BareNothing();
    }
  }

  lemma BareNothing()
    ensures BareAll([]) == []
  {
  }

  lemma {:induction false} RunIdsBare(out: seq<Message>, i: nat)
    ensures RunIds(BareAll(out), i) == RunIds(out, i)
    decreases |out| - i
  {
    if i < |out| {
      RunIdsBare(out, i + 1);
    }
  }

  lemma WellPairedBare(out: seq<Message>)
    ensures WellPaired(BareAll(out)) <==> WellPaired(out)
  {
    forall i | 0 <= i < |out|
      ensures Answered(BareAll(out), i) <==> Answered(out, i)
    {
      RunIdsBare(out, i + 1);
    }
  }

  lemma {:induction false} LaneAllAppend(l: Lane, images: seq<ImageEntry>, a: seq<EngineMsg>, b: seq<EngineMsg>)
    ensures var (l1, left) := LaneAll(l, images, a);
            var (l2, right) := LaneAll(l1, images, b);
            LaneAll(l, images, a + b) == (l2, left + right)
    decreases |a|
  {
    hide LaneOne;
    if a == [] {
      assert a + b == b;
      var (l2, right) := LaneAll(l, images, b);
      assert [] + right == right;
    } else {
      var (l0, one) := LaneOne(l, images, a[0]);
      LaneAllAppend(l0, images, a[1..], b);
      assert (a + b)[0] == a[0] && (a + b)[1..] == a[1..] + b;
      var (l1, left) := LaneAll(l0, images, a[1..]);
      var (l2, right) := LaneAll(l1, images, b);
      assert one + (left + right) == one + left + right;
    }
  }

  // ---------------------------------------------------------------- turns

  /** The engine's messages, turn by turn: something said, or an assistant message with calls followed by one
      result per call in call order. */
  datatype Turn = Say(m: EngineMsg) | Round(asst: EngineMsg, results: seq<EngineMsg>)

  function MsgsOf(t: Turn): seq<EngineMsg> {
    match t
    case Say(m) => [m]
    case Round(asst, results) => [asst] + results
  }

  function Flatten(turns: seq<Turn>): seq<EngineMsg> {
    if turns == [] then [] else MsgsOf(turns[0]) + Flatten(turns[1..])
  }

  predicate Drawn(id: string) { |id| >= 4 && id == RecordId(|id| - 4) }

  /** All calls carry distinct ids of the provider's own, and each result names its call. */
  predicate Named(t: Turn) {
    && t.Round? && |t.results| == |t.asst.toolCalls|
    && (forall k :: 0 <= k < |t.results| ==>
          var id := t.asst.toolCalls[k].id; id != "" && !Drawn(id) && t.results[k].toolCallId == id)
    && forall j, k :: 0 <= j < k < |t.results| ==> t.asst.toolCalls[j].id != t.asst.toolCalls[k].id
  }

  /** No call has an id and no result names one. */
  predicate Unnamed(t: Turn) {
    && t.Round? && |t.results| == |t.asst.toolCalls|
    && forall k :: 0 <= k < |t.results| ==> t.asst.toolCalls[k].id == "" && t.results[k].toolCallId == ""
  }

  predicate ProperTurn(t: Turn) {
    match t
    case Say(m) => m.role != Tool && (m.role == Assistant ==> m.toolCalls == [])
    case Round(asst, results) =>
      && asst.role == Assistant && asst.toolCalls != [] && |results| == |asst.toolCalls|
      && (forall k :: 0 <= k < |results| ==> results[k].role == Tool)
      && (Named(t) || Unnamed(t))
  }

  /** No result is blank, and pictures come only with the last result of the round. */
  predicate Compact(results: seq<EngineMsg>, images: seq<ImageEntry>, toolSeq: nat) {
    results == [] ||
    (!Blank(results[0].text) && (|results| > 1 ==> ImageFor(images, toolSeq).None?) &&
     Compact(results[1..], images, toolSeq + 1))
  }

  /** The condition under which the turns are stored well-paired: every round is compact, and no round without
      ids comes after one with ids (`named`: one has been). */
  predicate Unbroken(turns: seq<Turn>, images: seq<ImageEntry>, toolSeq: nat, named: bool)
    requires forall t :: t in turns ==> ProperTurn(t)
  {
    turns == [] ||
    (match turns[0]
     case Say(_) => Unbroken(turns[1..], images, toolSeq, named)
     case Round(asst, results) =>
       && Compact(results, images, toolSeq)
       && (named ==> Named(turns[0]))
       && Unbroken(turns[1..], images, toolSeq + |results|, named || Named(turns[0])))
  }

  // ---------------------------------------------------------------- the results of one round

  /** The ids answered by the run of results before anything comes between. */
  function Answers(results: seq<EngineMsg>, ids: seq<string>, images: seq<ImageEntry>, toolSeq: nat): set<string>
    requires |ids| == |results|
  {
    if results == [] then {}
    else
      (if Blank(results[0].text) then {} else {ids[0]}) +
      (if ImageFor(images, toolSeq).Some? then {} else Answers(results[1..], ids[1..], images, toolSeq + 1))
  }

  lemma {:induction false} AnswersAmong(results: seq<EngineMsg>, ids: seq<string>, images: seq<ImageEntry>,
                                        toolSeq: nat)
    requires |ids| == |results|
    ensures forall id :: id in Answers(results, ids, images, toolSeq) ==> id in ids
  {
    if results != [] {
      AnswersAmong(results[1..], ids[1..], images, toolSeq + 1);
    }
  }

  predicate Covers(answers: set<string>, ids: seq<string>) { forall id :: id in ids ==> id in answers }

  /** All the ids are answered exactly when the results are compact. */
  lemma {:induction false} AnswersAll(results: seq<EngineMsg>, ids: seq<string>, images: seq<ImageEntry>, toolSeq: nat)
    requires |ids| == |results| && forall j, k :: 0 <= j < k < |ids| ==> ids[j] != ids[k]
    ensures Covers(Answers(results, ids, images, toolSeq), ids) <==> Compact(results, images, toolSeq)
  {
    if results != [] {
      hide Blank, ImageFor;
      var id, later := ids[0], ids[1..];
      var rest := Answers(results[1..], later, images, toolSeq + 1);
      AnswersAll(results[1..], later, images, toolSeq + 1);
      AnswersAmong(results[1..], later, images, toolSeq + 1);
      assert forall x :: x in ids <==> x == id || x in later;
      assert forall x :: x in later ==> x != id;
      if ImageFor(images, toolSeq).Some? && |results| > 1 {
        assert ids[1] in later;
      }
      assert |results| == 1 ==> later == [];
      assert Covers(rest + {id}, later) <==> Covers(rest, later);
    }
  }

  lemma {:induction false} ImageForBlocks(images: seq<ImageEntry>, toolSeq: nat)
    ensures ImageFor(images, toolSeq).Some? ==> ImageFor(images, toolSeq).value.blocks != []
  {
    if images != [] {
      ImageForBlocks(images[1..], toolSeq);
    }
  }

  /** The result either names its id or takes the oldest waiting one. */
  predicate Gets(l: Lane, m: EngineMsg, id: string) {
    if m.toolCallId != "" then m.toolCallId == id else l.pendingCalls != [] && l.pendingCalls[0] == id
  }

  /** Results that get the given ids, one after the other. */
  predicate GetAll(l: Lane, results: seq<EngineMsg>, ids: seq<string>)
    decreases |results|
  {
    |ids| == |results| &&
    (results == [] ||
     (Gets(l, results[0], ids[0]) && results[0].role == Tool && l.pendingImages.None? &&
      GetAll(l.(toolSeq := l.toolSeq + 1,
                pendingCalls := if results[0].toolCallId == "" then l.pendingCalls[1..] else l.pendingCalls),
             results[1..], ids[1..])))
  }

  lemma OneResult(l: Lane, images: seq<ImageEntry>, m: EngineMsg, id: string)
    requires m.role == Tool && l.pendingImages.None? && Gets(l, m, id)
    ensures var (l1, out) := LaneOne(l, images, m);
            && l1 == l.(toolSeq := l.toolSeq + 1,
                        pendingCalls := if m.toolCallId == "" then l.pendingCalls[1..] else l.pendingCalls)
            && var picture := ImageFor(images, l.toolSeq);
               out == (if Blank(m.text) then [] else [Plain(Tool, m.text, 0).(toolCallId := id)])
                      + (if picture.Some? then [ImageMessage(picture.value)] else [])
  {
    ImageForBlocks(images, l.toolSeq);
    hide Blank, ImageFor, ImageMessage;
  }

  lemma {:induction false} ResultsAnswer(l: Lane, images: seq<ImageEntry>, results: seq<EngineMsg>, ids: seq<string>)
    requires GetAll(l, results, ids)
    ensures RunIds(LaneAll(l, images, results).1, 0) == Answers(results, ids, images, l.toolSeq)
    decreases |results|
  {
    hide LaneOne, Blank, ImageFor, ImageMessage;
    if results != [] {
      OneResult(l, images, results[0], ids[0]);
      var (l1, one) := LaneOne(l, images, results[0]);
      ResultsAnswer(l1, images, results[1..], ids[1..]);
      var rest := LaneAll(l1, images, results[1..]).1;
      RunBehind(results[0], ids[0], ImageFor(images, l.toolSeq), one, rest);
    }
  }

  /** One result, perhaps blank, perhaps with pictures, in front of others. */
  lemma RunBehind(m: EngineMsg, id: string, picture: Option<ImageEntry>, one: seq<Message>, rest: seq<Message>)
    requires one == (if Blank(m.text) then [] else [Plain(Tool, m.text, 0).(toolCallId := id)])
                    + (if picture.Some? then [ImageMessage(picture.value)] else [])
    ensures RunIds(one + rest, 0)
         == (if Blank(m.text) then {} else {id}) + (if picture.Some? then {} else RunIds(rest, 0))
  {
    hide Blank;
    RunIdsShift(one, rest, 0);
    if |one| > 0 {
      assert (one + rest)[0] == one[0];
    }
    if |one| > 1 {
      assert (one + rest)[1] == one[1];
    }
    assert one == [] ==> one + rest == rest;
  }

  // ---------------------------------------------------------------- one round

  lemma {:induction false} IdentifiedNamed(n: nat, calls: seq<ToolCall>)
    requires forall k :: 0 <= k < |calls| ==> calls[k].id != ""
    ensures Identified(n, calls) == calls && Missing(calls) == 0
  {
    if calls != [] {
      var init, last := calls[..|calls| - 1], calls[|calls| - 1];
      assert last.id != "" by {
        assert last == calls[|calls| - 1];
      }
      hide RecordId;
      IdentifiedNamed(n, init);
      assert calls == init + [last];
    }
  }

  lemma {:induction false} IdentifiedUnnamed(n: nat, calls: seq<ToolCall>)
    requires forall k :: 0 <= k < |calls| ==> calls[k].id == ""
    ensures Missing(calls) == |calls| == |Identified(n, calls)|
    ensures forall k :: 0 <= k < |calls| ==> Identified(n, calls)[k].id == RecordId(n + k)
  {
    hide RecordId;
    if calls != [] {
      var init := calls[..|calls| - 1];
      IdentifiedUnnamed(n, init);
      assert forall k :: 0 <= k < |init| ==> Identified(n, calls)[k] == Identified(n, init)[k];
    }
  }

  lemma RecordIdsDiffer(m: nat, n: nat)
    ensures m != n ==> RecordId(m) != RecordId(n)
    ensures Drawn(RecordId(n)) && RecordId(n) != ""
  {
    assert |RecordId(m)| == m + 4 && |RecordId(n)| == n + 4;
  }

  lemma {:induction false} NamedGetAll(l: Lane, results: seq<EngineMsg>, ids: seq<string>)
    requires l.pendingImages.None? && |ids| == |results|
    requires forall k :: 0 <= k < |results| ==>
             results[k].role == Tool && ids[k] != "" && results[k].toolCallId == ids[k]
    ensures GetAll(l, results, ids)
    decreases |results|
  {
    if results != [] {
      NamedGetAll(l.(toolSeq := l.toolSeq + 1), results[1..], ids[1..]);
    }
  }

  lemma {:induction false} UnnamedGetAll(l: Lane, results: seq<EngineMsg>, ids: seq<string>)
    requires l.pendingImages.None? && |ids| == |results| && ids <= l.pendingCalls
    requires forall k :: 0 <= k < |results| ==> results[k].role == Tool && results[k].toolCallId == ""
    ensures GetAll(l, results, ids)
    decreases |results|
  {
    if results != [] {
      UnnamedGetAll(l.(toolSeq := l.toolSeq + 1, pendingCalls := l.pendingCalls[1..]), results[1..], ids[1..]);
    }
  }

  /** The lane after results that get their ids. */
  lemma {:induction false} LaneAfterResults(l: Lane, images: seq<ImageEntry>, results: seq<EngineMsg>, ids: seq<string>)
    requires GetAll(l, results, ids)
    ensures var l1 := LaneAll(l, images, results).0;
            && l1.toolSeq == l.toolSeq + |results| && l1.synthetic == l.synthetic
            && (results != [] || l.pendingImages.None? ==> l1.pendingImages.None?)
            && ((forall k :: 0 <= k < |results| ==> results[k].toolCallId != "") ==> l1.pendingCalls == l.pendingCalls)
            && ((forall k :: 0 <= k < |results| ==> results[k].toolCallId == "") ==>
                  |results| <= |l.pendingCalls| && l1.pendingCalls == l.pendingCalls[|results|..])
    decreases |results|
  {
    hide LaneOne;
    if results != [] {
      OneResult(l, images, results[0], ids[0]);
      LaneAfterResults(LaneOne(l, images, results[0]).0, images, results[1..], ids[1..]);
      assert forall k :: 1 <= k < |results| ==> results[k] == results[1..][k - 1];
      assert forall k :: 0 <= k < |results[1..]| ==> results[1..][k] == results[k + 1];
      if forall k :: 0 <= k < |results| ==> results[k].toolCallId == "" {
        assert l.pendingCalls[1..][|results| - 1..] == l.pendingCalls[|results|..];
      }
    }
  }

  predicate CallFree(out: seq<Message>) { forall m :: m in out ==> !Calls(m) }

  lemma {:induction false} ResultsCallFree(l: Lane, images: seq<ImageEntry>, results: seq<EngineMsg>)
    requires forall k :: 0 <= k < |results| ==> results[k].role == Tool
    ensures CallFree(LaneAll(l, images, results).1)
    decreases |results|
  {
    if results != [] {
      OneCallFree(l, images, results[0]);
      hide LaneOne;
      ResultsCallFree(LaneOne(l, images, results[0]).0, images, results[1..]);
    }
  }

  lemma OneCallFree(l: Lane, images: seq<ImageEntry>, m: EngineMsg)
    requires m.role == Tool
    ensures CallFree(LaneOne(l, images, m).1)
  {
    hide Blank, ImageFor, TakeResult;
  }

  lemma CallFreePaired(out: seq<Message>)
    requires CallFree(out)
    ensures WellPaired(out)
  {
  }

  /** An assistant message with calls, and what its results became. */
  lemma RoundPaired(am: Message, rest: seq<Message>)
    requires Calls(am) && CallFree(rest)
    ensures WellPaired([am] + rest) <==> CallIds(am.toolCalls) <= RunIds(rest, 0)
  {
    var out := [am] + rest;
    RunIdsShift([am], rest, 0);
    assert Answered(out, 0) <==> CallIds(am.toolCalls) <= RunIds(rest, 0);
    forall i | 1 <= i < |out|
      ensures Answered(out, i)
    {
      assert out[i] == rest[i - 1];
    }
  }

  lemma CoversIsSubset(calls: seq<ToolCall>, answers: set<string>)
    ensures CallIds(calls) <= answers <==> Covers(answers, Ids(calls))
  {
    assert forall k :: 0 <= k < |calls| ==> Ids(calls)[k] == calls[k].id;
    if Covers(answers, Ids(calls)) {
      forall id | id in CallIds(calls)
        ensures id in answers
      {
        var c :| c in calls && c.id == id;
        var k :| 0 <= k < |calls| && calls[k] == c;
        assert Ids(calls)[k] in Ids(calls);
      }
    } else {
      var id :| id in Ids(calls) && id !in answers;
      var k :| 0 <= k < |calls| && Ids(calls)[k] == id;
      assert calls[k] in calls;
    }
  }

  /** Not an id that is still to be drawn, from number n on. */
  predicate Older(id: string, n: nat) { Drawn(id) ==> |id| < n + 4 }

  /** Between turns: no pictures wait, and the queue holds ids that no result of a later round should take, exactly
      if there was a round with ids, or a write-back was refused between a call and its result. */
  predicate AtTurn(l: Lane, named: bool) {
    l.pendingImages.None? && (named <==> l.pendingCalls != []) && forall id :: id in l.pendingCalls ==>
        Older(id, l.synthetic)
  }

  /** The assistant message of a round, stored with the calls it ends up with. */
  lemma RoundHead(l: Lane, images: seq<ImageEntry>, t: Turn)
    requires ProperTurn(t) && t.Round?
    ensures var drawn := Identified(l.synthetic, t.asst.toolCalls);
            var (l0, am) := LaneOne(l, images, t.asst);
            && l0 == l.(synthetic := l.synthetic + Missing(t.asst.toolCalls),
                        pendingCalls := l.pendingCalls + Ids(drawn))
            && |am| == 1 && Calls(am[0]) && am[0].toolCalls == drawn
            && LaneAll(l, images, MsgsOf(t))
                == (LaneAll(l0, images, t.results).0, am + LaneAll(l0, images, t.results).1)
  {
    IdentifiedCount(l.synthetic, t.asst.toolCalls);
    hide Blank, ImageFor, Identified, Missing, Named, Unnamed;
    assert MsgsOf(t)[0] == t.asst && MsgsOf(t)[1..] == t.results;
  }

  lemma NamedIds(l: Lane, t: Turn)
    requires ProperTurn(t) && t.Round? && Named(t)
    ensures Identified(l.synthetic, t.asst.toolCalls) == t.asst.toolCalls && Missing(t.asst.toolCalls) == 0
    ensures var ids := Ids(t.asst.toolCalls);
            && (forall k :: 0 <= k < |ids| ==>
                  t.results[k].role == Tool && ids[k] != "" && t.results[k].toolCallId == ids[k] && !Drawn(ids[k]))
            && (forall j, k :: 0 <= j < k < |ids| ==> ids[j] != ids[k])
  {
    IdentifiedNamed(l.synthetic, t.asst.toolCalls);
  }

  lemma PairedIfAnswered(l: Lane, images: seq<ImageEntry>, results: seq<EngineMsg>, ids: seq<string>, am: Message)
    requires Calls(am) && GetAll(l, results, ids) && |ids| == |results|
    requires forall k :: 0 <= k < |results| ==> results[k].role == Tool
    ensures WellPaired([am] + LaneAll(l, images, results).1)
       <==> Covers(Answers(results, ids, images, l.toolSeq), Ids(am.toolCalls))
  {
    hide LaneAll, GetAll, Answers, Answered;
    ResultsAnswer(l, images, results, ids);
    ResultsCallFree(l, images, results);
    RoundPaired(am, LaneAll(l, images, results).1);
    CoversIsSubset(am.toolCalls, Answers(results, ids, images, l.toolSeq));
  }

  /** The lane behind the assistant message of a round. */
  function Asked(l: Lane, t: Turn): Lane
    requires t.Round?
  {
    l.(synthetic := l.synthetic + Missing(t.asst.toolCalls),
       pendingCalls := l.pendingCalls + Ids(Identified(l.synthetic, t.asst.toolCalls)))
  }

  /** A round whose results get these ids is well-paired when they cover the ids of its calls. */
  lemma RoundOutcome(l: Lane, images: seq<ImageEntry>, t: Turn, ids: seq<string>)
    requires ProperTurn(t) && t.Round? && |ids| == |t.results| && GetAll(Asked(l, t), t.results, ids)
    ensures var out := LaneAll(l, images, MsgsOf(t)).1;
            WellPaired(out) <==>
            Covers(Answers(t.results, ids, images, l.toolSeq), Ids(Identified(l.synthetic, t.asst.toolCalls)))
    ensures var l1 := LaneAll(l, images, MsgsOf(t)).0;
            && l1.toolSeq == l.toolSeq + |t.results| && l1.pendingImages.None? && l1.synthetic == Asked(l, t).synthetic
            && (Named(t) ==> l1.pendingCalls == Asked(l, t).pendingCalls)
            && (Unnamed(t) ==> |t.results| <= |Asked(l, t).pendingCalls|
                               && l1.pendingCalls == Asked(l, t).pendingCalls[|t.results|..])
  {
    hide LaneOne, LaneAll, MsgsOf, Blank, ImageFor, Drawn, Identified, Missing, Answers, Answered, GetAll, Covers;
    RoundHead(l, images, t);
    var (l0, am) := LaneOne(l, images, t.asst);
    LaneAfterResults(l0, images, t.results, ids);
    PairedIfAnswered(l0, images, t.results, ids, am[0]);
    assert am == [am[0]];
  }

  lemma NamedRound(l: Lane, images: seq<ImageEntry>, t: Turn, named: bool)
    requires ProperTurn(t) && t.Round? && Named(t) && AtTurn(l, named)
    ensures var (l1, out) := LaneAll(l, images, MsgsOf(t));
            && AtTurn(l1, true) && l1.toolSeq == l.toolSeq + |t.results|
            && (WellPaired(out) <==> Compact(t.results, images, l.toolSeq))
  {
    hide LaneAll, MsgsOf, Blank, ImageFor, Drawn, Identified, Missing, Answers, Answered, WellPaired, GetAll, Covers,
         Compact;
    var ids := Ids(t.asst.toolCalls);
    NamedIds(l, t);
    NamedGetAll(Asked(l, t), t.results, ids);
    RoundOutcome(l, images, t, ids);
    AnswersAll(t.results, ids, images, l.toolSeq);
    assert forall id :: id in ids ==> exists k :: 0 <= k < |ids| && ids[k] == id;
  }

  /** A round without ids: drawn ids answer one another exactly if nothing else waits in the queue. */
  lemma UnnamedRound(l: Lane, images: seq<ImageEntry>, t: Turn, named: bool)
    requires ProperTurn(t) && t.Round? && Unnamed(t) && AtTurn(l, named)
    ensures var (l1, out) := LaneAll(l, images, MsgsOf(t));
            && (!named ==> AtTurn(l1, false) && l1.toolSeq == l.toolSeq + |t.results|)
            && (WellPaired(out) <==> !named && Compact(t.results, images, l.toolSeq))
  {
    hide LaneAll, MsgsOf, Blank, ImageFor, Drawn, Identified, Missing, Answers, Answered, WellPaired, GetAll, Covers,
         Compact, RecordId;
    var n, q := |t.results|, l.pendingCalls;
    var own := UnnamedIds(l, t);
    var ids := (q + own)[..n];
    UnnamedGetAll(Asked(l, t), t.results, ids);
    RoundOutcome(l, images, t, ids);
    if named {
      LastUnanswered(l, t.results, images, own, ids);
    } else {
      assert q + own == own && ids == own && own[n..] == [];
      AnswersAll(t.results, ids, images, l.toolSeq);
    }
  }

  lemma UnnamedIds(l: Lane, t: Turn) returns (own: seq<string>)
    requires ProperTurn(t) && t.Round? && Unnamed(t)
    ensures own == Ids(Identified(l.synthetic, t.asst.toolCalls)) && |own| == |t.results| > 0
    ensures forall k :: 0 <= k < |own| ==> own[k] == RecordId(l.synthetic + k)
    ensures forall j, k :: 0 <= j < k < |own| ==> own[j] != own[k]
  {
    hide RecordId;
    IdentifiedUnnamed(l.synthetic, t.asst.toolCalls);
    own := Ids(Identified(l.synthetic, t.asst.toolCalls));
    forall j, k | 0 <= j < k < |own|
      ensures own[j] != own[k]
    {
      RecordIdsDiffer(l.synthetic + j, l.synthetic + k);
    }
  }

  /** With other ids waiting in front, the last drawn id goes to no result of its round. */
  lemma LastUnanswered(l: Lane, results: seq<EngineMsg>, images: seq<ImageEntry>, own: seq<string>, ids: seq<string>)
    requires l.pendingCalls != [] && forall id :: id in l.pendingCalls ==> Older(id, l.synthetic)
    requires |own| == |ids| == |results| > 0 && ids == (l.pendingCalls + own)[..|own|]
    requires forall k :: 0 <= k < |own| ==> own[k] == RecordId(l.synthetic + k)
    ensures !Covers(Answers(results, ids, images, l.toolSeq), own)
  {
    var last, q := own[|own| - 1], l.pendingCalls;
    AnswersAmong(results, ids, images, l.toolSeq);
    RecordIdsDiffer(0, l.synthetic + |own| - 1);
    assert |last| == l.synthetic + |own| + 3;
    hide RecordId, Drawn, Answers;
    forall k | 0 <= k < |ids|
      ensures ids[k] != last
    {
      if k < |q| {
        assert ids[k] in q;
      } else {
        RecordIdsDiffer(l.synthetic + |own| - 1, l.synthetic + (k - |q|));
      }
    }
    assert last in own && last !in ids;
  }

  lemma SayRound(l: Lane, images: seq<ImageEntry>, t: Turn)
    requires ProperTurn(t) && t.Say?
    ensures LaneAll(l, images, MsgsOf(t)).0 == l && CallFree(LaneAll(l, images, MsgsOf(t)).1)
    ensures forall m :: m in LaneAll(l, images, MsgsOf(t)).1 ==> m.role != Tool
  {
    hide Blank;
    assert l.pendingCalls + Ids([]) == l.pendingCalls;
    assert MsgsOf(t)[1..] == [];
  }

  // ---------------------------------------------------------------- all rounds

  lemma {:induction false} StartsWithNoResult(l: Lane, images: seq<ImageEntry>, turns: seq<Turn>)
    requires forall t :: t in turns ==> ProperTurn(t)
    ensures var out := LaneAll(l, images, Flatten(turns)).1; out == [] || out[0].role != Tool
    decreases |turns|
  {
    if turns != [] {
      var t, rest := turns[0], turns[1..];
      LaneAllAppend(l, images, MsgsOf(t), Flatten(rest));
      StartsWithNoResult(LaneAll(l, images, MsgsOf(t)).0, images, rest);
      if t.Say? {
        SayRound(l, images, t);
        hide LaneAll;
        assert LaneAll(l, images, MsgsOf(t)).1 != [] ==>
            LaneAll(l, images, MsgsOf(t)).1[0] in LaneAll(l, images, MsgsOf(t)).1;
      } else {
        FirstIsAssistant(l, images, t);
      }
    }
  }

  lemma FirstIsAssistant(l: Lane, images: seq<ImageEntry>, t: Turn)
    requires ProperTurn(t) && t.Round?
    ensures var out := LaneAll(l, images, MsgsOf(t)).1; out != [] && out[0].role == Assistant
  {
    hide Blank, ImageFor;
    var (l0, am) := LaneOne(l, images, t.asst);
    IdentifiedCount(l.synthetic, t.asst.toolCalls);
    assert |am| == 1 && am[0].role == Assistant;
    assert MsgsOf(t)[0] == t.asst;
  }

  lemma {:induction false} LanePairs(l: Lane, images: seq<ImageEntry>, turns: seq<Turn>, named: bool)
    requires AtTurn(l, named) && forall t :: t in turns ==> ProperTurn(t)
    ensures WellPaired(LaneAll(l, images, Flatten(turns)).1) <==> Unbroken(turns, images, l.toolSeq, named)
    decreases |turns|
  {
    hide LaneAll, Compact, Answered;
    if turns == [] {
      assert LaneAll(l, images, []) == (l, []) by {
        LaneOfNothing(l, images);
      }
    } else {
      var t, rest := turns[0], turns[1..];
      var (l1, out) := LaneAll(l, images, MsgsOf(t));
      var more := LaneAll(l1, images, Flatten(rest)).1;
      LaneAllAppend(l, images, MsgsOf(t), Flatten(rest));
      StartsWithNoResult(l1, images, rest);
      PairedTogether(out, more);
      match t
      case Say(_) =>
        SayRound(l, images, t);
        CallFreePaired(out);
        LanePairs(l1, images, rest, named);
      case Round(asst, results) =>
        if Named(t) {
          NamedRound(l, images, t, named);
          LanePairs(l1, images, rest, true);
        } else {
          UnnamedRound(l, images, t, named);
          if !named {
            LanePairs(l1, images, rest, false);
          }
        }
    }
  }

  lemma LaneOfNothing(l: Lane, images: seq<ImageEntry>)
    ensures LaneAll(l, images, []) == (l, [])
  {
  }

  lemma PairedTogether(a: seq<Message>, b: seq<Message>)
    requires b == [] || b[0].role != Tool
    ensures WellPaired(a + b) <==> WellPaired(a) && WellPaired(b)
  {
    if WellPaired(a + b) {
      WellPairedSplit(a, b);
    } else if WellPaired(a) && WellPaired(b) {
      WellPairedAppend(a, b);
    }
  }

  lemma {:induction false} UnmarkedAt(out: seq<Message>, k: nat)
    requires k < |out|
    ensures |Unmarked(out)| == |out| && Bare(Unmarked(out)[k]) == Bare(out[k])
    decreases |out|
  {
    if k < |out| - 1 {
      UnmarkedAt(out[..|out| - 1], k);
    } else if k > 0 {
      UnmarkedAt(out[..|out| - 1], 0);
    }
  }

  lemma BareUnmarked(out: seq<Message>)
    ensures BareAll(Unmarked(out)) == BareAll(out)
  {
    hide Unmarked, Bare;
    forall k | 0 <= k < |out|
      ensures |Unmarked(out)| == |out| && Bare(Unmarked(out)[k]) == Bare(out[k])
    {
      UnmarkedAt(out, k);
    }
    assert out == [] ==> Unmarked(out) == [] by {
      UnmarkedNothing();
    }
  }

  lemma UnmarkedNothing()
    ensures Unmarked([]) == []
  {
  }

  /** Over a whole run, snapshots arriving whenever they like: if the engine's new messages are made of complete
      rounds, what the run added to the session is well-paired exactly when no result is blank, no pictures come
      between sibling results, and no round without ids follows one with ids. A session that was well-paired
      then stays so. */
  lemma RunPairs(b: Bridge, seen: seq<EngineMsg>, es: seq<Event>, turns: seq<Turn>, window: seq<Message>)
    requires Proper(b, seen, es) && b.writeLen == |seen| && b.writeBase <= |seen|
    requires b.lane.pendingCalls == [] && b.lane.pendingImages.None?
    requires LastSeen(seen, es) == seen + Flatten(turns) && forall t :: t in turns ==> ProperTurn(t)
    ensures var out := RunEvents(b, es).1; var images := RegisterAll(b, es).images;
            && (WellPaired(out) <==> Unbroken(turns, images, b.lane.toolSeq, false))
            && (WellPaired(window) && WellPaired(out) ==> WellPaired(window + out))
  {
    hide Proper, RunEvents, EmitRange, LaneAll, Unbroken, Answered, Unmarked, BareAll;
    RunIsOneWrite(b, seen, es);
    RegisterAllKeepsLane(b, es);
    var last, b1 := LastSeen(seen, es), RegisterAll(b, es);
    var out, whole := RunEvents(b, es).1, EmitRange(b1, last, |seen|, |last|).1;
    BareUnmarked(out);
    BareUnmarked(whole);
    EmitRangeLane(b1, last, |seen|, |last|);
    assert last[|seen|..|last|] == Flatten(turns);
    WellPairedBare(out);
    LanePairs(b1.lane, b1.images, turns, false);
    if WellPaired(window) && WellPaired(out) {
      WellPairedAppend(window, out);
    }
  }

  lemma {:induction false} RegisterAllKeepsLane(b: Bridge, es: seq<Event>)
    ensures RegisterAll(b, es).lane == b.lane
    decreases |es|
  {
    if es != [] {
      RegisterAllKeepsLane(Register(b, es[0]), es[1..]);
    }
  }
}
