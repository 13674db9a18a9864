/** What a write-back puts into the session besides texts: calls, pictures, finish marks; and what an estimate is made
    of. */
module WriteBackContents {
  import opened Wrappers
  import opened Messages
  import opened SessionLog
  import opened EventBridge
  import opened WriteBackRuns
  import opened WriteBackUsage
  import opened WriteBackPairing

  // ---------------------------------------------------------------- calls

  /** The call keeps its name and arguments, and its id if it has one; else it gets the next one that is drawn. */
  predicate Stands(c: ToolCall, n: nat, calls: seq<ToolCall>, k: nat)
    requires k < |calls|
  {
    && c.name == calls[k].name && c.arguments == calls[k].arguments
    && c.id == if calls[k].id != "" then calls[k].id else RecordId(n + Unnamed(calls[..k]))
  }

  /** The calls as the engine has them, one for one. */
  lemma {:induction false} IdentifiedAt(n: nat, calls: seq<ToolCall>)
    ensures |Identified(n, calls)| == |calls| && Missing(calls) == Unnamed(calls)
    ensures forall k :: 0 <= k < |calls| ==> Stands(Identified(n, calls)[k], n, calls, k)
  {
    hide RecordId, Identified, Missing, Unnamed;
    if calls == [] {
      NothingIdentified(n);
    } else {
      var init, last := calls[..|calls| - 1], calls[|calls| - 1];
      IdentifiedAt(n, init);
      UnnamedSnoc(init, last);
      IdentifiedNext(n, calls);
      assert calls == init + [last];
      forall k | 0 <= k < |calls|
        ensures Stands(Identified(n, calls)[k], n, calls, k)
      {
        if k < |init| {
          assert Stands(Identified(n, init)[k], n, init, k) && calls[..k] == init[..k];
        } else {
          assert calls[..k] == init;
        }
      }
    }
  }

  lemma NothingIdentified(n: nat)
    ensures Identified(n, []) == [] && Missing([]) == Unnamed([]) == 0
  {
  }

  lemma IdentifiedNext(n: nat, calls: seq<ToolCall>)
    requires calls != []
    ensures var init, last := calls[..|calls| - 1], calls[|calls| - 1];
            && Identified(n, calls)
            == Identified(n, init) + [if last.id == "" then last.(id := RecordId(n + Missing(init))) else last]
            && Missing(calls) == Missing(init) + if last.id == "" then 1 else 0
  {
    hide RecordId;
  }

  /** Calls without an id. */
  function Unnamed(calls: seq<ToolCall>): nat {
    if calls == [] then 0 else (if calls[0].id == "" then 1 else 0) + Unnamed(calls[1..])
  }

  lemma {:induction false} UnnamedSnoc(calls: seq<ToolCall>, c: ToolCall)
    ensures Unnamed(calls + [c]) == Unnamed(calls) + if c.id == "" then 1 else 0
  {
    if calls == [] {
      assert [] + [c] == [c] && [c][1..] == [];
    } else {
      UnnamedSnoc(calls[1..], c);
      assert (calls + [c])[1..] == calls[1..] + [c];
    }
  }

  /** An assistant message is stored with the text, the reasoning, and the calls, one for one, that the engine has. */
  lemma AssistantStored(b: Bridge, msgs: seq<EngineMsg>, i: nat)
    requires i < |msgs| && msgs[i].role == Assistant
    ensures var m := Prepare(b, msgs, i).1;
            && m.role == Assistant && m.content == msgs[i].text && m.reasoning == msgs[i].reasoning
            && m.images == [] && m.toolCallId == "" && |m.toolCalls| == |msgs[i].toolCalls|
            && forall k :: 0 <= k < |m.toolCalls| ==>
                 && m.toolCalls[k].name == msgs[i].toolCalls[k].name
                 && m.toolCalls[k].arguments == msgs[i].toolCalls[k].arguments
                 && (msgs[i].toolCalls[k].id != "" ==> m.toolCalls[k].id == msgs[i].toolCalls[k].id)
                 && m.toolCalls[k].id != ""
  {
    var calls := msgs[i].toolCalls;
    IdentifiedAt(b.lane.synthetic, calls);
    assert forall k :: 0 <= k < |calls| ==> Stands(Identified(b.lane.synthetic, calls)[k], b.lane.synthetic, calls, k);
    hide TakeUsage, Identified, Missing, Unnamed;
  }

  /** A result is stored with its own text, under the id it names, or the oldest one that waits; any other message with
      its own role and text and nothing else. */
  lemma OthersStored(b: Bridge, msgs: seq<EngineMsg>, i: nat)
    requires i < |msgs| && msgs[i].role != Assistant
    ensures var m := Prepare(b, msgs, i).1;
            && m.role == msgs[i].role && m.content == msgs[i].text && m.reasoning == "" && m.images == []
            && m.toolCalls == [] && m.usage == None && m.finishReason == ""
            && (m.role != Tool ==> m.toolCallId == "" && Prepare(b, msgs, i).0 == b)
            && (m.role == Tool ==>
                  m.toolCallId == if msgs[i].toolCallId != "" then msgs[i].toolCallId
                                  else if b.lane.pendingCalls != [] then b.lane.pendingCalls[0] else "")
  {
    hide ImageFor;
  }

  // ---------------------------------------------------------------- pictures

  /** The pictures that go with a result are those of the first entry of its position that has any. */
  lemma {:induction false} ImageForIs(images: seq<ImageEntry>, toolSeq: nat)
    ensures ImageFor(images, toolSeq).None? <==>
            forall k :: 0 <= k < |images| && images[k].toolSeq == toolSeq ==> images[k].blocks == []
    ensures ImageFor(images, toolSeq).Some? ==>
              exists k :: FirstWith(images, k, toolSeq) && images[k] == ImageFor(images, toolSeq).value
  {
    if images != [] {
      var rest := images[1..];
      ImageForIs(rest, toolSeq);
      assert forall k :: 0 < k < |images| ==> images[k] == rest[k - 1];
      assert forall k :: 0 <= k < |rest| ==> rest[k] == images[k + 1];
      if images[0].toolSeq == toolSeq && images[0].blocks != [] {
        assert FirstWith(images, 0, toolSeq);
      } else if ImageFor(images, toolSeq).Some? {
        var k :| FirstWith(rest, k, toolSeq) && rest[k] == ImageFor(rest, toolSeq).value;
        assert FirstWith(images, k + 1, toolSeq);
      }
    }
  }

  predicate FirstWith(images: seq<ImageEntry>, k: int, toolSeq: nat) {
    && 0 <= k < |images| && images[k].toolSeq == toolSeq && images[k].blocks != []
    && forall j :: 0 <= j < k && images[j].toolSeq == toolSeq ==> images[j].blocks == []
  }

  /** What picture messages show, in order: whose pictures, and which. */
  function Shown(out: seq<Message>): seq<(Role, string, seq<Image>)> {
    if out == [] then [] else ShownOne(out[0]) + Shown(out[1..])
  }

  function ShownOne(m: Message): seq<(Role, string, seq<Image>)> {
    if m.images != [] then [(m.role, m.content, m.images)] else []
  }

  /** What is to be shown behind the results among positions i..n: the pictures of their positions, all of each. */
  function ToShow(images: seq<ImageEntry>, toolSeq: nat, msgs: seq<EngineMsg>, i: nat, n: nat)
    : seq<(Role, string, seq<Image>)>
    requires i <= n <= |msgs|
    decreases n - i
  {
    if i == n then []
    else if msgs[i].role != Tool then ToShow(images, toolSeq, msgs, i + 1, n)
    else ToShowOne(ImageFor(images, toolSeq)) + ToShow(images, toolSeq + 1, msgs, i + 1, n)
  }

  function ToShowOne(e: Option<ImageEntry>): seq<(Role, string, seq<Image>)> {
    if e.Some? then [(User, "以下是工具 " + e.value.toolName, e.value.blocks)] else []
  }

  lemma {:induction false} ShownAppend(a: seq<Message>, b: seq<Message>)
    ensures Shown(a + b) == Shown(a) + Shown(b)
  {
    hide ShownOne;
    if a == [] {
      assert a + b == b;
    } else {
      ShownAppend(a[1..], b);
      assert (a + b)[0] == a[0] && (a + b)[1..] == a[1..] + b;
      var x, y, z := ShownOne(a[0]), Shown(a[1..]), Shown(b);
      assert x + (y + z) == x + y + z;
    }
  }

  lemma OneShows(b: Bridge, msgs: seq<EngineMsg>, i: nat)
    requires i < |msgs| && b.lane.pendingImages.None?
    ensures var (b1, one) := EmitOne(b, msgs, i);
            && Shown(one) == (if msgs[i].role == Tool then ToShowOne(ImageFor(b.images, b.lane.toolSeq)) else [])
            && b1.images == b.images && b1.lane.pendingImages.None?
            && b1.lane.toolSeq == b.lane.toolSeq + if msgs[i].role == Tool then 1 else 0
  {
    ImageForIs(b.images, b.lane.toolSeq);
    hide TakeUsage, Identified, Missing, ImageFor, Storable;
    var (b1, m) := Prepare(b, msgs, i);
    var one := if Storable(m) then [m] else [];
    assert Shown(one) == [];
    if m.role == Tool && HasImages(b1.lane) {
      ShownAppend(one, [ImageMessage(b1.lane.pendingImages.value)]);
    }
  }

  /** Behind a write every result has its pictures in the session, all of them and in order, under the name of its tool,
      and no others are there. */
  lemma {:induction false} PicturesWritten(b: Bridge, msgs: seq<EngineMsg>, i: nat, n: nat)
    requires i <= n <= |msgs| && b.lane.pendingImages.None?
    ensures Shown(EmitRange(b, msgs, i, n).1) == ToShow(b.images, b.lane.toolSeq, msgs, i, n)
    decreases n - i
  {
    hide EmitOne, Shown, ToShowOne, ImageFor;
    if i == n {
      NothingShown();
    } else {
      var (b1, one) := EmitOne(b, msgs, i);
      OneShows(b, msgs, i);
      PicturesWritten(b1, msgs, i + 1, n);
      ShownAppend(one, EmitRange(b1, msgs, i + 1, n).1);
      var rest := Shown(EmitRange(b1, msgs, i + 1, n).1);
      assert [] + rest == rest;
    }
  }

  lemma NothingShown()
    ensures Shown([]) == []
  {
  }

  // ---------------------------------------------------------------- finish marks

  /** Every mark that is set says "stop". */
  lemma {:induction false} MarksSayStop(b: Bridge, msgs: seq<EngineMsg>, i: nat, n: nat)
    requires i <= n <= |msgs|
    ensures forall m :: m in EmitRange(b, msgs, i, n).1 ==> m.finishReason == "" || m.finishReason == "stop"
    decreases n - i
  {
    if i < n {
      MarkSaysStop(b, msgs, i);
      hide EmitOne;
      MarksSayStop(EmitOne(b, msgs, i).0, msgs, i + 1, n);
    }
  }

  lemma MarkSaysStop(b: Bridge, msgs: seq<EngineMsg>, i: nat)
    requires i < |msgs|
    ensures forall m :: m in EmitOne(b, msgs, i).1 ==> m.finishReason == "" || m.finishReason == "stop"
  {
    hide TakeUsage, TakeResult, QueueIds, Storable;
  }

  // ---------------------------------------------------------------- estimates

  /** The estimate of a call's usage: as prompt what stands in front of its answer, each message by its text; as
      completion the answer's text and reasoning; in total both; nothing cached; and marked as an estimate. */
  lemma EstimateSays(msgs: seq<EngineMsg>, i: nat)
    requires i < |msgs|
    ensures var u := Estimate(msgs, i);
            && u.completion == EstimateTokens(msgs[i].text) + EstimateTokens(msgs[i].reasoning)
            && u.total == u.prompt + u.completion && u.cached == 0 && u.reasoning == 0 && u.estimated
            && (i == 0 ==> u.prompt == 0)
            && (i > 0 ==> u.prompt == Estimate(msgs, i - 1).prompt + EstimateTokens(msgs[i - 1].text))
  {
  }

  /** So the prompt of a later call is larger by what was said in between, and does not depend on its own answer. */
  lemma {:induction false} PromptGrows(a: seq<EngineMsg>, b: seq<EngineMsg>, i: nat)
    requires i < |a| && i < |b| && a[..i] == b[..i]
    ensures Estimate(a, i).prompt == Estimate(b, i).prompt >= i
  {
    if i > 0 {
      assert a[..i - 1] == a[..i][..i - 1] && b[..i - 1] == b[..i][..i - 1];
      assert a[i - 1] == a[..i][i - 1] == b[..i][i - 1] == b[i - 1];
      PromptGrows(a, b, i - 1);
      EstimateSays(a, i);
      EstimateSays(b, i);
      hide Estimate, EstimateTokens;
      TokensPositive(a[i - 1].text);
    }
  }

  lemma TokensPositive(s: string)
    ensures EstimateTokens(s) >= 1
  {
  }

  // ---------------------------------------------------------------- a run from its beginning

  /** Nothing of an earlier run is left when one begins: whatever the bridge held, over the whole run pairing comes out
      by this run's rounds and pictures alone, counted from the first result. */
  lemma BegunRunPairs(b: Bridge, seen: seq<EngineMsg>, es: seq<WriteBackRuns.Event>, turns: seq<Turn>,
                      window: seq<Message>)
    requires Proper(AfterBeginRun(b, |seen|), seen, es)
    requires LastSeen(seen, es) == seen + Flatten(turns) && forall t :: t in turns ==> ProperTurn(t)
    ensures var begun := AfterBeginRun(b, |seen|);
            var out := RunEvents(begun, es).1;
            && (WellPaired(out) <==> Unbroken(turns, RegisterAll(begun, es).images, 0, false))
            && (WellPaired(window) && WellPaired(out) ==> WellPaired(window + out))
  {
    hide Proper, RunEvents, RegisterAll, Unbroken, Flatten, WellPaired;
    RunPairs(AfterBeginRun(b, |seen|), seen, es, turns, window);
  }

  /** And each answer carries what was reported for its own call in this run, counted from the first, or nothing. */
  lemma BegunRunCarries(b: Bridge, seen: seq<EngineMsg>, es: seq<WriteBackRuns.Event>, calls: map<nat, CallUsage>)
    requires Proper(AfterBeginRun(b, |seen|), seen, es)
    requires forall k :: (if k in calls then Some(calls[k]) else None) == ReportOf(map[], es, k)
    ensures seen <= LastSeen(seen, es)
    ensures var last := LastSeen(seen, es);
            Carried(RunEvents(AfterBeginRun(b, |seen|), es).1) == Due(calls, 0, last, |seen|, |last|)
  {
    hide Proper, RunEvents, RegisterAll, Carried, Due, ReportOf;
    var begun := AfterBeginRun(b, |seen|);
    RunCarries(begun, seen, es);
    var last, known := LastSeen(seen, es), RegisterAll(begun, es).ledger.callUsage;
    forall k
      ensures (k in known <==> k in calls) && (k in known ==> known[k] == calls[k])
    {
      assert (if k in known then Some(known[k]) else None) == ReportOf(map[], es, k);
    }
    assert known == calls;
  }

  /** The iterations counted are one more than the highest reported, or what had been counted before. */
  lemma {:induction false} IterationsCounted(b: Bridge, es: seq<WriteBackRuns.Event>)
    ensures var n := RegisterAll(b, es).iterations;
            && n >= b.iterations && (forall e :: e in es && e.UsageSeen? ==> n > e.iteration)
            && (n > b.iterations ==> exists e :: e in es && e.UsageSeen? && n == e.iteration + 1)
    decreases |es|
  {
    if es != [] {
      OneCounted(b, es[0]);
      hide Register;
      IterationsCounted(Register(b, es[0]), es[1..]);
      assert es == [es[0]] + es[1..];
      assert forall e :: e in es <==> e == es[0] || e in es[1..];
      if RegisterAll(b, es).iterations == Register(b, es[0]).iterations > b.iterations {
        assert es[0] in es && es[0].UsageSeen?;
      }
    }
  }

  lemma OneCounted(b: Bridge, e: WriteBackRuns.Event)
    ensures var n := Register(b, e).iterations;
            n == if e.UsageSeen? && e.iteration + 1 > b.iterations then e.iteration + 1 else b.iterations
  {
  }
}
