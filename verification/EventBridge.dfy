/** The bridge that writes an engine run back into the session: message snapshots arrive while the run goes
    on, and only what lies behind a watermark is written. Timestamps are left to the clock. */
module EventBridge {
  import opened Wrappers
  import opened Text
  import opened Messages
  import opened SessionLog

  /** A message of the engine's in-memory conversation, its text blocks already joined. */
  datatype EngineMsg = EngineMsg(role: Role, text: string, reasoning: string, toolCalls: seq<ToolCall>,
                                 toolCallId: string)

  /** Pictures read by the tool execution with this sequence number. */
  datatype ImageEntry = ImageEntry(toolSeq: nat, toolName: string, blocks: seq<Image>)

  /** What the provider said about one LLM call: its usage, or nothing; then it is estimated later on, and the
      token ledger will take the record of the estimate or refuse it. */
  datatype CallUsage = Exact(usage: Usage) | ToEstimate(recorded: bool)

  const ZERO: Usage := Usage(0, 0, 0, 0, 0, false)

  function Add(t: Usage, u: Usage): Usage {
    Usage(t.prompt + u.prompt, t.completion + u.completion, t.total + u.total, t.cached + u.cached,
          t.reasoning + u.reasoning, t.estimated)
  }

  /** The n-th record id drawn; all that matters is that no two are equal. */
  function RecordId(n: nat): string { "syn_" + seq(n, _ => '0') }

  /** Usage accounting: the position of the next assistant message, what is known about the calls by
      iteration, the running total, and the records that the token ledger took, and those that it refused. */
  datatype Ledger = Ledger(asstSeq: nat, callUsage: map<nat, CallUsage>, totals: Usage,
                           booked: multiset<Usage>, unbooked: multiset<Usage>)

  /** Pairing of calls and results: record ids drawn so far, position of the next tool result, ids waiting for
      a result, and pictures waiting to follow theirs. */
  datatype Lane = Lane(synthetic: nat, toolSeq: nat, pendingCalls: seq<string>, pendingImages: Option<ImageEntry>)

  datatype Bridge = Bridge(
    writeBase: nat, writeLen: nat, ledger: Ledger, lane: Lane, images: seq<ImageEntry>, finished: bool, iterations: nat)

  // ---------------------------------------------------------------- one message

  function PromptTokens(msgs: seq<EngineMsg>, i: nat): nat
    requires i <= |msgs|
  {
    if i == 0 then 0 else PromptTokens(msgs, i - 1) + EstimateTokens(msgs[i - 1].text)
  }

  /** Estimated usage of the call that answered with message i: everything before it as prompt. */
  function Estimate(msgs: seq<EngineMsg>, i: nat): Usage
    requires i < |msgs|
  {
    var prompt := PromptTokens(msgs, i);
    var completion := EstimateTokens(msgs[i].text) + EstimateTokens(msgs[i].reasoning);
    Usage(prompt, completion, prompt + completion, 0, 0, true)
  }

  function UsageOf(c: CallUsage, msgs: seq<EngineMsg>, i: nat): Usage
    requires i < |msgs|
  {
    if c.Exact? then c.usage else Estimate(msgs, i)
  }

  /** Calls with ids: a missing one is replaced by a fresh record id, from number n on. */
  function Identified(n: nat, calls: seq<ToolCall>): seq<ToolCall> {
    if calls == [] then []
    else
      var init, c := calls[..|calls| - 1], calls[|calls| - 1];
      Identified(n, init) + [if c.id == "" then c.(id := RecordId(n + Missing(init))) else c]
  }

  function Missing(calls: seq<ToolCall>): nat {
    if calls == [] then 0 else Missing(calls[..|calls| - 1]) + if calls[|calls| - 1].id == "" then 1 else 0
  }

  function Ids(calls: seq<ToolCall>): seq<string> {
    seq(|calls|, k requires 0 <= k < |calls| => calls[k].id)
  }

  function ImageFor(images: seq<ImageEntry>, toolSeq: nat): Option<ImageEntry> {
    if images == [] then None
    else if images[0].toolSeq == toolSeq && images[0].blocks != [] then Some(images[0])
    else ImageFor(images[1..], toolSeq)
  }

  function ImageMessage(e: ImageEntry): Message {
    Plain(User, "以下是工具 " + e.toolName, 0).(images := e.blocks)
  }

  /** One usage handed to the ledger; a refusal does not keep it out of the running total. */
  function Book(l: Ledger, u: Usage, recorded: bool): Ledger {
    l.(totals := Add(l.totals, u),
       booked := if recorded then l.booked + multiset{u} else l.booked,
       unbooked := if recorded then l.unbooked else l.unbooked + multiset{u})
  }

  /** The usage of the next assistant message, consumed once; an estimated one is booked here. */
  function TakeUsage(l: Ledger, msgs: seq<EngineMsg>, i: nat): (Ledger, Option<Usage>)
    requires i < |msgs|
  {
    var next := l.(asstSeq := l.asstSeq + 1, callUsage := l.callUsage - {l.asstSeq});
    if l.asstSeq !in l.callUsage then (next, None)
    else
      var c := l.callUsage[l.asstSeq];
      var u := UsageOf(c, msgs, i);
      (if c.ToEstimate? then Book(next, u, c.recorded) else next, Some(u))
  }

  /** Queues the calls of an assistant message; one without an id gets a fresh one. */
  function QueueIds(l: Lane, calls: seq<ToolCall>): (Lane, seq<ToolCall>) {
    var named := Identified(l.synthetic, calls);
    (l.(synthetic := l.synthetic + Missing(calls), pendingCalls := l.pendingCalls + Ids(named)), named)
  }

  /** The id a result is stored under: its own, else the oldest waiting one; and the pictures of its position. */
  function TakeResult(l: Lane, images: seq<ImageEntry>, toolCallId: string): (Lane, string) {
    var fromQueue := toolCallId == "" && l.pendingCalls != [];
    var image := ImageFor(images, l.toolSeq);
    (l.(toolSeq := l.toolSeq + 1,
        pendingCalls := if fromQueue then l.pendingCalls[1..] else l.pendingCalls,
        pendingImages := if image.Some? then image else l.pendingImages),
     if fromQueue then l.pendingCalls[0] else toolCallId)
  }

  /** Message i of the engine as a session message, with the bridge's bookkeeping for it. */
  function Prepare(b: Bridge, msgs: seq<EngineMsg>, i: nat): (Bridge, Message)
    requires i < |msgs|
  {
    var m := msgs[i];
    match m.role
    case Assistant =>
      var (ledger, usage) := TakeUsage(b.ledger, msgs, i);
      var (lane, calls) := QueueIds(b.lane, m.toolCalls);
      var answer := i == |msgs| - 1 && m.toolCalls == [] && b.finished;
      (b.(ledger := ledger, lane := lane),
       Message(Assistant, m.text, m.reasoning, [], 0, "", calls, if answer then "stop" else "", usage))
    case Tool =>
      var (lane, id) := TakeResult(b.lane, b.images, m.toolCallId);
      (b.(lane := lane), Plain(Tool, m.text, 0).(toolCallId := id))
    case role => (b, Plain(role, m.text, 0))
  }

  function HasImages(l: Lane): bool { l.pendingImages.Some? && l.pendingImages.value.blocks != [] }

  // ---------------------------------------------------------------- a write-back

  /** The outcome of writing: bridge, messages the session took, and whether the store took them all. */
  datatype Written = Written(b: Bridge, out: seq<Message>, ok: bool)

  /** Writes message i, and the pictures that go with it, with a store that accepts `accepts` messages. */
  function WriteOne(b: Bridge, msgs: seq<EngineMsg>, i: nat, accepts: nat): (w: Written)
    requires i < |msgs|
    ensures |w.out| <= accepts
  {
    var (b1, sm) := Prepare(b, msgs, i);
    var one := if Storable(sm) then [sm] else [];
    if |one| > accepts then Written(b1, [], false)
    else if sm.role == Tool && HasImages(b1.lane) then
      var picture := ImageMessage(b1.lane.pendingImages.value);
      if |one| + 1 > accepts then Written(b1, one, false)
      else Written(b1.(lane := b1.lane.(pendingImages := None)), one + [picture], true)
    else Written(b1, one, true)
  }

  /** Writes messages i..|msgs|; a refusal stops the loop before the watermark is moved. */
  function WriteFrom(b: Bridge, msgs: seq<EngineMsg>, i: nat, accepts: nat): Written
    requires i <= |msgs|
    decreases |msgs| - i
  {
    if i == |msgs| then Written(b.(writeLen := |msgs|), [], true)
    else
      var one := WriteOne(b, msgs, i, accepts);
      if !one.ok then one
      else
        var rest := WriteFrom(one.b, msgs, i + 1, accepts - |one.out|);
        rest.(out := one.out + rest.out)
  }

  function WriteBack(b: Bridge, msgs: seq<EngineMsg>, accepts: nat): Written {
    var base := if b.writeLen < b.writeBase then b.writeBase else b.writeLen;
    if |msgs| <= base then Written(b, [], true) else WriteFrom(b, msgs, base, accepts)
  }

  // ---------------------------------------------------------------- events

  function AfterBeginRun(b: Bridge, base: nat): Bridge {
    Bridge(base, base, b.ledger.(asstSeq := 0, callUsage := map[]),
           b.lane.(toolSeq := 0, pendingCalls := [], pendingImages := None), b.images, b.finished, b.iterations)
  }

  /** A usage report: booked at once when the provider gave numbers, else left for the write-back to estimate. The
      ledger's answer comes with it. */
  function RegisterUsage(l: Ledger, iteration: nat, usage: Option<Usage>, recorded: bool): Ledger {
    match usage
    case None => l.(callUsage := l.callUsage[iteration := ToEstimate(recorded)])
    case Some(u) => Book(l.(callUsage := l.callUsage[iteration := Exact(u)]), u, recorded)
  }

  function AfterUsage(b: Bridge, iteration: nat, usage: Option<Usage>, recorded: bool): Bridge {
    b.(ledger := RegisterUsage(b.ledger, iteration, usage, recorded),
       iterations := if iteration + 1 > b.iterations then iteration + 1 else b.iterations)
  }

  // ---------------------------------------------------------------- the bridge object

  method EstimateCallUsage(msgs: seq<EngineMsg>, asstIdx: nat) returns (u: Usage)
    requires asstIdx < |msgs|
    ensures u == Estimate(msgs, asstIdx)
  {
    var prompt := 0;
    for i := 0 to asstIdx
      invariant prompt == PromptTokens(msgs, i)
    {
      var t := EstimateText(msgs[i].text);
      prompt := prompt + t;
    }
    var t := EstimateText(msgs[asstIdx].text);
    var r := EstimateText(msgs[asstIdx].reasoning);
    u := Usage(prompt, t + r, prompt + (t + r), 0, 0, true);
  }

  class Recorder {
    var synthetic: nat
    var writeBase: nat
    var writeLen: nat
    var asstSeq: nat
    var toolSeq: nat
    var pendingCalls: seq<string>
    var pendingImages: Option<ImageEntry>
    var callUsage: map<nat, CallUsage>
    var images: seq<ImageEntry>
    var finished: bool
    var iterations: nat
    var totals: Usage
    var booked: multiset<Usage>
    var unbooked: multiset<Usage>
    const session: Session

    ghost function LedgerView(): Ledger
      reads this
    {
      Ledger(asstSeq, callUsage, totals, booked, unbooked)
    }

    ghost function LaneView(): Lane
      reads this
    {
      Lane(synthetic, toolSeq, pendingCalls, pendingImages)
    }

    ghost function View(): Bridge
      reads this
    {
      Bridge(writeBase, writeLen, LedgerView(), LaneView(), images, finished, iterations)
    }

    constructor (session: Session)
      ensures this.session == session
      ensures View() == Bridge(0, 0, Ledger(0, map[], ZERO, multiset{}, multiset{}), Lane(0, 0, [], None), [], false, 0)
    {
      this.session := session;
      synthetic, writeBase, writeLen, asstSeq, toolSeq := 0, 0, 0, 0, 0;
      pendingCalls, pendingImages, callUsage, images := [], None, map[], [];
      finished, iterations, totals, booked, unbooked := false, 0, ZERO, multiset{}, multiset{};
    }

    method BeginRun(baseLen: nat)
      modifies this`writeBase, this`writeLen, this`asstSeq, this`toolSeq, this`pendingCalls, this`pendingImages,
               this`callUsage
      ensures View() == AfterBeginRun(old(View()), baseLen)
    {
      ghost var before := View();
      writeBase := baseLen;
      writeLen := baseLen;
      asstSeq := 0;
      toolSeq := 0;
      pendingCalls := [];
      pendingImages := None;
      callUsage := map[];
      assert View().ledger == before.ledger.(asstSeq := 0, callUsage := map[]);
    }

    method AccumulateTotal(u: Usage)
      modifies this`totals
      ensures totals == Add(old(totals), u)
    {
      totals := totals.(prompt := totals.prompt + u.prompt, completion := totals.completion + u.completion,
                        total := totals.total + u.total, cached := totals.cached + u.cached,
                        reasoning := totals.reasoning + u.reasoning);
    }

    /** Hands a usage to the ledger, which takes it or not, and adds it to the total in either case. */
    method BookUsage(u: Usage, recorded: bool)
      modifies this`totals, this`booked, this`unbooked
      ensures LedgerView() == Book(old(LedgerView()), u, recorded)
    {
      hide Add;
      if recorded {
        booked := booked + multiset{u};
      } else {
        unbooked := unbooked + multiset{u};
      }
      AccumulateTotal(u);
    }

    method RecordUsage(iteration: nat, usage: Option<Usage>, recorded: bool)
      modifies this`iterations, this`callUsage, this`totals, this`booked, this`unbooked
      ensures View() == AfterUsage(old(View()), iteration, usage, recorded)
    {
      hide Add, Book;
      ghost var ledger := LedgerView();
      if iteration + 1 > iterations {
        iterations := iteration + 1;
      }
      if usage.None? {
        callUsage := callUsage[iteration := ToEstimate(recorded)];
        return;
      }
      callUsage := callUsage[iteration := Exact(usage.value)];
      assert LedgerView() == ledger.(callUsage := ledger.callUsage[iteration := Exact(usage.value)]);
      BookUsage(usage.value, recorded);
    }

    /** Usage of the call in this position: consumed once, estimated and booked if the provider gave none. */
    method ConsumeUsage(msgs: seq<EngineMsg>, i: nat) returns (usage: Option<Usage>)
      requires i < |msgs|
      modifies this`callUsage, this`asstSeq, this`totals, this`booked, this`unbooked
      ensures LedgerView() == TakeUsage(old(LedgerView()), msgs, i).0
      ensures usage == TakeUsage(old(LedgerView()), msgs, i).1
    {
      hide Add;
      usage := None;
      if asstSeq in callUsage {
        var entry := callUsage[asstSeq];
        var u;
        if entry.Exact? {
          u := entry.usage;
        } else {
          u := EstimateCallUsage(msgs, i);
        }
        usage := Some(u);
        if entry.ToEstimate? {
          BookUsage(u, entry.recorded);
        }
      }
      callUsage := callUsage - {asstSeq};
      asstSeq := asstSeq + 1;
    }

    /** Queues the ids of the calls, drawing one for each call that has none. */
    method QueueCalls(toolCalls: seq<ToolCall>) returns (calls: seq<ToolCall>)
      modifies this`synthetic, this`pendingCalls
      ensures LaneView() == QueueIds(old(LaneView()), toolCalls).0
      ensures calls == QueueIds(old(LaneView()), toolCalls).1
    {
      calls := [];
      for k := 0 to |toolCalls|
        invariant calls == Identified(old(synthetic), toolCalls[..k])
        invariant synthetic == old(synthetic) + Missing(toolCalls[..k])
        invariant pendingCalls == old(pendingCalls) + Ids(calls)
      {
        assert toolCalls[..k + 1][..k] == toolCalls[..k];
        var tc := toolCalls[k];
        if tc.id == "" {
          tc := tc.(id := RecordId(synthetic));
          synthetic := synthetic + 1;
        }
        pendingCalls := pendingCalls + [tc.id];
        assert Ids(calls + [tc]) == Ids(calls) + [tc.id];
        calls := calls + [tc];
      }
      assert toolCalls[..|toolCalls|] == toolCalls;
    }

    /** The id for a result, from the queue when it names none, and its pictures by sequence number. */
    method TakeToolResult(toolCallId: string) returns (id: string)
      modifies this`pendingCalls, this`pendingImages, this`toolSeq
      ensures LaneView() == TakeResult(old(LaneView()), images, toolCallId).0
      ensures id == TakeResult(old(LaneView()), images, toolCallId).1
    {
      id := toolCallId;
      if id == "" && |pendingCalls| > 0 {
        id, pendingCalls := pendingCalls[0], pendingCalls[1..];
      }
      var k := 0;
      while k < |images|
        invariant k <= |images| && ImageFor(images, toolSeq) == ImageFor(images[k..], toolSeq)
      {
        if images[k].toolSeq == toolSeq && |images[k].blocks| > 0 {
          pendingImages := Some(images[k]);
          break;
        }
        assert images[k..][1..] == images[k + 1..];
        k := k + 1;
      }
      toolSeq := toolSeq + 1;
    }

    method PrepareMessage(msgs: seq<EngineMsg>, i: nat) returns (sm: Message)
      requires i < |msgs|
      modifies this`callUsage, this`asstSeq, this`totals, this`booked, this`unbooked, this`synthetic,
               this`pendingCalls, this`pendingImages, this`toolSeq
      ensures View() == Prepare(old(View()), msgs, i).0 && sm == Prepare(old(View()), msgs, i).1
    {
      hide TakeUsage, QueueIds, TakeResult;
      var m := msgs[i];
      if m.role == Assistant {
        var usage := ConsumeUsage(msgs, i);
        var calls := QueueCalls(m.toolCalls);
        var finish := "";
        if i == |msgs| - 1 && |m.toolCalls| == 0 && finished {
          finish := "stop";
        }
        sm := Message(Assistant, m.text, m.reasoning, [], 0, "", calls, finish, usage);
      } else if m.role == Tool {
        var id := TakeToolResult(m.toolCallId);
        sm := Plain(Tool, m.text, 0).(toolCallId := id);
      } else {
        sm := Plain(m.role, m.text, 0);
      }
    }

    method WriteOneMessage(msgs: seq<EngineMsg>, i: nat, accepts: nat)
      returns (ok: bool, left: nat, ghost out: seq<Message>)
      requires i < |msgs|
      modifies this`callUsage, this`asstSeq, this`totals, this`booked, this`unbooked, this`synthetic,
               this`pendingCalls, this`pendingImages, this`toolSeq, session`messages, session.store`log
      ensures View() == WriteOne(old(View()), msgs, i, accepts).b
      ensures ok == WriteOne(old(View()), msgs, i, accepts).ok && out == WriteOne(old(View()), msgs, i, accepts).out
      ensures left == accepts - |out|
      ensures session.View() == Extended(old(session.View()), out)
    {
      hide Prepare, AfterAppend, Storable, Kept, Extended;
      ghost var before := session.View();
      ExtendedByNothing(before);
      var sm := PrepareMessage(msgs, i);
      AppendOne(before, sm, accepts);
      ok := session.Append([sm], accepts);
      out := if Storable(sm) && accepts > 0 then [sm] else [];
      left := if Storable(sm) && accepts > 0 then accepts - 1 else accepts;
      if ok && sm.role == Tool && pendingImages.Some? && |pendingImages.value.blocks| > 0 {
        var picture := ImageMessage(pendingImages.value);
        PictureStorable(pendingImages.value);
        AppendOne(session.View(), picture, left);
        ExtendedTwice(before, out, [picture]);
        ok := session.Append([picture], left);
        if ok {
          out, left := out + [picture], left - 1;
          pendingImages := None;
        }
      }
    }

    /** The write-back loop. Every message behind the watermark is prepared and appended; the watermark moves
        only if all of them were taken. */
    method WriteBackNewMessages(msgs: seq<EngineMsg>, accepts: nat) returns (ok: bool, ghost out: seq<Message>)
      modifies this, session`messages, session.store`log
      ensures View() == WriteBack(old(View()), msgs, accepts).b
      ensures ok == WriteBack(old(View()), msgs, accepts).ok && out == WriteBack(old(View()), msgs, accepts).out
      ensures session.View() == Extended(old(session.View()), out)
    {
      hide WriteOne, Extended;
      var base := writeLen;
      if base < writeBase {
        base := writeBase;
      }
      out, ok := [], true;
      ghost var start, before := View(), session.View();
      ExtendedByNothing(before);
      if |msgs| <= base {
        return;
      }
      var left: nat := accepts;
      ghost var whole := WriteFrom(start, msgs, base, accepts);
      for i := base to |msgs|
        invariant left + |out| == accepts
        invariant session.View() == Extended(before, out)
        invariant whole == Behind(out, WriteFrom(View(), msgs, i, left))
      {
        ghost var more;
        ok, left, more := WriteOneMessage(msgs, i, left);
        ExtendedTwice(before, out, more);
        out := out + more;
        if !ok {
          return;
        }
      }
      writeLen := |msgs|;
    }
  }

  function Behind(out: seq<Message>, w: Written): Written { w.(out := out + w.out) }

  lemma PictureStorable(e: ImageEntry)
    ensures Storable(ImageMessage(e))
  {
    var text := "以下是工具 " + e.toolName;
    assert text[0] == '以' && '以' in text && !IsSpace('以');
  }

  lemma ExtendedByNothing(s: State)
    ensures Extended(s, []) == s
  {
    assert s.messages + [] == s.messages && s.log + [] == s.log;
  }
}
