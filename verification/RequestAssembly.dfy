/** How a session window becomes an LLM request, and why a growing conversation only extends the request before
    it: what the provider has cached stays a prefix. */
module RequestAssembly {
  import opened Wrappers
  import opened Text
  import opened Messages
  import opened Sanitizing

  /** Content of a request message. */
  datatype Block = TextBlock(text: string) | ImageBlock(mediaType: string, data: string) | Expired(path: string)

  datatype ApiMessage = ApiMessage(
    role: Role, content: seq<Block>, reasoning: string, toolCalls: seq<ToolCall>, toolCallId: string)

  // ---------------------------------------------------------------- calls without results

  /** Ids (but the empty one) that some tool message answers. */
  function Resulted(w: seq<Message>): set<string> {
    if w == [] then {}
    else
      var m := w[|w| - 1];
      Resulted(w[..|w| - 1]) + if m.role == Tool && m.toolCallId != "" then {m.toolCallId} else {}
  }

  function KeptCalls(calls: seq<ToolCall>, ids: set<string>): seq<ToolCall> {
    if calls == [] then []
    else KeptCalls(calls[..|calls| - 1], ids) + if calls[|calls| - 1].id in ids then [calls[|calls| - 1]] else []
  }

  /** A message without its unanswered calls; without calls and text, nothing. */
  function StripOne(m: Message, ids: set<string>): seq<Message> {
    if !Calls(m) then [m]
    else
      var kept := KeptCalls(m.toolCalls, ids);
      if kept == [] && Blank(m.content) then [] else [m.(toolCalls := kept)]
  }

  function StripAll(w: seq<Message>, ids: set<string>): seq<Message> {
    if w == [] then [] else StripAll(w[..|w| - 1], ids) + StripOne(w[|w| - 1], ids)
  }

  function Strip(w: seq<Message>): seq<Message> { StripAll(w, Resulted(w)) }

  method StripOrphanedToolCalls(w: seq<Message>) returns (out: seq<Message>)
    ensures out == Strip(w)
  {
    hide Resulted, KeptCalls, StripAll, Blank, TrimSpace;
    NothingStripped();
    var ids: set<string> := {};
    for i := 0 to |w|
      invariant ids == Resulted(w[..i])
    {
      ResultedNext(w, i);
      if w[i].role == Tool && w[i].toolCallId != "" {
        ids := ids + {w[i].toolCallId};
      }
    }
    assert w[..|w|] == w;
    out := [];
    for i := 0 to |w|
      invariant out == StripAll(w[..i], ids)
    {
      StripAllNext(w, i, ids);
      var m := w[i];
      if m.role == Assistant && |m.toolCalls| > 0 {
        var kept := [];
        for k := 0 to |m.toolCalls|
          invariant kept == KeptCalls(m.toolCalls[..k], ids)
        {
          KeptCallsNext(m.toolCalls, k, ids);
          if m.toolCalls[k].id in ids {
            kept := kept + [m.toolCalls[k]];
          }
        }
        assert m.toolCalls[..|m.toolCalls|] == m.toolCalls;
        var text := TrimSpace(m.content);
        TrimSpaceEmptyIffBlank(m.content);
        if |kept| == 0 && text == "" {
          continue;
        }
        out := out + [m.(toolCalls := kept)];
      } else {
        out := out + [m];
      }
    }
  }

  lemma NothingStripped()
    ensures Resulted([]) == {} && forall ids :: StripAll([], ids) == [] && KeptCalls([], ids) == []
  {
  }

  lemma ResultedNext(w: seq<Message>, i: nat)
    requires i < |w|
    ensures Resulted(w[..i + 1])
         == Resulted(w[..i]) + if w[i].role == Tool && w[i].toolCallId != "" then {w[i].toolCallId} else {}
  {
    assert w[..i + 1][..i] == w[..i];
  }

  lemma KeptCallsNext(calls: seq<ToolCall>, k: nat, ids: set<string>)
    requires k < |calls|
    ensures KeptCalls(calls[..k + 1], ids)
         == if calls[k].id in ids then KeptCalls(calls[..k], ids) + [calls[k]] else KeptCalls(calls[..k], ids)
  {
    assert calls[..k + 1][..k] == calls[..k];
    assert KeptCalls(calls[..k], ids) + [] == KeptCalls(calls[..k], ids);
  }

  lemma StripAllNext(w: seq<Message>, i: nat, ids: set<string>)
    requires i < |w|
    ensures StripAll(w[..i + 1], ids) == StripAll(w[..i], ids) + StripOne(w[i], ids)
  {
    assert w[..i + 1][..i] == w[..i];
  }

  // ---------------------------------------------------------------- assembling

  /** How image references come out: inline data, or none if the file is gone. */
  type Resolver = Image -> Option<Block>

  function Picture(img: Image, resolve: Resolver): Block {
    if resolve(img).Some? then resolve(img).value else Expired(img.path)
  }

  function Pictures(images: seq<Image>, resolve: Resolver): seq<Block> {
    if images == [] then [] else Pictures(images[..|images| - 1], resolve) + [Picture(images[|images| - 1], resolve)]
  }

  function Plainly(role: Role, text: string): ApiMessage { ApiMessage(role, [TextBlock(text)], "", [], "") }

  function Render(m: Message, resolve: Resolver): ApiMessage {
    match m.role
    case User =>
      if m.images == [] then Plainly(User, m.content)
      else ApiMessage(User, (if m.content != "" then [TextBlock(m.content)] else []) + Pictures(m.images, resolve), "",
                      [], "")
    case Assistant => ApiMessage(Assistant, [TextBlock(m.content)], m.reasoning, m.toolCalls, "")
    case Tool => ApiMessage(Tool, [TextBlock(m.content)], "", [], m.toolCallId)
    case role => Plainly(role, m.content)
  }

  function RenderAll(w: seq<Message>, resolve: Resolver): seq<ApiMessage> {
    if w == [] then [] else RenderAll(w[..|w| - 1], resolve) + [Render(w[|w| - 1], resolve)]
  }

  /** The question, unless the window ends in it. */
  function Asking(window: seq<Message>, question: string): seq<ApiMessage> {
    if question == "" then []
    else if window != [] && window[|window| - 1].role == User && window[|window| - 1].content == question then []
    else [Plainly(User, question)]
  }

  function Assemble(system: seq<ApiMessage>, history: seq<Message>, question: string,
                    resolve: Resolver): seq<ApiMessage> {
    system + RenderAll(Strip(history), resolve) + Asking(Strip(history), question)
  }

  method RenderUser(m: Message, resolve: Resolver) returns (msg: ApiMessage)
    requires m.role == User
    ensures msg == Render(m, resolve)
  {
    hide Pictures;
    if |m.images| > 0 {
      NoPictures(resolve);
      ghost var text := if m.content != "" then [TextBlock(m.content)] else [];
      var content := [];
      if m.content != "" {
        content := [TextBlock(m.content)];
      }
      for k := 0 to |m.images|
        invariant content == text + Pictures(m.images[..k], resolve)
      {
        PicturesNext(m.images, k, resolve);
        assert text + (Pictures(m.images[..k], resolve) + [Picture(m.images[k], resolve)])
            == text + Pictures(m.images[..k], resolve) + [Picture(m.images[k], resolve)];
        var block := resolve(m.images[k]);
        content := content + [if block.Some? then block.value else Expired(m.images[k].path)];
      }
      assert m.images[..|m.images|] == m.images;
      msg := ApiMessage(User, content, "", [], "");
    } else {
      msg := Plainly(User, m.content);
    }
  }

  method AssembleMessages(system: seq<ApiMessage>, history: seq<Message>, question: string, resolve: Resolver)
    returns (msgs: seq<ApiMessage>)
    ensures msgs == Assemble(system, history, question, resolve)
  {
    hide RenderAll, Pictures, Strip;
    RenderNothing(resolve);
    msgs := system;
    var window := StripOrphanedToolCalls(history);
    for i := 0 to |window|
      invariant msgs == system + RenderAll(window[..i], resolve)
    {
      RenderNext(window, i, resolve);
      var m := window[i];
      var msg;
      match m.role {
        case System => msg := Plainly(System, m.content);
        case User => msg := RenderUser(m, resolve);
        case Assistant => msg := Plainly(Assistant, m.content).(reasoning := m.reasoning, toolCalls := m.toolCalls);
        case Tool => msg := Plainly(Tool, m.content).(toolCallId := m.toolCallId);
        case Other(_) => msg := Plainly(m.role, m.content);
      }
      assert msg == Render(m, resolve);
      assert system + (RenderAll(window[..i], resolve) + [msg]) == system + RenderAll(window[..i], resolve) + [msg];
      msgs := msgs + [msg];
    }
    assert window[..|window|] == window;
    if question != "" {
      if |window| == 0 || window[|window| - 1].role != User || window[|window| - 1].content != question {
        msgs := msgs + [Plainly(User, question)];
      }
    }
  }

  lemma NoPictures(resolve: Resolver)
    ensures Pictures([], resolve) == []
  {
  }

  lemma PicturesNext(images: seq<Image>, k: nat, resolve: Resolver)
    requires k < |images|
    ensures Pictures(images[..k + 1], resolve) == Pictures(images[..k], resolve) + [Picture(images[k], resolve)]
  {
    assert images[..k + 1][..k] == images[..k];
  }

  lemma RenderNothing(resolve: Resolver)
    ensures RenderAll([], resolve) == []
  {
  }

  lemma RenderNext(w: seq<Message>, i: nat, resolve: Resolver)
    requires i < |w|
    ensures RenderAll(w[..i + 1], resolve) == RenderAll(w[..i], resolve) + [Render(w[i], resolve)]
  {
    assert w[..i + 1][..i] == w[..i];
  }

  // ---------------------------------------------------------------- what stripping does

  lemma {:induction false} KeptCallsHas(calls: seq<ToolCall>, ids: set<string>)
    ensures forall c :: c in KeptCalls(calls, ids) <==> c in calls && c.id in ids
  {
    hide KeptCalls;
    if calls == [] {
      NothingStripped();
    } else {
      var init, last := calls[..|calls| - 1], calls[|calls| - 1];
      KeptCallsHas(init, ids);
      KeptCallsNext(calls, |init|, ids);
      assert calls == init + [last] && calls[..|init| + 1] == calls;
    }
  }

  lemma {:induction false} KeptCallsAll(calls: seq<ToolCall>, ids: set<string>)
    requires forall c :: c in calls ==> c.id in ids
    ensures KeptCalls(calls, ids) == calls
  {
    hide KeptCalls;
    if calls == [] {
      NothingStripped();
    } else {
      var init, last := calls[..|calls| - 1], calls[|calls| - 1];
      assert calls == init + [last] && calls[..|init| + 1] == calls && last in calls;
      KeptCallsAll(init, ids);
      KeptCallsNext(calls, |init|, ids);
    }
  }

  lemma KeptCallsExact(calls: seq<ToolCall>, ids: set<string>)
    ensures forall c :: c in KeptCalls(calls, ids) <==> c in calls && c.id in ids
    ensures KeptCalls(calls, ids) == calls <==> forall c :: c in calls ==> c.id in ids
  {
    hide KeptCalls;
    KeptCallsHas(calls, ids);
    if forall c :: c in calls ==> c.id in ids {
      KeptCallsAll(calls, ids);
    }
  }

  lemma {:induction false} KeptCallsAgree(calls: seq<ToolCall>, ids: set<string>, more: set<string>)
    requires forall c :: c in calls ==> (c.id in ids <==> c.id in more)
    ensures KeptCalls(calls, ids) == KeptCalls(calls, more)
  {
    if calls != [] {
      assert calls[|calls| - 1] in calls;
      KeptCallsAgree(calls[..|calls| - 1], ids, more);
    }
  }

  lemma {:induction false} StripAppend(a: seq<Message>, b: seq<Message>, ids: set<string>)
    ensures StripAll(a + b, ids) == StripAll(a, ids) + StripAll(b, ids)
  {
    hide StripOne;
    if b == [] {
      assert a + b == a;
    } else {
      var init, last := b[..|b| - 1], b[|b| - 1];
      StripAppend(a, init, ids);
      assert (a + b)[..|a + b| - 1] == a + init && (a + b)[|a + b| - 1] == last;
      assert StripAll(a, ids) + (StripAll(init, ids) + StripOne(last, ids))
          == StripAll(a, ids) + StripAll(init, ids) + StripOne(last, ids);
    }
  }

  lemma {:induction false} ResultedAppend(a: seq<Message>, b: seq<Message>)
    ensures Resulted(a + b) == Resulted(a) + Resulted(b)
  {
    if b == [] {
      assert a + b == a;
    } else {
      ResultedAppend(a, b[..|b| - 1]);
      assert (a + b)[..|a + b| - 1] == a + b[..|b| - 1] && (a + b)[|a + b| - 1] == b[|b| - 1];
    }
  }

  lemma {:induction false} ResultedExact(w: seq<Message>)
    ensures forall id :: id in Resulted(w) <==>
              id != "" && exists k :: 0 <= k < |w| && w[k].role == Tool && w[k].toolCallId == id
  {
    if w != [] {
      var init := w[..|w| - 1];
      ResultedExact(init);
      assert forall k :: 0 <= k < |init| ==> w[k] == init[k];
      forall id
        ensures id in Resulted(w) <==>
                id != "" && exists k :: 0 <= k < |w| && w[k].role == Tool && w[k].toolCallId == id
      {
        assert w[|init|] == w[|w| - 1];
      }
    }
  }

  /** Stripping touches no tool message. */
  lemma {:induction false} StripKeepsResults(w: seq<Message>, ids: set<string>)
    ensures Resulted(StripAll(w, ids)) == Resulted(w)
  {
    if w != [] {
      var init, last := w[..|w| - 1], w[|w| - 1];
      StripKeepsResults(init, ids);
      ResultedAppend(StripAll(init, ids), StripOne(last, ids));
      OneResulted(last, ids);
    }
  }

  lemma OneResulted(m: Message, ids: set<string>)
    ensures Resulted(StripOne(m, ids)) == if m.role == Tool && m.toolCallId != "" then {m.toolCallId} else {}
  {
    hide KeptCalls, Blank;
  }

  lemma StripOneTwice(m: Message, ids: set<string>)
    ensures StripAll(StripOne(m, ids), ids) == StripOne(m, ids)
    ensures StripOne(m, ids) == [m] <==> (Calls(m) ==> forall c :: c in m.toolCalls ==> c.id in ids)
  {
    hide Blank;
    var kept := KeptCalls(m.toolCalls, ids);
    KeptCallsExact(m.toolCalls, ids);
    KeptCallsExact(kept, ids);
    if Calls(m) && StripOne(m, ids) == [m] {
      assert m.(toolCalls := kept) == m;
    }
    var out := StripOne(m, ids);
    if out != [] {
      assert out == [out[0]] && out[..0] == [];
      assert StripAll(out, ids) == [] + StripOne(out[0], ids);
    }
  }

  lemma {:induction false} StripAllTwice(w: seq<Message>, ids: set<string>)
    ensures StripAll(StripAll(w, ids), ids) == StripAll(w, ids)
  {
    hide StripOne;
    if w != [] {
      StripAllTwice(w[..|w| - 1], ids);
      StripAppend(StripAll(w[..|w| - 1], ids), StripOne(w[|w| - 1], ids), ids);
      StripOneTwice(w[|w| - 1], ids);
    }
  }

  /** Stripping twice is stripping once. */
  lemma StripIdempotent(w: seq<Message>)
    ensures Strip(Strip(w)) == Strip(w)
  {
    StripKeepsResults(w, Resulted(w));
    StripAllTwice(w, Resulted(w));
  }

  predicate AllResulted(w: seq<Message>, ids: set<string>) {
    forall m :: m in w && Calls(m) ==> forall c :: c in m.toolCalls ==> c.id in ids
  }

  lemma OneAllResulted(m: Message, ids: set<string>)
    ensures AllResulted(StripOne(m, ids), ids)
  {
    hide Blank;
    KeptCallsExact(m.toolCalls, ids);
  }

  lemma AllResultedAppend(a: seq<Message>, b: seq<Message>, ids: set<string>)
    ensures AllResulted(a + b, ids) <==> AllResulted(a, ids) && AllResulted(b, ids)
  {
    assert forall m :: m in a + b <==> m in a || m in b;
  }

  lemma {:induction false} StripAllResulted(w: seq<Message>, ids: set<string>)
    ensures AllResulted(StripAll(w, ids), ids)
    ensures StripAll(w, ids) == w <==> AllResulted(w, ids)
  {
    if w != [] {
      var init, last := w[..|w| - 1], w[|w| - 1];
      assert w == init + [last];
      StripAllResulted(init, ids);
      StripOneTwice(last, ids);
      OneAllResulted(last, ids);
      AllResultedAppend(StripAll(init, ids), StripOne(last, ids), ids);
      AllResultedAppend(init, [last], ids);
      assert AllResulted([last], ids) ==> StripOne(last, ids) == [last];
      hide StripOne, AllResulted;
    }
  }

  /** Every call that is left has its result in the stripped window itself. */
  lemma StripLeavesAnswered(w: seq<Message>)
    ensures AllResulted(Strip(w), Resulted(Strip(w)))
  {
    StripKeepsResults(w, Resulted(w));
    StripAllResulted(w, Resulted(w));
  }

  /** Stripping changes nothing exactly if every call has an id and a result somewhere in the window. */
  lemma StripIdentity(w: seq<Message>)
    ensures Strip(w) == w <==> AllResulted(w, Resulted(w))
  {
    StripAllResulted(w, Resulted(w));
  }

  // ---------------------------------------------------------------- well-paired windows

  predicate IdsPresent(w: seq<Message>) { forall m :: m in w && Calls(m) ==> "" !in CallIds(m.toolCalls) }

  lemma {:induction false} RunIdsAnswer(w: seq<Message>, i: nat)
    ensures forall id :: id in RunIds(w, i) ==> exists k :: 0 <= k < |w| && w[k].role == Tool && w[k].toolCallId == id
    decreases |w| - i
  {
    if i < |w| && w[i].role == Tool {
      RunIdsAnswer(w, i + 1);
    }
  }

  /** A well-paired window has every call answered. */
  lemma WellPairedAnswered(w: seq<Message>, m: Message, c: ToolCall)
    requires WellPaired(w) && m in w && Calls(m) && c in m.toolCalls
    ensures exists k :: 0 <= k < |w| && w[k].role == Tool && w[k].toolCallId == c.id
  {
    var i :| 0 <= i < |w| && w[i] == m;
    assert Answered(w, i);
    assert c.id in CallIds(m.toolCalls);
    RunIdsAnswer(w, i + 1);
  }

  lemma WellPairedResulted(w: seq<Message>)
    requires WellPaired(w) && IdsPresent(w)
    ensures AllResulted(w, Resulted(w))
  {
    ResultedExact(w);
    forall m, c | m in w && Calls(m) && c in m.toolCalls
      ensures c.id in Resulted(w)
    {
      WellPairedAnswered(w, m, c);
      assert c.id in CallIds(m.toolCalls);
    }
  }

  lemma {:induction false} ExpectedExact(w: seq<Message>)
    ensures forall id :: id in Expected(w) <==> exists k :: 0 <= k < |w| && Calls(w[k]) && id in CallIds(w[k].toolCalls)
    ensures forall id :: id in ToolIds(w) <==> exists k :: 0 <= k < |w| && w[k].role == Tool && w[k].toolCallId == id
  {
    if w != [] {
      var init, last := w[..|w| - 1], w[|w| - 1];
      ExpectedExact(init);
      forall id
        ensures id in Expected(w) <==> exists k :: 0 <= k < |w| && Calls(w[k]) && id in CallIds(w[k].toolCalls)
        ensures id in ToolIds(w) <==> exists k :: 0 <= k < |w| && w[k].role == Tool && w[k].toolCallId == id
      {
        assert forall k :: 0 <= k < |init| ==> w[k] == init[k];
        assert w[|init|] == last;
      }
    }
  }

  lemma {:induction false} PassIdentity(w: seq<Message>, incomplete: set<string>)
    requires incomplete == {}
    ensures SanitizePass(w, incomplete) == Pass(w, false)
  {
    if w != [] {
      PassIdentity(w[..|w| - 1], incomplete);
      assert w == w[..|w| - 1] + [w[|w| - 1]];
    }
  }

  /** A pass never lengthens the window, and shortens or changes it where calls are incomplete. */
  lemma {:induction false} PassChanges(w: seq<Message>, incomplete: set<string>)
    ensures |SanitizePass(w, incomplete).out| <= |w|
    ensures SanitizePass(w, incomplete).out == w ==>
              forall m :: m in w && Calls(m) ==> CallIds(m.toolCalls) !! incomplete
  {
    if w != [] {
      var init, last := w[..|w| - 1], w[|w| - 1];
      PassChanges(init, incomplete);
      assert w == init + [last];
      var p, q := SanitizePass(init, incomplete), SanitizePass(w, incomplete);
      if q.out == w {
        assert |p.out| == |init| && q.out[..|init|] == p.out && q.out[|init|] == last;
      }
    }
  }

  /** Sanitizing changes nothing exactly if no id that is called for lacks a result. */
  lemma SanitizeIdentity(w: seq<Message>)
    ensures Sanitize(w) == w <==> Incomplete(w) == {}
  {
    if Incomplete(w) == {} {
      PassIdentity(w, Incomplete(w));
    } else {
      ExpectedExact(w);
      var id :| id in Incomplete(w);
      var k :| 0 <= k < |w| && Calls(w[k]) && id in CallIds(w[k].toolCalls);
      assert w[k] in w && !(CallIds(w[k].toolCalls) !! Incomplete(w));
      PassChanges(w, Incomplete(w));
    }
  }

  /** Both clean-ups leave well-paired windows alone (stripping, if the calls have ids). */
  lemma WellPairedUntouched(w: seq<Message>)
    requires WellPaired(w)
    ensures Sanitize(w) == w
    ensures IdsPresent(w) ==> Strip(w) == w
  {
    ExpectedExact(w);
    forall id | id in Expected(w)
      ensures id in ToolIds(w)
    {
      var k :| 0 <= k < |w| && Calls(w[k]) && id in CallIds(w[k].toolCalls);
      var c :| c in w[k].toolCalls && c.id == id;
      WellPairedAnswered(w, w[k], c);
    }
    SanitizeIdentity(w);
    if IdsPresent(w) {
      WellPairedResulted(w);
      StripIdentity(w);
    }
  }

  /** Sanitizing never empties a window, and the test that is to skip tool messages of incomplete calls never
      applies: an id with a tool message is not incomplete. */
  lemma SanitizeNeverEmpty(w: seq<Message>)
    requires w != []
    ensures Sanitize(w) != []
    ensures forall k :: 0 <= k < |w| && w[k].role == Tool ==> w[k].toolCallId !in Incomplete(w)
  {
    ExpectedExact(w);
    FirstStays(w, Incomplete(w));
  }

  lemma {:induction false} FirstStays(w: seq<Message>, incomplete: set<string>)
    requires w != [] && (w[0].role == Tool ==> w[0].toolCallId !in incomplete)
    ensures SanitizePass(w, incomplete).out != []
  {
    if |w| > 1 {
      FirstStays(w[..|w| - 1], incomplete);
    } else {
      assert w[..|w| - 1] == [];
    }
  }

  // ---------------------------------------------------------------- prefixes

  lemma {:induction false} StripAgree(w: seq<Message>, ids: set<string>, more: set<string>)
    requires forall m, c :: m in w && Calls(m) && c in m.toolCalls ==> (c.id in ids <==> c.id in more)
    ensures StripAll(w, ids) == StripAll(w, more)
  {
    if w != [] {
      var last := w[|w| - 1];
      assert last in w;
      StripAgree(w[..|w| - 1], ids, more);
      if Calls(last) {
        KeptCallsAgree(last.toolCalls, ids, more);
      }
    }
  }

  lemma {:induction false} RenderAppend(a: seq<Message>, b: seq<Message>, resolve: Resolver)
    ensures RenderAll(a + b, resolve) == RenderAll(a, resolve) + RenderAll(b, resolve)
  {
    hide Render;
    if b == [] {
      assert a + b == a;
    } else {
      var init, last := b[..|b| - 1], b[|b| - 1];
      RenderAppend(a, init, resolve);
      assert (a + b)[..|a + b| - 1] == a + init && (a + b)[|a + b| - 1] == last;
    }
  }

  lemma AskingNothing(w: seq<Message>)
    ensures Asking(w, "") == []
  {
  }

  lemma FirstRendered(w: seq<Message>, resolve: Resolver)
    requires w != []
    ensures RenderAll(w, resolve) != [] && RenderAll(w, resolve)[0] == Render(w[0], resolve)
  {
    hide Render;
    assert w == [w[0]] + w[1..];
    RenderAppend([w[0]], w[1..], resolve);
    assert [w[0]][..0] == [];
    assert RenderAll([w[0]], resolve) == [] + [Render(w[0], resolve)];
  }
}
