/** When requests extend one another: exactly when a growing window only adds to the request, and exactly when
    the compactor's request is the main one and one more message. */
module RequestStability {
  import opened Text
  import opened Messages
  import opened Sanitizing
  import opened RequestAssembly
  import opened SanitizingExact

  // ---------------------------------------------------------------- a growing window

  /** A call of this message is open among `w` and answered among `more`. */
  predicate Late(m: Message, w: seq<Message>, more: seq<Message>) {
    Calls(m) && exists c :: c in m.toolCalls && c.id in Resulted(more) && c.id !in Resulted(w)
  }

  /** From the first message with a late answer on, nothing of the window was sent. */
  predicate Stable(w: seq<Message>, more: seq<Message>) {
    forall k :: 0 <= k < |w| && Late(w[k], w, more) ==> StripAll(w[k..], Resulted(w)) == []
  }

  predicate NoneLate(w: seq<Message>, n: nat, all: seq<Message>, more: seq<Message>)
    requires n <= |w|
  {
    forall k :: 0 <= k < n ==> !Late(w[k], all, more)
  }

  function FirstLate(w: seq<Message>, more: seq<Message>, k: nat): (r: nat)
    requires k <= |w| && NoneLate(w, k, w, more)
    ensures k <= r <= |w| && NoneLate(w, r, w, more) && (r < |w| ==> Late(w[r], w, more))
    decreases |w| - k
  {
    if k == |w| || Late(w[k], w, more) then k else FirstLate(w, more, k + 1)
  }

  /** Stripping the messages in front of the first late answer comes out the same. */
  lemma SameBefore(w: seq<Message>, more: seq<Message>, n: nat)
    requires n <= |w| && NoneLate(w, n, w, more)
    ensures StripAll(w[..n], Resulted(w + more)) == StripAll(w[..n], Resulted(w))
  {
    ResultedAppend(w, more);
    hide Resulted;
    forall m, c | m in w[..n] && Calls(m) && c in m.toolCalls
      ensures c.id in Resulted(w + more) <==> c.id in Resulted(w)
    {
      var k :| 0 <= k < n && w[k] == m;
      assert !Late(w[k], w, more);
    }
    StripAgree(w[..n], Resulted(w + more), Resulted(w));
  }

  lemma StripFirst(w: seq<Message>, ids: set<string>)
    requires w != []
    ensures StripAll(w, ids) == StripOne(w[0], ids) + StripAll(w[1..], ids)
  {
    assert w == [w[0]] + w[1..] && [w[0]][..0] == [];
    hide StripOne;
    StripAppend([w[0]], w[1..], ids);
    assert StripAll([w[0]], ids) == [] + StripOne(w[0], ids) == StripOne(w[0], ids);
  }

  lemma LateIsSent(m: Message, w: seq<Message>, more: seq<Message>)
    requires Late(m, w, more)
    ensures var out := StripOne(m, Resulted(w + more));
            |out| == 1 && Calls(out[0]) && !AllResulted(out, Resulted(w))
  {
    ResultedAppend(w, more);
    hide Resulted, Blank;
    KeptCallsExact(m.toolCalls, Resulted(w + more));
    var c :| c in m.toolCalls && c.id in Resulted(more) && c.id !in Resulted(w);
    var out := StripOne(m, Resulted(w + more));
    assert c in out[0].toolCalls && out[0] in out;
  }

  /** Messages that differ in that only one of them calls for this result look different to the provider. */
  lemma RendersApart(m: Message, p: Message, ids: set<string>, resolve: Resolver)
    requires Calls(m) && !AllResulted([m], ids) && AllResulted([p], ids)
    ensures Render(m, resolve) != Render(p, resolve)
  {
    var c :| c in m.toolCalls && c.id !in ids;
    assert p in [p];
    assert p.role == Assistant ==> c !in p.toolCalls;
    hide Pictures;
  }

  /** The request of the longer window, from the first late answer on, begins with what nobody has been sent. */
  lemma LateNotPrefix(z: seq<Message>, w: seq<Message>, more: seq<Message>, tail: seq<Message>,
                      behind: seq<ApiMessage>, resolve: Resolver)
    requires z != [] && Late(z[0], w, more)
    ensures RenderAll(StripAll(z, Resulted(w)), resolve)
            <= RenderAll(StripAll(z + tail, Resulted(w + more)), resolve) + behind
       <==> StripAll(z, Resulted(w)) == []
  {
    var ids, more_ := Resulted(w), Resulted(w + more);
    LateIsSent(z[0], w, more);
    assert (z + tail)[0] == z[0];
    StripFirst(z + tail, more_);
    var sent, next := StripAll(z, ids), StripAll(z + tail, more_);
    var first := StripOne(z[0], more_)[0];
    assert next[0] == first;
    StripAllResulted(z, ids);
    hide StripOne, Resulted, Render;
    FirstRendered(next, resolve);
    assert AllResulted([first], ids) <==> AllResulted(StripOne(z[0], more_), ids) by {
      assert StripOne(z[0], more_) == [first];
    }
    if sent != [] {
      FirstRendered(sent, resolve);
      assert sent[0] in sent;
      assert AllResulted([sent[0]], ids);
      RendersApart(first, sent[0], ids, resolve);
    } else {
      assert RenderAll(sent, resolve) == [];
    }
  }

  lemma AssembleSplit(system: seq<ApiMessage>, a: seq<Message>, z: seq<Message>, question: string, resolve: Resolver)
    ensures var ids := Resulted(a + z);
            Assemble(system, a + z, question, resolve)
              == system + RenderAll(StripAll(a, ids), resolve)
                 + (RenderAll(StripAll(z, ids), resolve) + Asking(Strip(a + z), question))
  {
    hide StripAll, Resulted, Asking, RenderAll;
    var ids := Resulted(a + z);
    StripAppend(a, z, ids);
    RenderAppend(StripAll(a, ids), StripAll(z, ids), resolve);
    var x, y := RenderAll(StripAll(a, ids), resolve), RenderAll(StripAll(z, ids), resolve);
    var w := Asking(Strip(a + z), question);
    assert system + (x + y) + w == system + x + (y + w);
  }

  /** The same, from the front `a` without late answers on. */
  lemma PrefixFrom(system: seq<ApiMessage>, a: seq<Message>, z: seq<Message>, more: seq<Message>, question: string,
                   resolve: Resolver)
    requires StripAll(a, Resulted(a + z + more)) == StripAll(a, Resulted(a + z))
    ensures Assemble(system, a + z, "", resolve) <= Assemble(system, a + z + more, question, resolve) <==>
            RenderAll(StripAll(z, Resulted(a + z)), resolve)
            <= RenderAll(StripAll(z + more, Resulted(a + z + more)), resolve) + Asking(Strip(a + z + more), question)
  {
    hide StripAll, Resulted, RenderAll, Assemble;
    assert a + z + more == a + (z + more);
    AssembleSplit(system, a, z, "", resolve);
    AssembleSplit(system, a, z + more, question, resolve);
    AskingNothing(Strip(a + z));
    hide Asking;
    var sent, next := RenderAll(StripAll(z, Resulted(a + z)), resolve),
                      RenderAll(StripAll(z + more, Resulted(a + z + more)), resolve)
                          + Asking(Strip(a + z + more), question);
    assert sent + [] == sent;
    CommonFront(system + RenderAll(StripAll(a, Resulted(a + z)), resolve), sent, next);
  }

  /** Appending to a window only appends to the request exactly if no later result answers an earlier orphan, or
      nothing from the first such orphan on had been sent. */
  lemma PrefixStable(system: seq<ApiMessage>, w: seq<Message>, more: seq<Message>, question: string, resolve: Resolver)
    ensures Assemble(system, w, "", resolve) <= Assemble(system, w + more, question, resolve) <==> Stable(w, more)
  {
    hide StripAll, Resulted, Asking, RenderAll, Assemble, Late;
    var k := FirstLate(w, more, 0);
    SameBefore(w, more, k);
    var a, z := w[..k], w[k..];
    assert w == a + z;
    PrefixFrom(system, a, z, more, question, resolve);
    if k < |w| {
      LateNotPrefix(z, w, more, more, Asking(Strip(w + more), question), resolve);
      StableFrom(w, more, k);
    } else {
      assert z == [] && RenderAll(StripAll([], Resulted(w)), resolve) == [] by {
        NothingSent(Resulted(w), resolve);
      }
    }
  }

  lemma NothingSent(ids: set<string>, resolve: Resolver)
    ensures RenderAll(StripAll([], ids), resolve) == []
  {
  }

  lemma CommonFront<T>(front: seq<T>, a: seq<T>, b: seq<T>)
    ensures front + a <= front + b <==> a <= b
  {
    if front + a <= front + b {
      assert a == (front + a)[|front|..] && b == (front + b)[|front|..];
      assert (front + b)[..|front + a|] == front + a;
      assert b[..|a|] == (front + b)[|front|..|front + a|] == a;
    }
    if a <= b {
      assert front + b == front + a + b[|a|..];
    }
  }

  lemma StripSuffix(w: seq<Message>, k: nat, j: nat, ids: set<string>)
    requires k <= j <= |w| && StripAll(w[k..], ids) == []
    ensures StripAll(w[j..], ids) == []
  {
    assert w[k..] == w[k..j] + w[j..];
    hide StripAll;
    StripAppend(w[k..j], w[j..], ids);
  }

  lemma StableFrom(w: seq<Message>, more: seq<Message>, k: nat)
    requires k < |w| && NoneLate(w, k, w, more) && Late(w[k], w, more)
    ensures Stable(w, more) <==> StripAll(w[k..], Resulted(w)) == []
  {
    hide StripAll, Resulted, Late;
    if StripAll(w[k..], Resulted(w)) == [] {
      forall j | 0 <= j < |w| && Late(w[j], w, more)
        ensures StripAll(w[j..], Resulted(w)) == []
      {
        assert k <= j;
        StripSuffix(w, k, j, Resulted(w));
      }
    }
  }

  /** Windows in which every call is answered are extended safely by anything. */
  lemma AnsweredExtends(w: seq<Message>, more: seq<Message>)
    requires WellPaired(w) && IdsPresent(w)
    ensures Stable(w, more)
  {
    WellPairedResulted(w);
  }

  /** A result that comes after its window was sent rewrites what was sent, if the message that asks for it says
      anything. */
  lemma LateAnswerRewrites(system: seq<ApiMessage>, w: seq<Message>, more: seq<Message>, k: nat, resolve: Resolver)
    requires k < |w| && Late(w[k], w, more) && !Blank(w[k].content)
    ensures !(Assemble(system, w, "", resolve) <= Assemble(system, w + more, "", resolve))
  {
    PrefixStable(system, w, more, "", resolve);
    StripFirst(w[k..], Resulted(w));
    assert StripOne(w[k], Resulted(w)) != [];
  }

  // ---------------------------------------------------------------- the compactor's request

  /** What the compactor sends: the sanitized window, and its instruction as the last user message. */
  function CompactionRequest(system: seq<ApiMessage>, w: seq<Message>, instruction: string, resolve: Resolver)
    : seq<ApiMessage>
  {
    Assemble(system, Sanitize(w), "", resolve) + [Plainly(User, instruction)]
  }

  /** None of the calls of this message is answered, and it says something. */
  predicate Bare(m: Message, ids: set<string>) { (forall c :: c in m.toolCalls ==> c.id !in ids) && !Blank(m.content) }

  /** Every message with an incomplete call has no answered call, says something, and is not directly followed by a
      tool message. */
  predicate LosesNothing(w: seq<Message>) {
    forall i :: 0 <= i < |w| && Open(w[i], Incomplete(w)) ==>
      Bare(w[i], Resulted(w)) && (i + 1 < |w| ==> w[i + 1].role != Tool)
  }

  function Tools(w: seq<Message>): nat {
    if w == [] then 0 else Tools(w[..|w| - 1]) + if w[|w| - 1].role == Tool then 1 else 0
  }

  function ToolsSent(msgs: seq<ApiMessage>): nat {
    if msgs == [] then 0 else ToolsSent(msgs[..|msgs| - 1]) + if msgs[|msgs| - 1].role == Tool then 1 else 0
  }

  lemma {:induction false} ToolsRendered(w: seq<Message>, resolve: Resolver)
    ensures ToolsSent(RenderAll(w, resolve)) == Tools(w)
  {
    hide Pictures;
    if w != [] {
      ToolsRendered(w[..|w| - 1], resolve);
      var all := RenderAll(w, resolve);
      assert all[..|all| - 1] == RenderAll(w[..|w| - 1], resolve);
    }
  }

  lemma {:induction false} ToolsAppend(a: seq<Message>, b: seq<Message>)
    ensures Tools(a + b) == Tools(a) + Tools(b)
  {
    if b == [] {
      assert a + b == a;
    } else {
      ToolsAppend(a, b[..|b| - 1]);
      assert (a + b)[..|a + b| - 1] == a + b[..|b| - 1] && (a + b)[|a + b| - 1] == b[|b| - 1];
    }
  }

  lemma OneTool(m: Message)
    ensures Tools([m]) == (if m.role == Tool then 1 else 0) && Tools([]) == 0
  {
    assert [m][..0] == [];
  }

  lemma {:induction false} ToolsStripped(w: seq<Message>, ids: set<string>)
    ensures Tools(StripAll(w, ids)) == Tools(w)
  {
    hide StripOne, Tools;
    if w == [] {
    } else {
      var init, m := w[..|w| - 1], w[|w| - 1];
      ToolsStripped(init, ids);
      ToolsAppend(StripAll(init, ids), StripOne(m, ids));
      ToolsAppend(init, [m]);
      assert w == init + [m];
      OneTool(m);
      StripOneTools(m, ids);
    }
  }

  lemma StripOneTools(m: Message, ids: set<string>)
    ensures Tools(StripOne(m, ids)) == if m.role == Tool then 1 else 0
  {
    OneTool(m);
    hide Blank, KeptCalls, Tools;
    if StripOne(m, ids) != [] {
      OneTool(StripOne(m, ids)[0]);
      assert StripOne(m, ids) == [StripOne(m, ids)[0]];
    }
  }

  /** No tool message stands behind an open one. */
  predicate NoneDropped(w: seq<Message>, n: nat, incomplete: set<string>)
    requires n <= |w|
  {
    forall i :: 0 <= i < n && w[i].role == Tool ==> !AfterOpen(w, i, incomplete)
  }

  lemma {:induction false} ToolsCleaned(w: seq<Message>, n: nat, incomplete: set<string>)
    requires n <= |w|
    ensures Tools(Cleaned(w, n, incomplete)) <= Tools(w[..n])
    ensures Tools(Cleaned(w, n, incomplete)) == Tools(w[..n]) <==> NoneDropped(w, n, incomplete)
  {
    hide Tools, AfterOpen, Open;
    if n > 0 {
      ToolsCleaned(w, n - 1, incomplete);
      assert w[..n] == w[..n - 1] + [w[n - 1]];
      ToolsAppend(w[..n - 1], [w[n - 1]]);
      ToolsAppend(Cleaned(w, n - 1, incomplete), CleanedOne(w, n - 1, incomplete));
      OneTool(w[n - 1]);
      OneTool(w[n - 1].(toolCalls := []));
    } else {
      assert w[..0] == [];
    }
  }

  lemma {:induction false} ResultsCleaned(w: seq<Message>, n: nat, incomplete: set<string>)
    requires n <= |w| && NoneDropped(w, n, incomplete)
    ensures Resulted(Cleaned(w, n, incomplete)) == Resulted(w[..n])
  {
    hide Resulted, AfterOpen, Open;
    if n > 0 {
      ResultsCleaned(w, n - 1, incomplete);
      assert w[..n] == w[..n - 1] + [w[n - 1]];
      ResultedAppend(w[..n - 1], [w[n - 1]]);
      ResultedAppend(Cleaned(w, n - 1, incomplete), CleanedOne(w, n - 1, incomplete));
      OneResultedPlain(w[n - 1]);
      OneResultedPlain(w[n - 1].(toolCalls := []));
    } else {
      assert w[..0] == [];
    }
  }

  lemma OneResultedPlain(m: Message)
    ensures Resulted([m]) == if m.role == Tool && m.toolCallId != "" then {m.toolCallId} else {}
  {
    assert [m][..0] == [];
  }

  lemma OneStripped(m: Message, ids: set<string>)
    ensures StripAll([m], ids) == StripOne(m, ids)
  {
    hide StripOne;
    assert [m][..0] == [];
    assert [] + StripOne(m, ids) == StripOne(m, ids);
  }

  lemma OneRendered(m: Message, resolve: Resolver)
    ensures RenderAll([m], resolve) == [Render(m, resolve)]
  {
    hide Render;
    assert [m][..0] == [];
  }

  /** A message without its calls against the message stripped. */
  lemma OpenPiece(m: Message, ids: set<string>, resolve: Resolver)
    requires Calls(m)
    ensures StripOne(m.(toolCalls := []), ids) == [m.(toolCalls := [])]
    ensures var x, y := [m.(toolCalls := [])], StripOne(m, ids);
            && |y| <= 1
            && (x == y <==> Bare(m, ids))
            && (x != y && |y| == 1 ==> RenderAll(x, resolve) != RenderAll(y, resolve))
  {
    KeptCallsExact(m.toolCalls, ids);
    var kept := KeptCalls(m.toolCalls, ids);
    hide Blank, KeptCalls, RenderAll;
    if kept == [] {
      assert forall c :: c in m.toolCalls ==> c !in kept;
    } else {
      assert kept[0] in kept;
      OneRendered(m.(toolCalls := []), resolve);
      OneRendered(m.(toolCalls := kept), resolve);
    }
  }

  /** Message i, sanitized and stripped, against message i stripped: an open message is sent in either case only
      if it says something, and alike only if none of its calls is answered. */
  lemma Piece(w: seq<Message>, i: nat, incomplete: set<string>, ids: set<string>, resolve: Resolver)
    requires i < |w| && !(w[i].role == Tool && AfterOpen(w, i, incomplete))
    ensures var x, y := StripAll(CleanedOne(w, i, incomplete), ids), StripOne(w[i], ids);
            && |y| <= |x| <= 1
            && (x == y <==> (Open(w[i], incomplete) ==> Bare(w[i], ids)))
            && (x != y && |x| == |y| ==> RenderAll(x, resolve) != RenderAll(y, resolve))
  {
    hide RenderAll, StripAll, StripOne, Bare;
    var m := w[i];
    OneStripped(m, ids);
    StripFew(m, ids);
    if Open(m, incomplete) {
      OpenPiece(m, ids, resolve);
      OneStripped(m.(toolCalls := []), ids);
    }
  }

  lemma StripFew(m: Message, ids: set<string>)
    ensures |StripOne(m, ids)| <= 1
  {
  }

  lemma SplitAlike<T>(a: seq<T>, b: seq<T>, x: seq<T>, y: seq<T>)
    requires a + x == b + y && |a| == |b|
    ensures a == b && x == y
  {
    assert a == (a + x)[..|a|] && b == (b + y)[..|b|];
    assert x == (a + x)[|a|..] && y == (b + y)[|b|..];
  }

  lemma {:induction false} Pieces(w: seq<Message>, n: nat, incomplete: set<string>, ids: set<string>, resolve: Resolver)
    requires n <= |w| && NoneDropped(w, n, incomplete)
    ensures var x, y := StripAll(Cleaned(w, n, incomplete), ids), StripAll(w[..n], ids);
            && |y| <= |x|
            && (x == y <==> forall i :: 0 <= i < n && Open(w[i], incomplete) ==> Bare(w[i], ids))
            && (x == y <==> RenderAll(x, resolve) == RenderAll(y, resolve))
  {
    hide Open, Bare, Cleaned, CleanedOne, AfterOpen, StripAll, StripOne, Render, RenderAll;
    PieceSplit(w, n, incomplete, ids);
    if n > 0 {
      Pieces(w, n - 1, incomplete, ids, resolve);
      Piece(w, n - 1, incomplete, ids, resolve);
      JoinAlike(StripAll(Cleaned(w, n - 1, incomplete), ids), StripAll(w[..n - 1], ids),
                StripAll(CleanedOne(w, n - 1, incomplete), ids), StripOne(w[n - 1], ids), resolve);
    }
  }

  lemma PieceSplit(w: seq<Message>, n: nat, incomplete: set<string>, ids: set<string>)
    requires n <= |w|
    ensures var x, y := StripAll(Cleaned(w, n, incomplete), ids), StripAll(w[..n], ids);
            if n == 0 then x == y == []
            else x == StripAll(Cleaned(w, n - 1, incomplete), ids) + StripAll(CleanedOne(w, n - 1, incomplete), ids)
                 && y == StripAll(w[..n - 1], ids) + StripOne(w[n - 1], ids)
  {
    hide CleanedOne, StripOne;
    if n > 0 {
      StripAppend(Cleaned(w, n - 1, incomplete), CleanedOne(w, n - 1, incomplete), ids);
      assert w[..n][..n - 1] == w[..n - 1] && w[..n][n - 1] == w[n - 1];
    } else {
      assert w[..0] == [];
    }
  }

  /** Two windows made of pieces, none shorter on the left, are alike, and look alike, exactly if the pieces are. */
  lemma JoinAlike(a: seq<Message>, b: seq<Message>, x: seq<Message>, y: seq<Message>, resolve: Resolver)
    requires |b| <= |a| && |y| <= |x| <= 1
    requires a == b <==> RenderAll(a, resolve) == RenderAll(b, resolve)
    requires x != y && |x| == |y| ==> RenderAll(x, resolve) != RenderAll(y, resolve)
    ensures |b + y| <= |a + x|
    ensures a + x == b + y <==> a == b && x == y
    ensures a + x == b + y <==> RenderAll(a + x, resolve) == RenderAll(b + y, resolve)
  {
    hide Render, RenderAll;
    RenderAppend(a, x, resolve);
    RenderAppend(b, y, resolve);
    RenderLength(a, resolve);
    RenderLength(b, resolve);
    RenderLength(x, resolve);
    RenderLength(y, resolve);
    if a + x == b + y {
      assert |a| + |x| == |b| + |y|;
      SplitAlike(a, b, x, y);
    }
    if RenderAll(a + x, resolve) == RenderAll(b + y, resolve) {
      assert |a| + |x| == |b| + |y|;
      SplitAlike(RenderAll(a, resolve), RenderAll(b, resolve), RenderAll(x, resolve), RenderAll(y, resolve));
    }
  }

  lemma {:induction false} RenderLength(w: seq<Message>, resolve: Resolver)
    ensures |RenderAll(w, resolve)| == |w|
  {
    hide Render;
    if w != [] {
      RenderLength(w[..|w| - 1], resolve);
    }
  }

  /** An open message directly followed by a tool message is what drops tool messages. */
  lemma DropsBehindOpen(w: seq<Message>, incomplete: set<string>)
    ensures NoneDropped(w, |w|, incomplete) <==>
            forall i :: 0 <= i < |w| - 1 && Open(w[i], incomplete) ==> w[i + 1].role != Tool
  {
    if NoneDropped(w, |w|, incomplete) {
      forall i | 0 <= i < |w| - 1 && Open(w[i], incomplete)
        ensures w[i + 1].role != Tool
      {
        assert AfterOpen(w, i + 1, incomplete);
      }
    } else {
      var i :| 0 <= i < |w| && w[i].role == Tool && AfterOpen(w, i, incomplete);
      OpenFront(w, i, incomplete);
    }
  }

  lemma {:induction false} OpenFront(w: seq<Message>, i: nat, incomplete: set<string>)
    requires i < |w| && w[i].role == Tool && AfterOpen(w, i, incomplete)
    ensures exists k :: 0 <= k < |w| - 1 && Open(w[k], incomplete) && w[k + 1].role == Tool
  {
    if w[i - 1].role == Tool {
      OpenFront(w, i - 1, incomplete);
    } else {
      assert w[i - 1 + 1].role == Tool;
    }
  }

  /** The compactor's request is the main request and one more message exactly if every message with an incomplete
      call has no answered call, says something, and is not directly followed by a tool message. */
  lemma CompactionExtends(system: seq<ApiMessage>, w: seq<Message>, instruction: string, resolve: Resolver)
    ensures Strip(Sanitize(w)) == Strip(w) <==> LosesNothing(w)
    ensures CompactionRequest(system, w, instruction, resolve)
            == Assemble(system, w, "", resolve) + [Plainly(User, instruction)]
       <==> LosesNothing(w)
  {
    hide Cleaned, AfterOpen, Open, Bare, StripAll, Resulted, Incomplete, Render, RenderAll, Tools, ToolsSent, Sanitize,
         Asking;
    var incomplete, x, y := Incomplete(w), Strip(Sanitize(w)), Strip(w);
    SanitizeExact(w);
    AskingNothing(x);
    AskingNothing(y);
    SameRequests(system, RenderAll(x, resolve), RenderAll(y, resolve), [Plainly(User, instruction)]);
    DropsBehindOpen(w, incomplete);
    assert w[..|w|] == w;
    if NoneDropped(w, |w|, incomplete) {
      ResultsCleaned(w, |w|, incomplete);
      Pieces(w, |w|, incomplete, Resulted(w), resolve);
    } else {
      ToolsCleaned(w, |w|, incomplete);
      ToolsStripped(Sanitize(w), Resulted(Sanitize(w)));
      ToolsStripped(w, Resulted(w));
      ToolsRendered(x, resolve);
      ToolsRendered(y, resolve);
    }
  }

  lemma SameRequests<T>(front: seq<T>, a: seq<T>, b: seq<T>, last: seq<T>)
    ensures front + a + [] + last == front + b + [] + last <==> a == b
  {
    if front + a + [] + last == front + b + [] + last {
      assert |a| == |b|;
      assert a == (front + a + [] + last)[|front|..|front| + |a|];
      assert b == (front + b + [] + last)[|front|..|front| + |b|];
    }
  }

  /** With one of two calls answered the compactor's request is no extension of the main one. */
  lemma HalfAnsweredDiffers(system: seq<ApiMessage>, asst: Message, tool: Message, a: ToolCall, b: ToolCall,
                            instruction: string, resolve: Resolver)
    requires asst.role == Assistant && asst.toolCalls == [a, b] && a.id != b.id
    requires tool.role == Tool && tool.toolCallId == a.id
    ensures CompactionRequest(system, [asst, tool], instruction, resolve)
            != Assemble(system, [asst, tool], "", resolve) + [Plainly(User, instruction)]
  {
    var w := [asst, tool];
    ExpectedExact(w);
    assert w[0] == asst && w[1] == tool && asst.toolCalls[1] == b;
    assert b.id in CallIds(asst.toolCalls);
    assert b.id in Incomplete(w) by {
      assert b.id in Expected(w) && b.id !in ToolIds(w);
    }
    hide CompactionRequest, Assemble, Incomplete;
    CompactionExtends(system, w, instruction, resolve);
    assert Open(w[0], Incomplete(w));
  }
}
