/** What a request says: every message of the cleaned window, field by field, and the question. */
module RequestContents {
  import opened Text
  import opened Messages
  import opened RequestAssembly

  // ---------------------------------------------------------------- one message

  /** A user message that is sent as text and pictures. */
  predicate Illustrated(m: Message) { m.role == User && m.images != [] }

  /** The request message has the role of the message, and its text; an assistant's reasoning and calls, and the call id
      of a result, and of nothing else. */
  predicate Says(msg: ApiMessage, m: Message) {
    && msg.role == m.role
    && (!Illustrated(m) ==> msg.content == [TextBlock(m.content)])
    && msg.reasoning == (if m.role == Assistant then m.reasoning else "")
    && msg.toolCalls == (if m.role == Assistant then m.toolCalls else [])
    && msg.toolCallId == (if m.role == Tool then m.toolCallId else "")
  }

  /** Its text, if it has any, and then its pictures in order; a lost picture is named by its path. */
  predicate Shows(msg: ApiMessage, m: Message, resolve: Resolver) {
    var first := if m.content == "" then 0 else 1;
    && |msg.content| == first + |m.images|
    && (first == 1 ==> msg.content[0] == TextBlock(m.content))
    && forall k :: 0 <= k < |m.images| ==>
         match resolve(m.images[k])
         case Some(block) => msg.content[first + k] == block
         case None => msg.content[first + k] == Expired(m.images[k].path)
  }

  lemma {:induction false} PicturesAt(images: seq<Image>, resolve: Resolver)
    ensures |Pictures(images, resolve)| == |images|
    ensures forall k :: 0 <= k < |images| ==>
              match resolve(images[k])
              case Some(block) => Pictures(images, resolve)[k] == block
              case None => Pictures(images, resolve)[k] == Expired(images[k].path)
  {
    if images != [] {
      var init := images[..|images| - 1];
      PicturesAt(init, resolve);
      forall k | 0 <= k < |images|
        ensures match resolve(images[k])
                case Some(block) => Pictures(images, resolve)[k] == block
                case None => Pictures(images, resolve)[k] == Expired(images[k].path)
      {
        if k < |init| {
          assert images[k] == init[k] && Pictures(images, resolve)[k] == Pictures(init, resolve)[k];
        }
      }
    }
  }

  lemma RenderShows(m: Message, resolve: Resolver)
    requires Illustrated(m)
    ensures Shows(Render(m, resolve), m, resolve)
  {
    hide Pictures, Picture;
    PicturesAt(m.images, resolve);
    var text, pictures := if m.content != "" then [TextBlock(m.content)] else [], Pictures(m.images, resolve);
    assert Render(m, resolve).content == text + pictures;
    assert forall k :: 0 <= k < |pictures| ==> (text + pictures)[|text| + k] == pictures[k];
  }

  lemma RenderSays(m: Message, resolve: Resolver)
    ensures Says(Render(m, resolve), m) && (Illustrated(m) ==> Shows(Render(m, resolve), m, resolve))
  {
    hide Pictures, Shows;
    if Illustrated(m) {
      RenderShows(m, resolve);
    }
  }

  lemma {:induction false} RenderedAt(w: seq<Message>, resolve: Resolver)
    ensures |RenderAll(w, resolve)| == |w|
    ensures forall k :: 0 <= k < |w| ==> RenderAll(w, resolve)[k] == Render(w[k], resolve)
  {
    hide Render;
    if w != [] {
      RenderedAt(w[..|w| - 1], resolve);
    }
  }

  // ---------------------------------------------------------------- the whole request

  /** The question is still to be asked: the window does not end in it. */
  predicate Unasked(w: seq<Message>, question: string) {
    question != "" && !(w != [] && w[|w| - 1].role == User && w[|w| - 1].content == question)
  }

  /** The request: the system messages, then each message of the cleaned window with its own fields, then the question,
      unless that is empty or the window ends in it. */
  lemma RequestSays(system: seq<ApiMessage>, history: seq<Message>, question: string, resolve: Resolver)
    ensures var r, w, n := Assemble(system, history, question, resolve), Strip(history), |system|;
            && |r| == n + |w| + (if Unasked(w, question) then 1 else 0)
            && r[..n] == system
            && (forall i :: 0 <= i < |w| ==>
                  Says(r[n + i], w[i]) && (Illustrated(w[i]) ==> Shows(r[n + i], w[i], resolve)))
            && (Unasked(w, question) ==> r[n + |w|] == ApiMessage(User, [TextBlock(question)], "", [], ""))
  {
    hide Strip, RenderAll, Render, Says, Shows;
    var r, w, n := Assemble(system, history, question, resolve), Strip(history), |system|;
    RenderedAt(w, resolve);
    forall i | 0 <= i < |w|
      ensures Says(r[n + i], w[i]) && (Illustrated(w[i]) ==> Shows(r[n + i], w[i], resolve))
    {
      RenderSays(w[i], resolve);
      assert r[n + i] == RenderAll(w, resolve)[i];
    }
  }

  /** Requests tell windows apart: where two histories are sent as the same request, their cleaned windows have the same
      length, and, but for illustrated messages, the same roles, texts, reasonings, calls and call ids. */
  lemma SameRequest(system: seq<ApiMessage>, one: seq<Message>, other: seq<Message>, resolve: Resolver, i: nat)
    requires Assemble(system, one, "", resolve) == Assemble(system, other, "", resolve) && i < |Strip(one)|
    ensures |Strip(one)| == |Strip(other)|
    ensures var m, n := Strip(one)[i], Strip(other)[i];
            && m.role == n.role
            && (!Illustrated(m) && !Illustrated(n) ==> m.content == n.content)
            && (m.role == Assistant ==> m.reasoning == n.reasoning && m.toolCalls == n.toolCalls)
            && (m.role == Tool ==> m.toolCallId == n.toolCallId)
  {
    hide Strip, Assemble;
    RequestSays(system, one, "", resolve);
    RequestSays(system, other, "", resolve);
    assert Says(Assemble(system, one, "", resolve)[|system| + i], Strip(one)[i]);
    assert Says(Assemble(system, one, "", resolve)[|system| + i], Strip(other)[i]);
  }

  // ---------------------------------------------------------------- the cleaned window

  /** Some message of the window is a result with this id. */
  predicate ResultFor(w: seq<Message>, id: string) {
    id != "" && exists m :: m in w && m.role == Tool && m.toolCallId == id
  }

  /** The clean-up has nothing to leave of this message: it has calls, none of them answered, and no text. */
  predicate Empty(m: Message, w: seq<Message>) {
    Calls(m) && Blank(m.content) && forall c :: c in m.toolCalls ==> !ResultFor(w, c.id)
  }

  /** `out` is the message without its unanswered calls, and otherwise as it was. */
  ghost predicate LessCalls(out: Message, m: Message, w: seq<Message>) {
    && out == m.(toolCalls := out.toolCalls)
    && (m.role != Assistant ==> out.toolCalls == m.toolCalls)
    && (m.role == Assistant ==> forall c :: c in out.toolCalls <==> c in m.toolCalls && ResultFor(w, c.id))
  }

  lemma {:induction false} ResultedExact(w: seq<Message>, id: string)
    ensures id in Resulted(w) <==> ResultFor(w, id)
  {
    if w != [] {
      var init, last := w[..|w| - 1], w[|w| - 1];
      ResultedExact(init, id);
      assert w == init + [last];
    }
  }

  lemma StripOneExact(m: Message, w: seq<Message>)
    ensures var out := StripOne(m, Resulted(w));
            && |out| <= 1 && (out == [] <==> Empty(m, w)) && (out != [] ==> LessCalls(out[0], m, w))
  {
    hide Resulted, KeptCalls, Blank, ResultFor;
    forall id
      ensures id in Resulted(w) <==> ResultFor(w, id)
    {
      ResultedExact(w, id);
    }
    KeptCallsHas(m.toolCalls, Resulted(w));
    var kept := KeptCalls(m.toolCalls, Resulted(w));
    assert kept == [] <==> forall c :: c in m.toolCalls ==> !ResultFor(w, c.id) by {
      if kept != [] {
        assert kept[0] in kept;
      }
    }
  }

  /** The places of a window that the clean-up keeps. */
  function Places(w: seq<Message>, n: nat): seq<nat>
    requires n <= |w|
  {
    if n == 0 then [] else Places(w, n - 1) + if Empty(w[n - 1], w) then [] else [n - 1]
  }

  /** Each message comes from its place, less its unanswered calls. */
  ghost predicate Placed(out: seq<Message>, at: seq<nat>, w: seq<Message>, n: nat)
    requires n <= |w|
  {
    |out| == |at| && forall k :: 0 <= k < |out| ==> at[k] < n && LessCalls(out[k], w[at[k]], w)
  }

  lemma PlacedNext(out: seq<Message>, at: seq<nat>, w: seq<Message>, n: nat, m: Message)
    requires n < |w| && Placed(out, at, w, n)
    ensures Placed(out, at, w, n + 1)
    ensures LessCalls(m, w[n], w) ==> Placed(out + [m], at + [n], w, n + 1)
  {
    hide LessCalls;
  }

  lemma {:induction false} StripUpTo(w: seq<Message>, n: nat)
    requires n <= |w|
    ensures Placed(StripAll(w[..n], Resulted(w)), Places(w, n), w, n)
  {
    hide StripAll, Resulted, LessCalls, Empty, StripOne, Placed;
    if n == 0 {
      NothingStripped();
      assert w[..0] == [];
      NonePlaced(w);
    } else {
      StripUpTo(w, n - 1);
      StripAllNext(w, n - 1, Resulted(w));
      StripOneExact(w[n - 1], w);
      var before, one := StripAll(w[..n - 1], Resulted(w)), StripOne(w[n - 1], Resulted(w));
      var at := Places(w, n - 1);
      assert before + [] == before && at + [] == at;
      PlacedNext(before, at, w, n - 1, if one == [] then w[n - 1] else one[0]);
      assert one == [] || one == [one[0]];
    }
  }

  lemma NonePlaced(w: seq<Message>)
    ensures Placed([], [], w, 0)
  {
  }

  /** The clean-up drops exactly the messages that have nothing left, and keeps the others in order, each with its own
      text and fields and its answered calls. */
  lemma StripSays(w: seq<Message>)
    ensures var at := Places(w, |w|);
            && |Strip(w)| == |at|
            && (forall k :: 0 <= k < |at| ==> at[k] < |w| && LessCalls(Strip(w)[k], w[at[k]], w))
            && (forall i :: 0 <= i < |w| ==> (i in at <==> !Empty(w[i], w)))
            && forall j, k :: 0 <= j < k < |at| ==> at[j] < at[k]
  {
    hide StripAll, LessCalls, Empty, Resulted, Places;
    assert w[..|w|] == w;
    StripUpTo(w, |w|);
    PlacesRise(w, |w|);
  }

  lemma {:induction false} PlacesRise(w: seq<Message>, n: nat)
    requires n <= |w|
    ensures forall k :: 0 <= k < |Places(w, n)| ==> Places(w, n)[k] < n
    ensures forall i :: 0 <= i < n ==> (i in Places(w, n) <==> !Empty(w[i], w))
    ensures forall j, k :: 0 <= j < k < |Places(w, n)| ==> Places(w, n)[j] < Places(w, n)[k]
  {
    hide Empty;
    if n > 0 {
      PlacesRise(w, n - 1);
      assert forall i :: i in Places(w, n) <==> i in Places(w, n - 1) || (i == n - 1 && !Empty(w[n - 1], w));
    }
  }
}
