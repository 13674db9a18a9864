/** Conversation messages, and the rule that every tool call is answered by the tool messages right after it. */
module Messages {
  import opened Wrappers
  import opened Text

  /** The role string of a message; `Other` is any string but the four the program knows. */
  datatype Role = System | User | Assistant | Tool | Other(name: string)

  datatype ToolCall = ToolCall(id: string, name: string, arguments: string)

  datatype Image = Image(mediaType: string, data: string, path: string)

  datatype Usage = Usage(prompt: int, completion: int, total: int, cached: int, reasoning: int, estimated: bool)

  datatype Message = Message(
    role: Role,
    content: string,
    reasoning: string,
    images: seq<Image>,
    timestamp: int,
    toolCallId: string,
    toolCalls: seq<ToolCall>,
    finishReason: string,
    usage: Option<Usage>)

  function Plain(role: Role, content: string, timestamp: int): Message {
    Message(role, content, "", [], timestamp, "", [], "", None)
  }

  function CallIds(calls: seq<ToolCall>): set<string> {
    set c | c in calls :: c.id
  }

  /** An assistant message that asks for tools. */
  predicate Calls(m: Message) {
    m.role == Assistant && m.toolCalls != []
  }

  /** The ids answered by the unbroken run of tool messages that starts at position i. */
  function RunIds(w: seq<Message>, i: nat): set<string>
    decreases |w| - i
  {
    if i < |w| && w[i].role == Tool then {w[i].toolCallId} + RunIds(w, i + 1) else {}
  }

  predicate Answered(w: seq<Message>, i: nat)
    requires i < |w|
  {
    Calls(w[i]) ==> CallIds(w[i].toolCalls) <= RunIds(w, i + 1)
  }

  /** The pairing rule for the whole window. */
  predicate WellPaired(w: seq<Message>) {
    forall i :: 0 <= i < |w| ==> Answered(w, i)
  }

  /** What `Append` lets into a session: text, or tool calls. */
  predicate Storable(m: Message) {
    !Blank(m.content) || m.toolCalls != []
  }

  function Kept(msgs: seq<Message>): seq<Message> {
    if msgs == [] then []
    else if Storable(msgs[0]) then [msgs[0]] + Kept(msgs[1..])
    else Kept(msgs[1..])
  }

  lemma {:induction false} KeptAll(msgs: seq<Message>)
    ensures (forall m :: m in msgs ==> Storable(m)) <==> Kept(msgs) == msgs
    ensures |Kept(msgs)| < |msgs| || Kept(msgs) == msgs
  {
    if msgs != [] {
      KeptAll(msgs[1..]);
      assert msgs == [msgs[0]] + msgs[1..];
      if Kept(msgs) == msgs && Storable(msgs[0]) {
        assert Kept(msgs)[1..] == Kept(msgs[1..]);
      }
    }
  }

  lemma {:induction false} KeptAppend(a: seq<Message>, b: seq<Message>)
    ensures Kept(a + b) == Kept(a) + Kept(b)
  {
    hide Storable;
    if a == [] {
      assert a + b == b;
    } else {
      KeptAppend(a[1..], b);
      assert (a + b)[0] == a[0] && (a + b)[1..] == a[1..] + b;
      if Storable(a[0]) {
        assert [a[0]] + (Kept(a[1..]) + Kept(b)) == [a[0]] + Kept(a[1..]) + Kept(b);
      }
    }
  }

  lemma {:induction false} RunIdsAppend(a: seq<Message>, b: seq<Message>, i: nat)
    requires i <= |a|
    ensures RunIds(a, i) <= RunIds(a + b, i)
    ensures (b != [] && b[0].role != Tool) || b == [] ==> RunIds(a + b, i) == RunIds(a, i)
    decreases |a| - i
  {
    if i < |a| {
      RunIdsAppend(a, b, i + 1);
    }
  }

  lemma {:induction false} RunIdsShift(a: seq<Message>, b: seq<Message>, i: nat)
    ensures RunIds(a + b, |a| + i) == RunIds(b, i)
    decreases |b| - i
  {
    if i < |b| {
      RunIdsShift(a, b, i + 1);
    }
  }

  /** Well-paired pieces make a well-paired whole. */
  lemma WellPairedAppend(a: seq<Message>, b: seq<Message>)
    requires WellPaired(a) && WellPaired(b)
    ensures WellPaired(a + b)
  {
    forall i | 0 <= i < |a + b|
      ensures Answered(a + b, i)
    {
      if i < |a| {
        assert Answered(a, i);
        RunIdsAppend(a, b, i + 1);
      } else {
        assert Answered(b, i - |a|);
        RunIdsShift(a, b, i - |a| + 1);
      }
    }
  }

  /** A cut in front of a message that is no tool result leaves every run of results on its own side. */
  lemma WellPairedSplit(a: seq<Message>, b: seq<Message>)
    requires WellPaired(a + b) && (b == [] || b[0].role != Tool)
    ensures WellPaired(a) && WellPaired(b)
  {
    forall i | 0 <= i < |a|
      ensures Answered(a, i)
    {
      assert Answered(a + b, i);
      RunIdsAppend(a, b, i + 1);
    }
    forall i | 0 <= i < |b|
      ensures Answered(b, i)
    {
      assert Answered(a + b, |a| + i);
      RunIdsShift(a, b, i + 1);
    }
  }
}
