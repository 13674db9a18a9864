/** What sanitizing does, message by message, and from that exactly when its two promises hold: that orphaned
    results go, and that sanitizing twice is sanitizing once. */
module SanitizingExact {
  import opened Messages
  import opened Sanitizing
  import opened RequestAssembly

  /** An assistant message with a call whose id is incomplete. */
  predicate Open(m: Message, incomplete: set<string>) { Calls(m) && !(CallIds(m.toolCalls) !! incomplete) }

  /** The nearest message in front of position i that is no tool message is open: a tool message at i would stand
      in the run of tool messages behind it. */
  predicate AfterOpen(w: seq<Message>, i: nat, incomplete: set<string>)
    requires i <= |w|
  {
    i > 0 && if w[i - 1].role == Tool then AfterOpen(w, i - 1, incomplete) else Open(w[i - 1], incomplete)
  }

  /** What becomes of message i: results in runs behind open messages go, open messages lose their calls, every
      other message stays as it is. */
  function CleanedOne(w: seq<Message>, i: nat, incomplete: set<string>): seq<Message>
    requires i < |w|
  {
    if w[i].role == Tool then if AfterOpen(w, i, incomplete) then [] else [w[i]]
    else if Open(w[i], incomplete) then [w[i].(toolCalls := [])]
    else [w[i]]
  }

  function Cleaned(w: seq<Message>, n: nat, incomplete: set<string>): seq<Message>
    requires n <= |w|
  {
    if n == 0 then [] else Cleaned(w, n - 1, incomplete) + CleanedOne(w, n - 1, incomplete)
  }

  /** No tool message answers an incomplete id. */
  predicate Unanswered(w: seq<Message>, incomplete: set<string>) {
    forall m :: m in w && m.role == Tool ==> m.toolCallId !in incomplete
  }

  lemma IncompleteUnanswered(w: seq<Message>)
    ensures Unanswered(w, Incomplete(w))
  {
    ExpectedExact(w);
  }

  lemma {:induction false} PassCleans(w: seq<Message>, n: nat, incomplete: set<string>)
    requires n <= |w| && Unanswered(w, incomplete)
    ensures SanitizePass(w[..n], incomplete) == Pass(Cleaned(w, n, incomplete), AfterOpen(w, n, incomplete))
  {
    if n > 0 {
      PassCleans(w, n - 1, incomplete);
      assert w[..n][..n - 1] == w[..n - 1] && w[..n][n - 1] == w[n - 1];
      assert w[n - 1] in w;
    }
  }

  /** Sanitizing, message by message. */
  lemma SanitizeExact(w: seq<Message>)
    ensures Sanitize(w) == Cleaned(w, |w|, Incomplete(w))
  {
    IncompleteUnanswered(w);
    PassCleans(w, |w|, Incomplete(w));
    assert w[..|w|] == w;
  }

  lemma {:induction false} InCleaned(w: seq<Message>, n: nat, incomplete: set<string>, m: Message)
    requires n <= |w|
    ensures m in Cleaned(w, n, incomplete) <==> exists i :: 0 <= i < n && CleanedOne(w, i, incomplete) == [m]
  {
    hide CleanedOne;
    if n > 0 {
      InCleaned(w, n - 1, incomplete, m);
      CleanedFew(w, n - 1, incomplete);
    }
  }

  lemma CleanedFew(w: seq<Message>, i: nat, incomplete: set<string>)
    requires i < |w|
    ensures |CleanedOne(w, i, incomplete)| <= 1
  {
  }

  lemma Sanitized(w: seq<Message>, m: Message)
    ensures m in Sanitize(w) <==> exists i :: 0 <= i < |w| && CleanedOne(w, i, Incomplete(w)) == [m]
  {
    SanitizeExact(w);
    InCleaned(w, |w|, Incomplete(w), m);
  }

  // ---------------------------------------------------------------- orphans

  /** A result that no call of the window asks for. */
  predicate Orphan(w: seq<Message>, m: Message) { m.role == Tool && m.toolCallId !in Expected(w) }

  /** Sanitizing leaves no orphan exactly if every one of them stands in the run of tool messages behind a message
      with an incomplete call. */
  lemma OrphansGo(w: seq<Message>)
    ensures (forall m :: m in Sanitize(w) ==> !Orphan(w, m))
       <==> (forall i :: 0 <= i < |w| && Orphan(w, w[i]) ==> AfterOpen(w, i, Incomplete(w)))
  {
    hide Expected, Sanitize, AfterOpen, Incomplete;
    var incomplete := Incomplete(w);
    forall m
      ensures m in Sanitize(w) <==> exists i :: 0 <= i < |w| && CleanedOne(w, i, incomplete) == [m]
    {
      Sanitized(w, m);
    }
    forall i | 0 <= i < |w| && Orphan(w, w[i])
      ensures w[i] in Sanitize(w) || AfterOpen(w, i, incomplete)
    {
      assert !AfterOpen(w, i, incomplete) ==> CleanedOne(w, i, incomplete) == [w[i]];
    }
    if forall i :: 0 <= i < |w| && Orphan(w, w[i]) ==> AfterOpen(w, i, incomplete) {
      forall m | m in Sanitize(w)
        ensures !Orphan(w, m)
      {
        var i :| 0 <= i < |w| && CleanedOne(w, i, incomplete) == [m];
        assert m.role == Tool ==> w[i] == m;
      }
    }
  }

  // ---------------------------------------------------------------- twice

  /** A result with this id stands outside the runs behind open messages. */
  predicate KeepsResult(w: seq<Message>, id: string) {
    exists i :: 0 <= i < |w| && w[i].role == Tool && w[i].toolCallId == id && !AfterOpen(w, i, Incomplete(w))
  }

  lemma SanitizedResults(w: seq<Message>, id: string)
    ensures id in ToolIds(Sanitize(w)) <==> KeepsResult(w, id)
  {
    hide Sanitize, AfterOpen, Incomplete, Expected, ToolIds, Open;
    var out := Sanitize(w);
    ExpectedExact(out);
    if id in ToolIds(out) {
      var k :| 0 <= k < |out| && out[k].role == Tool && out[k].toolCallId == id;
      Sanitized(w, out[k]);
      var i :| 0 <= i < |w| && CleanedOne(w, i, Incomplete(w)) == [out[k]];
      assert w[i] == out[k];
    }
    if KeepsResult(w, id) {
      var i :| 0 <= i < |w| && w[i].role == Tool && w[i].toolCallId == id && !AfterOpen(w, i, Incomplete(w));
      assert CleanedOne(w, i, Incomplete(w)) == [w[i]];
      Sanitized(w, w[i]);
    }
  }

  lemma SanitizedCalls(w: seq<Message>, id: string)
    ensures id in Expected(Sanitize(w)) <==>
              exists i :: 0 <= i < |w| && Calls(w[i]) && !Open(w[i], Incomplete(w)) && id in CallIds(w[i].toolCalls)
  {
    hide Sanitize, AfterOpen, Incomplete, Expected, ToolIds;
    var out := Sanitize(w);
    ExpectedExact(out);
    if id in Expected(out) {
      var k :| 0 <= k < |out| && Calls(out[k]) && id in CallIds(out[k].toolCalls);
      Sanitized(w, out[k]);
      var i :| 0 <= i < |w| && CleanedOne(w, i, Incomplete(w)) == [out[k]];
      assert w[i] == out[k];
    }
    forall i | 0 <= i < |w| && Calls(w[i]) && !Open(w[i], Incomplete(w)) && id in CallIds(w[i].toolCalls)
      ensures id in Expected(out)
    {
      assert CleanedOne(w, i, Incomplete(w)) == [w[i]];
      Sanitized(w, w[i]);
    }
  }

  /** Sanitizing twice is sanitizing once exactly if every id that a message without incomplete calls asks for has
      a result outside the runs of tool messages behind messages with incomplete calls. */
  lemma SanitizeIdempotent(w: seq<Message>)
    ensures Sanitize(Sanitize(w)) == Sanitize(w) <==>
            forall i, c :: 0 <= i < |w| && Calls(w[i]) && !Open(w[i], Incomplete(w)) && c in w[i].toolCalls ==>
              KeepsResult(w, c.id)
  {
    hide KeepsResult, Incomplete;
    var out := Sanitize(w);
    SanitizeIdentity(out);
    forall id
      ensures id in ToolIds(out) <==> KeepsResult(w, id)
      ensures id in Expected(out) <==>
                exists i :: 0 <= i < |w| && Calls(w[i]) && !Open(w[i], Incomplete(w)) && id in CallIds(w[i].toolCalls)
    {
      SanitizedResults(w, id);
      SanitizedCalls(w, id);
    }
    assert Incomplete(out) == Expected(out) - ToolIds(out) by {
      IncompleteIs(out);
    }
    if forall i, c :: 0 <= i < |w| && Calls(w[i]) && !Open(w[i], Incomplete(w)) && c in w[i].toolCalls ==>
                        KeepsResult(w, c.id) {
      forall id | id in Expected(out)
        ensures id in ToolIds(out)
      {
        var i :| 0 <= i < |w| && Calls(w[i]) && !Open(w[i], Incomplete(w)) && id in CallIds(w[i].toolCalls);
        var c :| c in w[i].toolCalls && c.id == id;
      }
    } else {
      var i, c :| 0 <= i < |w| && Calls(w[i]) && !Open(w[i], Incomplete(w)) && c in w[i].toolCalls
                  && !KeepsResult(w, c.id);
      assert c.id in CallIds(w[i].toolCalls);
      assert c.id in Expected(out) && c.id !in ToolIds(out);
    }
  }

  lemma IncompleteIs(w: seq<Message>)
    ensures Incomplete(w) == Expected(w) - ToolIds(w)
  {
  }

  /** Two messages with one call each, the second one's unanswered: sanitizing takes the first one's result away
      with it. */
  lemma SanitizeNotIdempotent(first: Message, second: Message, tool: Message, a: ToolCall, b: ToolCall)
    requires first.role == second.role == Assistant && first.toolCalls == [a] && second.toolCalls == [b]
    requires tool.role == Tool && tool.toolCallId == a.id && a.id != b.id
    ensures var w := [first, second, tool]; Sanitize(Sanitize(w)) != Sanitize(w)
  {
    var w := [first, second, tool];
    ExpectedExact(w);
    assert CallIds([a]) == {a.id} && CallIds([b]) == {b.id} by {
      assert [a][0] == a && [b][0] == b;
    }
    assert w[0] == first && w[1] == second && w[2] == tool;
    assert b.id in Incomplete(w) && a.id !in Incomplete(w) by {
      assert b.id in Expected(w) && b.id !in ToolIds(w) && a.id in ToolIds(w);
    }
    hide Incomplete, Expected, ToolIds;
    assert Open(second, Incomplete(w)) && !Open(first, Incomplete(w));
    assert AfterOpen(w, 2, Incomplete(w));
    assert !KeepsResult(w, a.id) by {
      assert forall i :: 0 <= i < 3 && w[i].role == Tool ==> i == 2;
    }
    SanitizeIdempotent(w);
    assert Calls(w[0]) && a in w[0].toolCalls;
  }
}
