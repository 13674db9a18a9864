/** What a refused write-back costs. The next one starts at the old watermark, from a bridge that has already
    counted the messages that were prepared: exactly when nothing is said twice, and exactly when usages, drawn ids
    and the pairing of results come out as they should. */
module WriteBackRetry {
  import opened Wrappers
  import opened Text
  import opened Messages
  import opened EventBridge
  import opened WriteBackRuns
  import opened WriteBackUsage
  import opened WriteBackPairing

  // ---------------------------------------------------------------- where it stops

  /** Message p is the one at which there is more to write than the store takes. */
  predicate RefusedAt(b: Bridge, msgs: seq<EngineMsg>, i: nat, p: nat, accepts: nat) {
    i <= p < |msgs|
    && var (b1, out) := EmitRange(b, msgs, i, p);
       |out| <= accepts < |out| + |EmitOne(b1, msgs, p).1|
  }

  lemma {:induction false} EmitRangeNext(b: Bridge, msgs: seq<EngineMsg>, i: nat, p: nat)
    requires i <= p < |msgs|
    ensures var (b1, out) := EmitRange(b, msgs, i, p);
            var (b2, one) := EmitOne(b1, msgs, p);
            EmitRange(b, msgs, i, p + 1) == (b2, out + one)
  {
    hide EmitOne;
    EmitRangeSplit(b, msgs, i, p, p + 1);
    var b1 := EmitRange(b, msgs, i, p).0;
    var (b2, one) := EmitOne(b1, msgs, p);
    assert EmitRange(b2, msgs, p + 1, p + 1) == (b2, []);
    assert one + [] == one;
  }

  /** There is more to write than the store takes exactly if there is such a message. */
  lemma {:induction false} RefusalFound(b: Bridge, msgs: seq<EngineMsg>, i: nat, n: nat, accepts: nat)
    requires i <= n <= |msgs|
    ensures |EmitRange(b, msgs, i, n).1| > accepts <==> exists p: nat :: p < n && RefusedAt(b, msgs, i, p, accepts)
    decreases n - i
  {
    hide EmitRange;
    if i == n {
      EmitsNothing(b, msgs, i);
    } else {
      RefusalFound(b, msgs, i, n - 1, accepts);
      EmitRangeNext(b, msgs, i, n - 1);
      if |EmitRange(b, msgs, i, n).1| > accepts && |EmitRange(b, msgs, i, n - 1).1| <= accepts {
        assert RefusedAt(b, msgs, i, n - 1, accepts);
      }
      forall p: nat | p < n && RefusedAt(b, msgs, i, p, accepts)
        ensures |EmitRange(b, msgs, i, n).1| > accepts
      {
        if p < n - 1 {
          assert p < n - 1 && RefusedAt(b, msgs, i, p, accepts);
        } else {
          EmitRangeNext(b, msgs, i, p);
        }
      }
    }
  }

  lemma EmitsNothing(b: Bridge, msgs: seq<EngineMsg>, i: nat)
    requires i <= |msgs|
    ensures EmitRange(b, msgs, i, i) == (b, [])
  {
  }

  /** What is left behind: the messages in front of p are counted and taken, p itself is counted, and taken if only
      its pictures were refused. */
  lemma {:induction false} RefusedBridge(b: Bridge, msgs: seq<EngineMsg>, i: nat, p: nat, accepts: nat)
    requires RefusedAt(b, msgs, i, p, accepts)
    ensures var (b1, out) := EmitRange(b, msgs, i, p);
            var w := WriteFrom(b, msgs, i, accepts);
            && !w.ok && w.b == Prepare(b1, msgs, p).0
            && w.out == out + EmitOne(b1, msgs, p).1[..accepts - |out|]
    decreases p - i
  {
    hide EmitRange, EmitOne, WriteOne;
    var (b0, one) := EmitOne(b, msgs, i);
    WriteOneEmits(b, msgs, i, accepts);
    EmitsNothing(b, msgs, i);
    EmitRangeNext(b, msgs, i, p);
    if i == p {
      RefusedOne(b, msgs, i, accepts);
      assert [] + one == one;
      assert [] + one[..accepts] == one[..accepts];
    } else {
      EmitRangeSplit(b, msgs, i, i + 1, p);
      EmitRangeSplit(b, msgs, i, i + 1, p + 1);
      EmitRangeNext(b, msgs, i, i);
      assert [] + one == one;
      var rest := EmitRange(b0, msgs, i + 1, p).1;
      assert EmitRange(b, msgs, i, p).1 == one + rest;
      RefusedBridge(b0, msgs, i + 1, p, accepts - |one|);
      var last := EmitOne(EmitRange(b, msgs, i, p).0, msgs, p).1[..accepts - |one| - |rest|];
      assert one + (rest + last) == one + rest + last;
    }
  }

  lemma RefusedOne(b: Bridge, msgs: seq<EngineMsg>, i: nat, accepts: nat)
    requires i < |msgs| && accepts < |EmitOne(b, msgs, i).1|
    ensures var w := WriteOne(b, msgs, i, accepts);
            !w.ok && w.b == Prepare(b, msgs, i).0 && w.out == EmitOne(b, msgs, i).1[..accepts]
  {
    hide Prepare, Storable, ImageMessage;
  }

  /** A write-back is refused exactly if there is such a message. */
  lemma RefusalExact(b: Bridge, msgs: seq<EngineMsg>, accepts: nat)
    requires b.writeBase <= b.writeLen
    ensures !WriteBack(b, msgs, accepts).ok <==>
            exists p: nat :: p < |msgs| && RefusedAt(b, msgs, b.writeLen, p, accepts)
  {
    hide EmitRange, WriteFrom, RefusedAt;
    if b.writeLen < |msgs| {
      WriteFromEmits(b, msgs, b.writeLen, accepts);
      RefusalFound(b, msgs, b.writeLen, |msgs|, accepts);
    } else {
      NothingRefused(b, msgs, accepts);
    }
  }

  lemma NothingRefused(b: Bridge, msgs: seq<EngineMsg>, accepts: nat)
    requires |msgs| <= b.writeLen
    ensures forall p: nat :: !RefusedAt(b, msgs, b.writeLen, p, accepts)
  {
  }

  /** The bridge that the next write-back finds. */
  function Refused(b: Bridge, msgs: seq<EngineMsg>, p: nat): Bridge
    requires b.writeLen <= p < |msgs|
  {
    Prepare(EmitRange(b, msgs, b.writeLen, p).0, msgs, p).0
  }

  lemma PrepareKeepsMarks(b: Bridge, msgs: seq<EngineMsg>, i: nat)
    requires i < |msgs|
    ensures var r := Prepare(b, msgs, i).0; r.writeLen == b.writeLen && r.writeBase == b.writeBase
  {
    hide TakeUsage, QueueIds, TakeResult;
  }

  /** A refused write-back and the next one, with a willing store: the second writes everything behind the watermark. */
  lemma RetryWrites(b: Bridge, msgs: seq<EngineMsg>, p: nat, accepts: nat)
    requires b.writeBase <= b.writeLen && RefusedAt(b, msgs, b.writeLen, p, accepts)
    ensures var first := WriteBack(b, msgs, accepts);
            var second := WriteBack(first.b, msgs, 2 * |msgs|);
            var (b1, out) := EmitRange(b, msgs, b.writeLen, p);
            && !first.ok && first.b == Refused(b, msgs, p)
            && first.out == out + EmitOne(b1, msgs, p).1[..accepts - |out|]
            && second.ok && second.out == EmitRange(Refused(b, msgs, p), msgs, b.writeLen, |msgs|).1
  {
    hide EmitRange, EmitOne, WriteFrom, Prepare;
    var base := b.writeLen;
    RefusedBridge(b, msgs, base, p, accepts);
    EmitRangeMarks(b, msgs, base, p, b.writeLen);
    PrepareKeepsMarks(EmitRange(b, msgs, base, p).0, msgs, p);
    var r := Refused(b, msgs, p);
    assert b.(writeLen := b.writeLen) == b;
    EmitFits(r, msgs, base, |msgs|);
    WriteFromEmits(r, msgs, base, 2 * |msgs|);
  }

  // ---------------------------------------------------------------- what is said twice

  /** A message that is taken without its pictures is taken as it was said; none of it is, if nothing is taken. */
  lemma OneSpeaksFirst(b: Bridge, msgs: seq<EngineMsg>, i: nat, k: nat)
    requires i < |msgs| && k < |EmitOne(b, msgs, i).1|
    ensures Conversation(EmitOne(b, msgs, i).1[..k]) == if k == 0 then [] else Said(msgs[i])
  {
    EmitOneSpeaks(b, msgs, i);
    hide Prepare, Said, Storable;
    var (b1, m) := Prepare(b, msgs, i);
    var one := EmitOne(b, msgs, i).1;
    if k > 0 {
      var picture := ImageMessage(b1.lane.pendingImages.value);
      assert one == [m] + [picture] && one[..k] == [m];
      ConversationAppend([m], [picture]);
      PictureSilent(b1.lane.pendingImages.value);
    }
  }

  lemma PictureSilent(e: ImageEntry)
    requires e.blocks != []
    ensures Conversation([ImageMessage(e)]) == []
  {
  }

  /** After a refused write-back the next one starts at the old watermark and says all of it again. Nothing is said
      twice exactly if no message in front of the refused one says anything, and neither does the refused one, or its
      own text was not taken. */
  lemma RetryRepeats(b: Bridge, msgs: seq<EngineMsg>, p: nat, accepts: nat)
    requires b.writeBase <= b.writeLen && RefusedAt(b, msgs, b.writeLen, p, accepts)
    ensures var first := WriteBack(b, msgs, accepts);
            var second := WriteBack(first.b, msgs, 2 * |msgs|);
            var base, taken := b.writeLen, |EmitRange(b, msgs, b.writeLen, p).1|;
            && Conversation(first.out + second.out)
            == Spoken(msgs, base, p) + (if accepts == taken then [] else Said(msgs[p])) + Spoken(msgs, base, |msgs|)
            && (Conversation(first.out + second.out) == Spoken(msgs, base, |msgs|)
                <==> Spoken(msgs, base, p) == [] && (accepts == taken || Said(msgs[p]) == []))
  {
    hide EmitRange, EmitOne, Spoken, Conversation, Said, WriteBack, Prepare;
    var base := b.writeLen;
    var first := WriteBack(b, msgs, accepts);
    RetryWrites(b, msgs, p, accepts);
    var (b1, out) := EmitRange(b, msgs, base, p);
    var second := WriteBack(first.b, msgs, 2 * |msgs|);
    EmitRangeNext(b, msgs, base, p);
    WrittenOnceInOrder(b, msgs, base, p);
    WrittenOnceInOrder(Refused(b, msgs, p), msgs, base, |msgs|);
    OneSpeaksFirst(b1, msgs, p, accepts - |out|);
    ConversationAppend(out, EmitOne(b1, msgs, p).1[..accepts - |out|]);
    ConversationAppend(first.out, second.out);
  }

  // ---------------------------------------------------------------- whose usage the retry carries

  lemma {:induction false} AssistantsSplit(msgs: seq<EngineMsg>, i: nat, k: nat, n: nat)
    requires i <= k <= n <= |msgs|
    ensures Assistants(msgs, i, n) == Assistants(msgs, i, k) + Assistants(msgs, k, n)
    decreases k - i
  {
    if i < k {
      AssistantsSplit(msgs, i + 1, k, n);
    }
  }

  lemma {:induction false} LedgerAfterRange(b: Bridge, msgs: seq<EngineMsg>, i: nat, n: nat)
    requires i <= n <= |msgs|
    ensures var l := EmitRange(b, msgs, i, n).0.ledger;
            && l.asstSeq == b.ledger.asstSeq + Assistants(msgs, i, n)
            && SameFrom(b.ledger.callUsage, l.callUsage, l.asstSeq)
    decreases n - i
  {
    hide EmitOne, TakeUsage;
    if i < n {
      LedgerAfterOne(b, msgs, i);
      TakenLedger(b.ledger, msgs, i);
      LedgerAfterRange(EmitOne(b, msgs, i).0, msgs, i + 1, n);
    }
  }

  /** From call k on the two tables say the same. */
  predicate SameFrom(calls: map<nat, CallUsage>, less: map<nat, CallUsage>, k: nat) {
    && (forall j :: j in calls && j >= k ==> j in less && calls[j] == less[j])
    && (forall j :: j in less && j >= k ==> j in calls)
  }

  lemma RefusedLedger(b: Bridge, msgs: seq<EngineMsg>, p: nat)
    requires b.writeLen <= p < |msgs|
    ensures var l := Refused(b, msgs, p).ledger;
            && l == EmitRange(b, msgs, b.writeLen, p + 1).0.ledger
            && l.asstSeq == b.ledger.asstSeq + Assistants(msgs, b.writeLen, p + 1)
            && SameFrom(b.ledger.callUsage, l.callUsage, l.asstSeq)
  {
    hide EmitRange, EmitOne, Prepare;
    EmitRangeNext(b, msgs, b.writeLen, p);
    PreparedLedger(EmitRange(b, msgs, b.writeLen, p).0, msgs, p);
    LedgerAfterRange(b, msgs, b.writeLen, p + 1);
  }

  lemma PreparedLedger(b: Bridge, msgs: seq<EngineMsg>, i: nat)
    requires i < |msgs|
    ensures Prepare(b, msgs, i).0.ledger == EmitOne(b, msgs, i).0.ledger
  {
    hide TakeUsage, QueueIds, TakeResult, Storable, ImageMessage;
  }

  /** Every storable assistant message behind position i would carry the same, were the calls counted `shift` ahead. */
  predicate SameDue(calls: map<nat, CallUsage>, k: nat, shift: nat, msgs: seq<EngineMsg>, i: nat)
    requires i <= |msgs|
  {
    forall j :: i <= j < |msgs| && msgs[j].role == Assistant && Said(msgs[j]) != [] ==>
      UsageAt(calls, k + Assistants(msgs, i, j) + shift, msgs, j) == UsageAt(calls, k + Assistants(msgs, i, j), msgs, j)
  }

  lemma SameDueNext(calls: map<nat, CallUsage>, k: nat, shift: nat, msgs: seq<EngineMsg>, i: nat)
    requires i < |msgs|
    ensures SameDue(calls, k, shift, msgs, i) <==>
            && (msgs[i].role == Assistant && Said(msgs[i]) != [] ==>
                  UsageAt(calls, k + shift, msgs, i) == UsageAt(calls, k, msgs, i))
            && SameDue(calls, if msgs[i].role == Assistant then k + 1 else k, shift, msgs, i + 1)
  {
    hide Said, UsageAt;
    var next := if msgs[i].role == Assistant then k + 1 else k;
    assert Assistants(msgs, i, i) == 0;
    forall j | i < j < |msgs|
      ensures k + Assistants(msgs, i, j) == next + Assistants(msgs, i + 1, j)
    {
    }
    if SameDue(calls, k, shift, msgs, i) {
      forall j | i + 1 <= j < |msgs| && msgs[j].role == Assistant && Said(msgs[j]) != []
        ensures UsageAt(calls, next + Assistants(msgs, i + 1, j) + shift, msgs, j)
             == UsageAt(calls, next + Assistants(msgs, i + 1, j), msgs, j)
      {
      }
    }
  }

  lemma {:induction false} DueShifted(calls: map<nat, CallUsage>, k: nat, shift: nat, msgs: seq<EngineMsg>, i: nat)
    requires i <= |msgs|
    ensures |Due(calls, k + shift, msgs, i, |msgs|)| == |Due(calls, k, msgs, i, |msgs|)|
    ensures Due(calls, k + shift, msgs, i, |msgs|) == Due(calls, k, msgs, i, |msgs|) <==>
            SameDue(calls, k, shift, msgs, i)
    decreases |msgs| - i
  {
    hide Said, UsageAt, SameDue;
    if i < |msgs| {
      SameDueNext(calls, k, shift, msgs, i);
      var next := if msgs[i].role == Assistant then k + 1 else k;
      DueShifted(calls, next, shift, msgs, i + 1);
      if msgs[i].role == Assistant && Said(msgs[i]) != [] {
        var x, y := Due(calls, k + 1 + shift, msgs, i + 1, |msgs|), Due(calls, k + 1, msgs, i + 1, |msgs|);
        var u, v := (msgs[i].text, UsageAt(calls, k + shift, msgs, i)), (msgs[i].text, UsageAt(calls, k, msgs, i));
        FirstAndRest(u, x, v, y);
      } else if msgs[i].role == Assistant {
        var x, y := Due(calls, k + 1 + shift, msgs, i + 1, |msgs|), Due(calls, k + 1, msgs, i + 1, |msgs|);
        assert [] + x == x && [] + y == y;
      }
    } else {
      NothingDue(calls, k, shift, msgs);
    }
  }

  lemma NothingDue(calls: map<nat, CallUsage>, k: nat, shift: nat, msgs: seq<EngineMsg>)
    ensures SameDue(calls, k, shift, msgs, |msgs|)
  {
  }

  lemma FirstAndRest<T>(u: T, x: seq<T>, v: T, y: seq<T>)
    requires |x| == |y|
    ensures [u] + x == [v] + y <==> u == v && x == y
  {
    if [u] + x == [v] + y {
      assert ([u] + x)[0] == u && ([v] + y)[0] == v;
      assert ([u] + x)[1..] == x && ([v] + y)[1..] == y;
    }
  }

  /** The retry carries, with each assistant message, the usage of the call so many places later as assistant messages
      had been prepared. The usages come out as they should exactly if the reports agree over that distance. */
  lemma RetryUsage(b: Bridge, msgs: seq<EngineMsg>, p: nat, accepts: nat)
    requires b.writeBase <= b.writeLen && RefusedAt(b, msgs, b.writeLen, p, accepts)
    ensures var second := WriteBack(WriteBack(b, msgs, accepts).b, msgs, 2 * |msgs|);
            var base, calls, k := b.writeLen, b.ledger.callUsage, b.ledger.asstSeq;
            var prepared := Assistants(msgs, base, p + 1);
            && Carried(second.out) == Due(calls, k + prepared, msgs, base, |msgs|)
            && (Carried(second.out) == Due(calls, k, msgs, base, |msgs|) <==> SameDue(calls, k, prepared, msgs, base))
  {
    hide EmitRange, EmitOne, WriteBack, Prepare, Due, Carried, SameDue;
    var base, k := b.writeLen, b.ledger.asstSeq;
    RetryWrites(b, msgs, p, accepts);
    var r := Refused(b, msgs, p);
    RefusedLedger(b, msgs, p);
    RangeCarries(r, msgs, base, |msgs|);
    DueIgnores(b.ledger.callUsage, r.ledger.callUsage, r.ledger.asstSeq, msgs, base, |msgs|);
    DueShifted(b.ledger.callUsage, k, Assistants(msgs, base, p + 1), msgs, base);
  }

  /** The usual case, a report for every assistant message behind the watermark and none beyond: the usages survive a
      refusal exactly if no assistant message had been prepared. */
  lemma RetryLosesUsage(b: Bridge, msgs: seq<EngineMsg>, p: nat, accepts: nat)
    requires b.writeBase <= b.writeLen && RefusedAt(b, msgs, b.writeLen, p, accepts)
    requires forall k :: k in b.ledger.callUsage <==>
               b.ledger.asstSeq <= k < b.ledger.asstSeq + Assistants(msgs, b.writeLen, |msgs|)
    requires forall j :: b.writeLen <= j < |msgs| && msgs[j].role == Assistant ==> Said(msgs[j]) != []
    ensures var second := WriteBack(WriteBack(b, msgs, accepts).b, msgs, 2 * |msgs|);
            Carried(second.out) == Due(b.ledger.callUsage, b.ledger.asstSeq, msgs, b.writeLen, |msgs|)
            <==> Assistants(msgs, b.writeLen, p + 1) == 0
  {
    hide WriteBack, EmitRange, EmitOne, Due, Carried, Said, UsageOf;
    var base, prepared := b.writeLen, Assistants(msgs, b.writeLen, p + 1);
    RetryUsage(b, msgs, p, accepts);
    AssistantsSplit(msgs, base, p + 1, |msgs|);
    if prepared > 0 {
      var j := LastAssistant(msgs, base);
      AssistantsSplit(msgs, base, j, |msgs|);
      assert Assistants(msgs, j, |msgs|) == 1 + Assistants(msgs, j + 1, |msgs|);
      assert UsageAt(b.ledger.callUsage, b.ledger.asstSeq + Assistants(msgs, base, j) + prepared, msgs, j).None?;
      assert UsageAt(b.ledger.callUsage, b.ledger.asstSeq + Assistants(msgs, base, j), msgs, j).Some?;
    }
  }

  lemma {:induction false} LastAssistant(msgs: seq<EngineMsg>, i: nat) returns (j: nat)
    requires i <= |msgs| && Assistants(msgs, i, |msgs|) > 0
    ensures i <= j < |msgs| && msgs[j].role == Assistant && Assistants(msgs, j + 1, |msgs|) == 0
    decreases |msgs| - i
  {
    if Assistants(msgs, i + 1, |msgs|) > 0 {
      j := LastAssistant(msgs, i + 1);
    } else {
      j := i;
    }
  }

  // ---------------------------------------------------------------- drawn ids

  /** Calls without an id among the assistant messages i..n. */
  function Unidentified(msgs: seq<EngineMsg>, i: nat, n: nat): nat
    requires i <= n <= |msgs|
    decreases n - i
  {
    if i == n then 0
    else (if msgs[i].role == Assistant then Missing(msgs[i].toolCalls) else 0) + Unidentified(msgs, i + 1, n)
  }

  /** The calls of the assistant messages i..n, ids drawn from number d on. */
  function AllCalls(d: nat, msgs: seq<EngineMsg>, i: nat, n: nat): seq<ToolCall>
    requires i <= n <= |msgs|
    decreases n - i
  {
    if i == n then []
    else if msgs[i].role != Assistant then AllCalls(d, msgs, i + 1, n)
    else Identified(d, msgs[i].toolCalls) + AllCalls(d + Missing(msgs[i].toolCalls), msgs, i + 1, n)
  }

  function CallsIn(out: seq<Message>): seq<ToolCall> {
    if out == [] then [] else OwnCalls(out[0]) + CallsIn(out[1..])
  }

  function OwnCalls(m: Message): seq<ToolCall> { m.toolCalls }

  lemma {:induction false} CallsInAppend(a: seq<Message>, b: seq<Message>)
    ensures CallsIn(a + b) == CallsIn(a) + CallsIn(b)
  {
    hide OwnCalls;
    if a == [] {
      assert a + b == b;
    } else {
      CallsInAppend(a[1..], b);
      assert (a + b)[0] == a[0] && (a + b)[1..] == a[1..] + b;
      var x, y, z := OwnCalls(a[0]), CallsIn(a[1..]), CallsIn(b);
      assert x + (y + z) == x + y + z;
    }
  }

  lemma CallsInOne(b: Bridge, msgs: seq<EngineMsg>, i: nat)
    requires i < |msgs|
    ensures var (b1, one) := EmitOne(b, msgs, i);
            && CallsIn(one) == (if msgs[i].role == Assistant then Identified(b.lane.synthetic, msgs[i].toolCalls)
                                else [])
            && b1.lane.synthetic == b.lane.synthetic + if msgs[i].role == Assistant then Missing(msgs[i].toolCalls)
                else 0
  {
    IdentifiedCount(b.lane.synthetic, msgs[i].toolCalls);
    hide TakeUsage, ImageFor, Identified, Missing, Blank;
    var (b1, m) := Prepare(b, msgs, i);
    var one := if Storable(m) then [m] else [];
    if m.role == Tool && HasImages(b1.lane) {
      CallsInAppend(one, [ImageMessage(b1.lane.pendingImages.value)]);
    }
  }

  lemma {:induction false} CallsInRange(b: Bridge, msgs: seq<EngineMsg>, i: nat, n: nat)
    requires i <= n <= |msgs|
    ensures CallsIn(EmitRange(b, msgs, i, n).1) == AllCalls(b.lane.synthetic, msgs, i, n)
    ensures EmitRange(b, msgs, i, n).0.lane.synthetic == b.lane.synthetic + Unidentified(msgs, i, n)
    decreases n - i
  {
    hide EmitOne, Identified, Missing, CallsIn;
    if i == n {
      NoCalls();
    } else {
      var (b1, one) := EmitOne(b, msgs, i);
      CallsInOne(b, msgs, i);
      CallsInRange(b1, msgs, i + 1, n);
      CallsInAppend(one, EmitRange(b1, msgs, i + 1, n).1);
      assert [] + CallsIn(EmitRange(b1, msgs, i + 1, n).1) == CallsIn(EmitRange(b1, msgs, i + 1, n).1);
    }
  }

  lemma NoCalls()
    ensures CallsIn([]) == []
  {
  }

  function IdentifiedLast(n: nat, calls: seq<ToolCall>): ToolCall
    requires calls != []
  {
    var c := calls[|calls| - 1];
    if c.id == "" then c.(id := RecordId(n + Missing(calls[..|calls| - 1]))) else c
  }

  lemma IdentifiedSteps(n: nat, calls: seq<ToolCall>)
    ensures calls == [] ==> Identified(n, calls) == [] && Missing(calls) == 0
    ensures calls != [] ==>
              var init := calls[..|calls| - 1];
              && Identified(n, calls) == Identified(n, init) + [IdentifiedLast(n, calls)]
              && Missing(calls) == Missing(init) + if calls[|calls| - 1].id == "" then 1 else 0
  {
  }

  lemma {:induction false} IdentifiedShifted(d: nat, e: nat, calls: seq<ToolCall>)
    requires d != e
    ensures |Identified(d, calls)| == |Identified(e, calls)|
    ensures Identified(d, calls) == Identified(e, calls) <==> Missing(calls) == 0
  {
    hide RecordId, Identified, Missing;
    IdentifiedSteps(d, calls);
    IdentifiedSteps(e, calls);
    if calls != [] {
      var init, c := calls[..|calls| - 1], calls[|calls| - 1];
      IdentifiedShifted(d, e, init);
      RecordIdsDiffer(d + Missing(init), e + Missing(init));
      BothParts(Identified(d, init), [IdentifiedLast(d, calls)], Identified(e, init), [IdentifiedLast(e, calls)]);
    }
  }

  lemma {:induction false} CallsShifted(d: nat, e: nat, msgs: seq<EngineMsg>, i: nat, n: nat)
    requires i <= n <= |msgs| && d != e
    ensures |AllCalls(d, msgs, i, n)| == |AllCalls(e, msgs, i, n)|
    ensures AllCalls(d, msgs, i, n) == AllCalls(e, msgs, i, n) <==> Unidentified(msgs, i, n) == 0
    decreases n - i
  {
    hide Identified, Missing;
    if i < n {
      if msgs[i].role == Assistant {
        var calls := msgs[i].toolCalls;
        IdentifiedShifted(d, e, calls);
        CallsShifted(d + Missing(calls), e + Missing(calls), msgs, i + 1, n);
        BothParts(Identified(d, calls), AllCalls(d + Missing(calls), msgs, i + 1, n),
                  Identified(e, calls), AllCalls(e + Missing(calls), msgs, i + 1, n));
      } else {
        CallsShifted(d, e, msgs, i + 1, n);
      }
    }
  }

  lemma BothParts<T>(a: seq<T>, x: seq<T>, b: seq<T>, y: seq<T>)
    requires |a| == |b| && |x| == |y|
    ensures a + x == b + y <==> a == b && x == y
  {
    if a + x == b + y {
      assert (a + x)[..|a|] == a && (b + y)[..|b|] == b;
      assert (a + x)[|a|..] == x && (b + y)[|b|..] == y;
    }
  }

  lemma {:induction false} UnidentifiedSplit(msgs: seq<EngineMsg>, i: nat, k: nat, n: nat)
    requires i <= k <= n <= |msgs|
    ensures Unidentified(msgs, i, n) == Unidentified(msgs, i, k) + Unidentified(msgs, k, n)
    decreases k - i
  {
    hide Missing;
    if i < k {
      UnidentifiedSplit(msgs, i + 1, k, n);
    }
  }

  /** The retry draws new ids; the calls it writes are the ones that would have been written exactly if none of those
      that had been prepared was without an id. */
  lemma RetryDrawsAgain(b: Bridge, msgs: seq<EngineMsg>, p: nat, accepts: nat)
    requires b.writeBase <= b.writeLen && RefusedAt(b, msgs, b.writeLen, p, accepts)
    ensures var second := WriteBack(WriteBack(b, msgs, accepts).b, msgs, 2 * |msgs|);
            CallsIn(second.out) == CallsIn(EmitRange(b, msgs, b.writeLen, |msgs|).1)
            <==> Unidentified(msgs, b.writeLen, p + 1) == 0
  {
    hide EmitRange, EmitOne, WriteBack, Prepare, AllCalls, CallsIn;
    var base, r := b.writeLen, Refused(b, msgs, p);
    RetryWrites(b, msgs, p, accepts);
    RefusedLane(b, msgs, p);
    CallsInRange(r, msgs, base, |msgs|);
    CallsInRange(b, msgs, base, |msgs|);
    UnidentifiedSplit(msgs, base, p + 1, |msgs|);
    if r.lane.synthetic != b.lane.synthetic {
      CallsShifted(r.lane.synthetic, b.lane.synthetic, msgs, base, |msgs|);
    }
  }

  // ---------------------------------------------------------------- the lane that is left behind

  /** Tool messages among positions i..n. */
  function Tools(msgs: seq<EngineMsg>, i: nat, n: nat): nat
    requires i <= n <= |msgs|
    decreases n - i
  {
    if i == n then 0 else (if msgs[i].role == Tool then 1 else 0) + Tools(msgs, i + 1, n)
  }

  /** How many ids wait for a result behind positions i..n, where `waiting` do at first. */
  function Waiting(waiting: nat, msgs: seq<EngineMsg>, i: nat, n: nat): nat
    requires i <= n <= |msgs|
    decreases n - i
  {
    if i == n then waiting
    else
      var next := match msgs[i].role
                  case Assistant => waiting + |msgs[i].toolCalls|
                  case Tool => if msgs[i].toolCallId == "" && waiting > 0 then waiting - 1 else waiting
                  case _ => waiting;
      Waiting(next, msgs, i + 1, n)
  }

  /** The pictures that wait at a refusal: those of the refused message. */
  function LeftPictures(l: Lane, images: seq<ImageEntry>, msgs: seq<EngineMsg>, i: nat, p: nat): Option<ImageEntry>
    requires i <= p < |msgs|
  {
    if msgs[p].role == Tool then ImageFor(images, l.toolSeq + Tools(msgs, i, p)) else None
  }

  predicate Old(l: Lane) { forall id :: id in l.pendingCalls ==> Older(id, l.synthetic) }

  /** The provider's own ids look like no drawn ones. */
  predicate OwnIds(m: EngineMsg) { m.role == Assistant ==> forall c :: c in m.toolCalls ==> !Drawn(c.id) }

  lemma {:induction false} IdentifiedOlder(n: nat, calls: seq<ToolCall>)
    requires forall c :: c in calls ==> !Drawn(c.id)
    ensures forall c :: c in Identified(n, calls) ==> Older(c.id, n + Missing(calls))
  {
    hide RecordId, Drawn;
    if calls != [] {
      var init, c := calls[..|calls| - 1], calls[|calls| - 1];
      assert calls == init + [c];
      IdentifiedOlder(n, init);
      assert |RecordId(n + Missing(init))| == n + Missing(init) + 4 by {
        RecordIdLength(n + Missing(init));
      }
    }
  }

  lemma RecordIdLength(n: nat)
    ensures |RecordId(n)| == n + 4
  {
  }

  lemma LaneOneCounts(l: Lane, images: seq<ImageEntry>, m: EngineMsg)
    requires l.pendingImages.None?
    ensures var l1 := LaneOne(l, images, m).0;
            && l1.toolSeq == l.toolSeq + (if m.role == Tool then 1 else 0) && l1.pendingImages.None?
            && l1.synthetic == l.synthetic + (if m.role == Assistant then Missing(m.toolCalls) else 0)
            && |l1.pendingCalls| == (match m.role
                                     case Assistant => |l.pendingCalls| + |m.toolCalls|
                                     case Tool =>
                                       if m.toolCallId == "" && |l.pendingCalls| > 0 then |l.pendingCalls| - 1
                                       else |l.pendingCalls|
                                     case _ => |l.pendingCalls|)
            && (Old(l) && OwnIds(m) ==> Old(l1))
  {
    ImageForBlocks(images, l.toolSeq);
    IdentifiedCount(l.synthetic, m.toolCalls);
    hide Blank, ImageFor, ImageMessage, Identified, Missing, Drawn;
    if Old(l) && OwnIds(m) && m.role == Assistant {
      IdentifiedOlder(l.synthetic, m.toolCalls);
    }
  }

  lemma {:induction false} RangeCounts(b: Bridge, msgs: seq<EngineMsg>, i: nat, n: nat)
    requires i <= n <= |msgs| && b.lane.pendingImages.None?
    ensures var b1 := EmitRange(b, msgs, i, n).0;
            && b1.images == b.images && b1.lane.pendingImages.None?
            && b1.lane.toolSeq == b.lane.toolSeq + Tools(msgs, i, n)
            && b1.lane.synthetic == b.lane.synthetic + Unidentified(msgs, i, n)
            && |b1.lane.pendingCalls| == Waiting(|b.lane.pendingCalls|, msgs, i, n)
            && (Old(b.lane) && (forall m :: m in msgs[i..n] ==> OwnIds(m)) ==> Old(b1.lane))
    decreases n - i
  {
    hide EmitOne, LaneOne, Missing, Old, OwnIds;
    if i < n {
      EmitOneLane(b, msgs, i);
      LaneOneCounts(b.lane, b.images, msgs[i]);
      RangeCounts(EmitOne(b, msgs, i).0, msgs, i + 1, n);
      assert msgs[i..n] == [msgs[i]] + msgs[i + 1..n];
    }
  }

  /** Preparing a message counts it like writing it does, but its pictures wait. */
  lemma PreparedLane(b: Bridge, msgs: seq<EngineMsg>, i: nat)
    requires i < |msgs| && b.lane.pendingImages.None?
    ensures var r := Prepare(b, msgs, i).0;
            && r.images == b.images
            && r.lane == EmitOne(b, msgs, i).0.lane.(pendingImages :=
                           if msgs[i].role == Tool then ImageFor(b.images, b.lane.toolSeq) else None)
  {
    ImageForBlocks(b.images, b.lane.toolSeq);
    hide TakeUsage, Identified, Missing, ImageFor, Storable, ImageMessage;
  }

  /** Numbers drawn, whatever pictures may wait. */
  lemma PreparedDraws(b: Bridge, msgs: seq<EngineMsg>, i: nat)
    requires i < |msgs|
    ensures Prepare(b, msgs, i).0.lane.synthetic == EmitOne(b, msgs, i).0.lane.synthetic
  {
    hide TakeUsage, Identified, Missing, ImageFor, Storable, ImageMessage;
  }

  lemma RefusedLane(b: Bridge, msgs: seq<EngineMsg>, p: nat)
    requires b.writeLen <= p < |msgs|
    ensures Refused(b, msgs, p).lane.synthetic == b.lane.synthetic + Unidentified(msgs, b.writeLen, p + 1)
    ensures b.lane.pendingImages.None? ==>
              var r, base := Refused(b, msgs, p), b.writeLen;
              && r.images == b.images && r.lane.toolSeq == b.lane.toolSeq + Tools(msgs, base, p + 1)
              && |r.lane.pendingCalls| == Waiting(|b.lane.pendingCalls|, msgs, base, p + 1)
              && r.lane.pendingImages == LeftPictures(b.lane, b.images, msgs, base, p)
              && (Old(b.lane) && (forall m :: m in msgs[base..p + 1] ==> OwnIds(m)) ==> Old(r.lane))
  {
    hide EmitRange, EmitOne, Prepare, Unidentified, Tools, Waiting, ImageFor, OwnIds;
    var base := b.writeLen;
    var b1 := EmitRange(b, msgs, base, p).0;
    EmitRangeNext(b, msgs, base, p);
    CallsInRange(b, msgs, base, p + 1);
    PreparedDraws(b1, msgs, p);
    if b.lane.pendingImages.None? {
      RangeCounts(b, msgs, base, p);
      RangeCounts(b, msgs, base, p + 1);
      PreparedLane(b1, msgs, p);
    }
  }

  /** A refusal leaves no trace in the bridge exactly if neither a call nor a result had been prepared; the next
      write-back then writes what this one would have. */
  lemma RetryUntouched(b: Bridge, msgs: seq<EngineMsg>, p: nat, accepts: nat)
    requires b.writeBase <= b.writeLen && RefusedAt(b, msgs, b.writeLen, p, accepts)
    ensures WriteBack(b, msgs, accepts).b == b <==>
            Assistants(msgs, b.writeLen, p + 1) == 0 && Tools(msgs, b.writeLen, p + 1) == 0
    ensures WriteBack(b, msgs, accepts).b == b ==>
              WriteBack(b, msgs, 2 * |msgs|).out == EmitRange(b, msgs, b.writeLen, |msgs|).1
  {
    hide EmitRange, EmitOne, WriteBack, Prepare;
    var base := b.writeLen;
    RetryWrites(b, msgs, p, accepts);
    RefusedLedger(b, msgs, p);
    var b1 := EmitRange(b, msgs, base, p).0;
    AssistantsSplit(msgs, base, p, p + 1);
    ToolsSplit(msgs, base, p, p + 1);
    SilentRange(b, msgs, base, p);
    SilentOne(b1, msgs, p);
  }

  lemma {:induction false} ToolsSplit(msgs: seq<EngineMsg>, i: nat, k: nat, n: nat)
    requires i <= k <= n <= |msgs|
    ensures Tools(msgs, i, n) == Tools(msgs, i, k) + Tools(msgs, k, n)
    decreases k - i
  {
    if i < k {
      ToolsSplit(msgs, i + 1, k, n);
    }
  }

  lemma SilentOne(b: Bridge, msgs: seq<EngineMsg>, i: nat)
    requires i < |msgs|
    ensures Prepare(b, msgs, i).0.lane.toolSeq == EmitOne(b, msgs, i).0.lane.toolSeq
         == b.lane.toolSeq + if msgs[i].role == Tool then 1 else 0
    ensures msgs[i].role != Assistant && msgs[i].role != Tool ==> Prepare(b, msgs, i).0 == b == EmitOne(b, msgs, i).0
  {
    hide TakeUsage, Identified, Missing, ImageFor, Storable, ImageMessage;
  }

  lemma {:induction false} SilentRange(b: Bridge, msgs: seq<EngineMsg>, i: nat, n: nat)
    requires i <= n <= |msgs|
    ensures EmitRange(b, msgs, i, n).0.lane.toolSeq == b.lane.toolSeq + Tools(msgs, i, n)
    ensures Assistants(msgs, i, n) == 0 && Tools(msgs, i, n) == 0 ==> EmitRange(b, msgs, i, n).0 == b
    decreases n - i
  {
    hide EmitOne;
    if i < n {
      SilentOne(b, msgs, i);
      SilentRange(EmitOne(b, msgs, i).0, msgs, i + 1, n);
    }
  }

  // ---------------------------------------------------------------- pictures that wait

  /** The picture table with waiting pictures put down for the next result, unless that has its own. */
  function WithWaiting(images: seq<ImageEntry>, left: Option<ImageEntry>, toolSeq: nat): seq<ImageEntry> {
    if left.Some? && ImageFor(images, toolSeq).None?
    then images + [ImageEntry(toolSeq, left.value.toolName, left.value.blocks)] else images
  }

  lemma {:induction false} ImageForAdded(images: seq<ImageEntry>, e: ImageEntry)
    requires e.blocks != [] && ImageFor(images, e.toolSeq).None?
    ensures ImageFor(images + [e], e.toolSeq) == Some(e)
  {
    if images == [] {
      assert images + [e] == [e];
    } else {
      ImageForAdded(images[1..], e);
      assert (images + [e])[0] == images[0] && (images + [e])[1..] == images[1..] + [e];
    }
  }

  lemma LaneOneBehind(l: Lane, images: seq<ImageEntry>, e: ImageEntry, m: EngineMsg)
    requires e.toolSeq < l.toolSeq
    ensures LaneOne(l, images + [e], m) == LaneOne(l, images, m)
    ensures l.toolSeq <= LaneOne(l, images, m).0.toolSeq
  {
    ImageForLater(images, e, l.toolSeq);
    hide ImageFor, Identified, Missing, Blank, ImageMessage;
  }

  lemma {:induction false} LaneAllBehind(l: Lane, images: seq<ImageEntry>, e: ImageEntry, msgs: seq<EngineMsg>)
    requires e.toolSeq < l.toolSeq
    ensures LaneAll(l, images + [e], msgs) == LaneAll(l, images, msgs)
    decreases |msgs|
  {
    hide LaneOne;
    if msgs != [] {
      LaneOneBehind(l, images, e, msgs[0]);
      LaneAllBehind(LaneOne(l, images, msgs[0]).0, images, e, msgs[1..]);
    }
  }

  /** A lane with pictures waiting writes what the lane without them does from the table that has them. */
  lemma {:induction false} WaitingPictures(l: Lane, images: seq<ImageEntry>, msgs: seq<EngineMsg>)
    requires l.pendingImages.Some? ==> l.pendingImages.value.blocks != []
    ensures LaneAll(l, images, msgs).1
         == LaneAll(l.(pendingImages := None), WithWaiting(images, l.pendingImages, l.toolSeq), msgs).1
    decreases |msgs|
  {
    hide LaneOne, ImageFor;
    if l.pendingImages.None? {
      assert l.(pendingImages := None) == l;
    } else if msgs != [] {
      var all := WithWaiting(images, l.pendingImages, l.toolSeq);
      OneWithWaiting(l, images, msgs[0]);
      var (l1, one) := LaneOne(l, images, msgs[0]);
      if msgs[0].role == Tool {
        if all != images {
          LaneAllBehind(l1, images, all[|images|], msgs[1..]);
        }
      } else {
        WaitingPictures(l1, images, msgs[1..]);
      }
    }
  }

  lemma OneWithWaiting(l: Lane, images: seq<ImageEntry>, m: EngineMsg)
    requires l.pendingImages.Some? && l.pendingImages.value.blocks != []
    ensures var all := WithWaiting(images, l.pendingImages, l.toolSeq);
            var (l1, one) := LaneOne(l, images, m);
            var (l2, two) := LaneOne(l.(pendingImages := None), all, m);
            && one == two
            && (m.role == Tool ==> l1 == l2 && l1.toolSeq == l.toolSeq + 1)
            && (m.role != Tool ==> l1.pendingImages == l.pendingImages && l1.toolSeq == l.toolSeq
                                   && l2 == l1.(pendingImages := None))
  {
    var e := l.pendingImages.value;
    ImageForBlocks(images, l.toolSeq);
    if ImageFor(images, l.toolSeq).None? {
      ImageForAdded(images, ImageEntry(l.toolSeq, e.toolName, e.blocks));
    }
    hide ImageFor, Identified, Missing, Blank;
  }

  // ---------------------------------------------------------------- pairing after a retry

  lemma {:induction false} ProperOwnIds(turns: seq<Turn>)
    requires forall t :: t in turns ==> ProperTurn(t)
    ensures forall m :: m in Flatten(turns) ==> OwnIds(m)
  {
    if turns != [] {
      TurnOwnIds(turns[0]);
      hide ProperTurn, OwnIds, MsgsOf;
      ProperOwnIds(turns[1..]);
    }
  }

  lemma TurnOwnIds(t: Turn)
    requires ProperTurn(t)
    ensures forall m :: m in MsgsOf(t) ==> OwnIds(m)
  {
    if t.Round? {
      forall c | c in t.asst.toolCalls
        ensures !Drawn(c.id)
      {
        var k :| 0 <= k < |t.asst.toolCalls| && t.asst.toolCalls[k] == c;
        assert k < |t.results|;
      }
    }
  }

  /** A refused write-back and the next one over complete rounds. What the second writes is well-paired exactly if no
      result is blank, no pictures come between sibling results, looked up so many places later as results had been
      prepared, and no round without ids finds ids waiting, from a round with ids or from the refused attempt. */
  lemma RetryPairs(b: Bridge, msgs: seq<EngineMsg>, p: nat, accepts: nat, turns: seq<Turn>)
    requires b.writeBase <= b.writeLen && RefusedAt(b, msgs, b.writeLen, p, accepts)
    requires b.lane.pendingImages.None? && Old(b.lane)
    requires msgs[b.writeLen..] == Flatten(turns) && forall t :: t in turns ==> ProperTurn(t)
    ensures var first := WriteBack(b, msgs, accepts);
            var second := WriteBack(first.b, msgs, 2 * |msgs|);
            var base, at := b.writeLen, b.lane.toolSeq + Tools(msgs, b.writeLen, p + 1);
            var images := WithWaiting(b.images, LeftPictures(b.lane, b.images, msgs, base, p), at);
            && (WellPaired(second.out)
                <==> Unbroken(turns, images, at, Waiting(|b.lane.pendingCalls|, msgs, base, p + 1) > 0))
            && (WellPaired(first.out + second.out) <==> WellPaired(first.out) && WellPaired(second.out))
  {
    hide EmitRange, EmitOne, WriteBack, Prepare, LaneAll, Unbroken, Flatten, Old, BareAll, Answered, ImageFor;
    var base := b.writeLen;
    var first := WriteBack(b, msgs, accepts);
    var second := WriteBack(first.b, msgs, 2 * |msgs|);
    RetryWrites(b, msgs, p, accepts);
    var r := Refused(b, msgs, p);
    ProperOwnIds(turns);
    assert forall m :: m in msgs[base..p + 1] ==> m in msgs[base..];
    RefusedLane(b, msgs, p);
    assert msgs[base..|msgs|] == msgs[base..];
    EmitRangeLane(r, msgs, base, |msgs|);
    WellPairedBare(second.out);
    ImageForBlocks(b.images, b.lane.toolSeq + Tools(msgs, base, p));
    WaitingPictures(r.lane, b.images, Flatten(turns));
    var l := r.lane.(pendingImages := None);
    var images := WithWaiting(b.images, r.lane.pendingImages, r.lane.toolSeq);
    RefusedAtTurn(r.lane);
    LanePairs(l, images, turns, r.lane.pendingCalls != []);
    StartsWithNoResult(l, images, turns);
    BareStarts(second.out);
    PairedTogether(first.out, second.out);
  }

  lemma RefusedAtTurn(l: Lane)
    requires Old(l)
    ensures AtTurn(l.(pendingImages := None), l.pendingCalls != [])
  {
  }

  lemma BareStarts(out: seq<Message>)
    ensures (BareAll(out) == [] <==> out == []) && (out != [] ==> BareAll(out)[0].role == out[0].role)
  {
  }
}
