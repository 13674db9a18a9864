/** Write-back over whole runs: incremental write-back comes to the same as a single one, every storable message is
    written once and in order, and the answer is marked as finished exactly if the last write still had it. */
module WriteBackRuns {
  import opened Wrappers
  import opened Text
  import opened Messages
  import opened EventBridge

  // ---------------------------------------------------------------- writing with a willing store

  function EmitOne(b: Bridge, msgs: seq<EngineMsg>, i: nat): (Bridge, seq<Message>)
    requires i < |msgs|
  {
    var (b1, sm) := Prepare(b, msgs, i);
    var one := if Storable(sm) then [sm] else [];
    if sm.role == Tool && HasImages(b1.lane)
    then (b1.(lane := b1.lane.(pendingImages := None)), one + [ImageMessage(b1.lane.pendingImages.value)])
    else (b1, one)
  }

  function EmitRange(b: Bridge, msgs: seq<EngineMsg>, i: nat, n: nat): (Bridge, seq<Message>)
    requires i <= n <= |msgs|
    decreases n - i
  {
    if i == n then (b, [])
    else
      var (b1, one) := EmitOne(b, msgs, i);
      var (b2, rest) := EmitRange(b1, msgs, i + 1, n);
      (b2, one + rest)
  }

  lemma WriteOneEmits(b: Bridge, msgs: seq<EngineMsg>, i: nat, accepts: nat)
    requires i < |msgs|
    ensures var (b1, one) := EmitOne(b, msgs, i);
            var w := WriteOne(b, msgs, i, accepts);
            && (w.ok <==> |one| <= accepts)
            && (w.ok ==> w.b == b1 && w.out == one)
            && w.b.writeLen == b.writeLen && b1.writeLen == b.writeLen
            && (!w.ok ==> |w.out| == accepts && w.out <= one)
  {
    hide TakeUsage, QueueIds, TakeResult, Storable, ImageMessage;
  }

  /** A write-back goes through exactly when the store takes every message there is to write; it then writes
      them all and moves the watermark. Otherwise the watermark stays, and what was taken is a prefix. */
  lemma {:induction false} WriteFromEmits(b: Bridge, msgs: seq<EngineMsg>, i: nat, accepts: nat)
    requires i <= |msgs|
    ensures var (b1, out) := EmitRange(b, msgs, i, |msgs|);
            var w := WriteFrom(b, msgs, i, accepts);
            && (w.ok <==> |out| <= accepts)
            && (w.ok ==> w.b == b1.(writeLen := |msgs|) && w.out == out)
            && (!w.ok ==> w.b.writeLen == b.writeLen && |w.out| == accepts && w.out <= out)
    decreases |msgs| - i
  {
    hide EmitOne, WriteOne;
    if i < |msgs| {
      WriteOneEmits(b, msgs, i, accepts);
      var (b1, one) := EmitOne(b, msgs, i);
      if |one| <= accepts {
        var w, more := WriteFrom(b1, msgs, i + 1, accepts - |one|), EmitRange(b1, msgs, i + 1, |msgs|).1;
        WriteFromEmits(b1, msgs, i + 1, accepts - |one|);
        assert w.out <= more ==> one + w.out <= one + more;
      } else {
        assert EmitRange(b, msgs, i, |msgs|).1[..|one|] == one;
      }
    }
  }

  lemma {:induction false} EmitRangeSplit(b: Bridge, msgs: seq<EngineMsg>, i: nat, k: nat, n: nat)
    requires i <= k <= n <= |msgs|
    ensures var (b1, left) := EmitRange(b, msgs, i, k);
            var (b2, right) := EmitRange(b1, msgs, k, n);
            EmitRange(b, msgs, i, n) == (b2, left + right)
    decreases k - i
  {
    hide EmitOne;
    if i < k {
      var (b0, one) := EmitOne(b, msgs, i);
      EmitRangeSplit(b0, msgs, i + 1, k, n);
      var (b1, left) := EmitRange(b0, msgs, i + 1, k);
      var (b2, right) := EmitRange(b1, msgs, k, n);
      assert one + (left + right) == one + left + right;
    } else {
      var (b2, right) := EmitRange(b, msgs, k, n);
      assert [] + right == right;
    }
  }

  // ---------------------------------------------------------------- the finish mark aside

  function Unmarked(out: seq<Message>): seq<Message> {
    if out == [] then [] else Unmarked(out[..|out| - 1]) + [out[|out| - 1].(finishReason := "")]
  }

  lemma {:induction false} UnmarkedAppend(a: seq<Message>, b: seq<Message>)
    ensures Unmarked(a + b) == Unmarked(a) + Unmarked(b)
  {
    if b == [] {
      assert a + b == a;
    } else {
      var init, last := b[..|b| - 1], b[|b| - 1];
      UnmarkedAppend(a, init);
      assert (a + b)[..|a + b| - 1] == a + init && (a + b)[|a + b| - 1] == last;
      assert Unmarked(a) + (Unmarked(init) + [last.(finishReason := "")])
          == Unmarked(a) + Unmarked(init) + [last.(finishReason := "")];
    }
  }

  /** Two outcomes agree: same bridge, same messages but for the finish mark. */
  predicate Agree(x: (Bridge, seq<Message>), y: (Bridge, seq<Message>)) {
    x.0 == y.0 && Unmarked(x.1) == Unmarked(y.1)
  }

  lemma {:induction false} PromptTokensOfPrefix(a: seq<EngineMsg>, b: seq<EngineMsg>, i: nat)
    requires a <= b && i <= |a|
    ensures PromptTokens(a, i) == PromptTokens(b, i)
  {
    if i > 0 {
      PromptTokensOfPrefix(a, b, i - 1);
    }
  }

  lemma PrepareOfPrefix(b: Bridge, a: seq<EngineMsg>, c: seq<EngineMsg>, i: nat)
    requires a <= c && i < |a|
    ensures Prepare(b, a, i).0 == Prepare(b, c, i).0
    ensures Prepare(b, a, i).1.(finishReason := "") == Prepare(b, c, i).1.(finishReason := "")
  {
    hide QueueIds, TakeResult, Add, PromptTokens;
    PromptTokensOfPrefix(a, c, i);
    assert a[i] == c[i];
    assert Estimate(a, i) == Estimate(c, i);
  }

  lemma UnmarkedStored(x: Message, y: Message, more: seq<Message>)
    requires x.(finishReason := "") == y.(finishReason := "")
    ensures Storable(x) == Storable(y) && x.role == y.role
    ensures Unmarked([x] + more) == Unmarked([y] + more)
  {
    UnmarkedAppend([x], more);
    UnmarkedAppend([y], more);
    assert [x][..0] == [] && [y][..0] == [];
    assert x.content == y.content && x.toolCalls == y.toolCalls;
  }

  /** A longer snapshot writes an earlier message the same way. */
  lemma EmitOneOfPrefix(b: Bridge, a: seq<EngineMsg>, c: seq<EngineMsg>, i: nat)
    requires a <= c && i < |a|
    ensures Agree(EmitOne(b, a, i), EmitOne(b, c, i))
  {
    hide Prepare, Storable, ImageMessage, Unmarked;
    PrepareOfPrefix(b, a, c, i);
    var (b1, m1) := Prepare(b, a, i);
    var m2 := Prepare(b, c, i).1;
    var more := if m1.role == Tool && HasImages(b1.lane) then [ImageMessage(b1.lane.pendingImages.value)] else [];
    UnmarkedStored(m1, m2, more);
    UnmarkedStored(m1, m2, []);
    assert [m1] + [] == [m1] && [m2] + [] == [m2];
  }

  lemma {:induction false} EmitRangeOfPrefix(b: Bridge, a: seq<EngineMsg>, c: seq<EngineMsg>, i: nat, n: nat)
    requires a <= c && i <= n <= |a|
    ensures Agree(EmitRange(b, a, i, n), EmitRange(b, c, i, n))
    decreases n - i
  {
    hide EmitOne, Unmarked;
    if i < n {
      EmitOneOfPrefix(b, a, c, i);
      var (b1, one) := EmitOne(b, a, i);
      EmitRangeOfPrefix(b1, a, c, i + 1, n);
      UnmarkedAppend(one, EmitRange(b1, a, i + 1, n).1);
      UnmarkedAppend(EmitOne(b, c, i).1, EmitRange(b1, c, i + 1, n).1);
    }
  }

  // ---------------------------------------------------------------- runs of events

  /** What happens between BeginRun and the end of a run: usage of an LLM call is reported, a tool execution
      leaves pictures, the engine stops, a snapshot of the conversation arrives and is written back. */
  datatype Event =
    | UsageSeen(iteration: nat, usage: Option<Usage>, recorded: bool)
    | ImagesSeen(entry: ImageEntry)
    | EngineStopped(finished: bool)
    | SnapshotSeen(msgs: seq<EngineMsg>)

  function Register(b: Bridge, e: Event): Bridge {
    match e
    case UsageSeen(iteration, usage, recorded) => AfterUsage(b, iteration, usage, recorded)
    case ImagesSeen(entry) => b.(images := b.images + [entry])
    case EngineStopped(finished) => b.(finished := finished)
    case SnapshotSeen(_) => b
  }

  function RegisterAll(b: Bridge, es: seq<Event>): Bridge
    decreases |es|
  {
    if es == [] then b else RegisterAll(Register(b, es[0]), es[1..])
  }

  /** Registered before the message it belongs to is written. */
  predicate InTime(b: Bridge, e: Event) {
    match e
    case UsageSeen(iteration, _, _) => b.ledger.asstSeq <= iteration
    case ImagesSeen(entry) => b.lane.toolSeq <= entry.toolSeq
    case _ => true
  }

  function StepEvent(b: Bridge, e: Event): (Bridge, seq<Message>) {
    match e
    case SnapshotSeen(msgs) => (var w := WriteBack(b, msgs, 2 * |msgs|); (w.b, w.out))
    case _ => (Register(b, e), [])
  }

  function RunEvents(b: Bridge, es: seq<Event>): (Bridge, seq<Message>)
    decreases |es|
  {
    if es == [] then (b, [])
    else
      var (b1, out) := StepEvent(b, es[0]);
      var (b2, rest) := RunEvents(b1, es[1..]);
      (b2, out + rest)
  }

  /** Every snapshot continues the one before it (`seen` at first), and every registration is in time. */
  predicate Proper(b: Bridge, seen: seq<EngineMsg>, es: seq<Event>)
    decreases |es|
  {
    es == [] ||
    (match es[0]
     case SnapshotSeen(msgs) => seen <= msgs && Proper(StepEvent(b, es[0]).0, msgs, es[1..])
     case _ => InTime(b, es[0]) && Proper(Register(b, es[0]), seen, es[1..]))
  }

  function LastSeen(seen: seq<EngineMsg>, es: seq<Event>): seq<EngineMsg>
    decreases |es|
  {
    if es == [] then seen else LastSeen(if es[0].SnapshotSeen? then es[0].msgs else seen, es[1..])
  }

  // ---------------------------------------------------------------- one snapshot is enough

  lemma {:induction false} EmitFits(b: Bridge, msgs: seq<EngineMsg>, i: nat, n: nat)
    requires i <= n <= |msgs|
    ensures |EmitRange(b, msgs, i, n).1| <= 2 * (n - i)
    decreases n - i
  {
    if i < n {
      EmitFits(EmitOne(b, msgs, i).0, msgs, i + 1, n);
    }
  }

  lemma EmitRangeEmpty(b: Bridge, msgs: seq<EngineMsg>)
    ensures EmitRange(b, msgs, |msgs|, |msgs|) == (b, [])
  {
  }

  lemma SnapshotEmits(b: Bridge, seen: seq<EngineMsg>, msgs: seq<EngineMsg>)
    requires seen <= msgs && b.writeLen == |seen| && b.writeBase <= |seen|
    ensures var (b1, out) := EmitRange(b, msgs, |seen|, |msgs|);
            StepEvent(b, SnapshotSeen(msgs)) == (b1.(writeLen := |msgs|), out)
  {
    hide EmitOne, EmitRange, WriteFrom, Proper;
    EmitFits(b, msgs, |seen|, |msgs|);
    EmitRangeEmpty(b, msgs);
    WriteFromEmits(b, msgs, |seen|, 2 * |msgs|);
  }

  lemma EmitOneMarks(b: Bridge, msgs: seq<EngineMsg>, i: nat, mark: nat)
    requires i < |msgs|
    ensures EmitOne(b.(writeLen := mark), msgs, i)
         == (EmitOne(b, msgs, i).0.(writeLen := mark), EmitOne(b, msgs, i).1)
    ensures EmitOne(b, msgs, i).0.writeBase == b.writeBase
    ensures b.ledger.asstSeq <= EmitOne(b, msgs, i).0.ledger.asstSeq
    ensures b.lane.toolSeq <= EmitOne(b, msgs, i).0.lane.toolSeq
  {
    hide Identified, Missing, Ids, Add, UsageOf, ImageFor, Storable, ImageMessage;
  }

  /** Writing does not look at the watermark, leaves the base alone, and only counts up. */
  lemma {:induction false} EmitRangeMarks(b: Bridge, msgs: seq<EngineMsg>, i: nat, n: nat, mark: nat)
    requires i <= n <= |msgs|
    ensures var b1 := EmitRange(b, msgs, i, n).0;
            && EmitRange(b.(writeLen := mark), msgs, i, n) == (b1.(writeLen := mark), EmitRange(b, msgs, i, n).1)
            && b1.writeBase == b.writeBase
            && b.ledger.asstSeq <= b1.ledger.asstSeq && b.lane.toolSeq <= b1.lane.toolSeq
    decreases n - i
  {
    hide EmitOne;
    if i < n {
      EmitOneMarks(b, msgs, i, mark);
      EmitRangeMarks(EmitOne(b, msgs, i).0, msgs, i + 1, n, mark);
    }
  }

  lemma {:induction false} ImageForLater(images: seq<ImageEntry>, entry: ImageEntry, toolSeq: nat)
    requires entry.toolSeq != toolSeq
    ensures ImageFor(images + [entry], toolSeq) == ImageFor(images, toolSeq)
  {
    if images == [] {
      assert ([] + [entry])[1..] == [];
    } else {
      ImageForLater(images[1..], entry, toolSeq);
      assert (images + [entry])[1..] == images[1..] + [entry];
    }
  }

  lemma AddSwaps(t: Usage, u: Usage, v: Usage)
    ensures Add(Add(t, u), v) == Add(Add(t, v), u)
  {
  }

  /** Booking does not look at the calls. */
  lemma BookApart(l: Ledger, u: Usage, recorded: bool, asstSeq: nat, calls: map<nat, CallUsage>)
    ensures Book(l.(asstSeq := asstSeq, callUsage := calls), u, recorded)
         == Book(l, u, recorded).(asstSeq := asstSeq, callUsage := calls)
    ensures Book(l, u, recorded).asstSeq == l.asstSeq && Book(l, u, recorded).callUsage == l.callUsage
  {
    hide Add;
  }

  lemma BookCommutes(l: Ledger, u: Usage, uRecorded: bool, v: Usage, vRecorded: bool)
    ensures Book(Book(l, u, uRecorded), v, vRecorded) == Book(Book(l, v, vRecorded), u, uRecorded)
  {
    AddSwaps(l.totals, u, v);
    assert l.booked + multiset{u} + multiset{v} == l.booked + multiset{v} + multiset{u};
    assert l.unbooked + multiset{u} + multiset{v} == l.unbooked + multiset{v} + multiset{u};
  }

  /** A report for a later call does not touch the one being consumed. */
  lemma TakeUsageCommutes(l: Ledger, msgs: seq<EngineMsg>, i: nat, iteration: nat, usage: Option<Usage>, recorded: bool)
    requires i < |msgs| && l.asstSeq < iteration
    ensures TakeUsage(RegisterUsage(l, iteration, usage, recorded), msgs, i)
         == (RegisterUsage(TakeUsage(l, msgs, i).0, iteration, usage, recorded), TakeUsage(l, msgs, i).1)
  {
    hide UsageOf, Book;
    var entry := if usage.None? then ToEstimate(recorded) else Exact(usage.value);
    assert l.callUsage[iteration := entry] - {l.asstSeq} == (l.callUsage - {l.asstSeq})[iteration := entry];
    var (calls, later) := (l.callUsage[iteration := entry], l.callUsage - {l.asstSeq});
    var both := later[iteration := entry];
    if usage.Some? {
      var v := usage.value;
      BookApart(l, v, recorded, l.asstSeq, calls);
      BookApart(l, v, recorded, l.asstSeq + 1, both);
      if l.asstSeq in l.callUsage && l.callUsage[l.asstSeq].ToEstimate? {
        var c := l.callUsage[l.asstSeq];
        var u := UsageOf(c, msgs, i);
        BookApart(l, u, c.recorded, l.asstSeq + 1, later);
        BookApart(Book(l, v, recorded), u, c.recorded, l.asstSeq + 1, both);
        BookApart(Book(l, u, c.recorded), v, recorded, l.asstSeq + 1, both);
        BookCommutes(l, u, c.recorded, v, recorded);
      } else {
        BookApart(l, v, recorded, l.asstSeq + 1, later);
      }
    } else if l.asstSeq in l.callUsage && l.callUsage[l.asstSeq].ToEstimate? {
      var c := l.callUsage[l.asstSeq];
      BookApart(l, UsageOf(c, msgs, i), c.recorded, l.asstSeq + 1, later);
      BookApart(l, UsageOf(c, msgs, i), c.recorded, l.asstSeq + 1, both);
    }
  }

  lemma PrepareCommutes(b: Bridge, msgs: seq<EngineMsg>, i: nat, e: Event)
    requires i < |msgs| && InTime(Prepare(b, msgs, i).0, e)
    ensures Prepare(Register(b, e), msgs, i).0 == Register(Prepare(b, msgs, i).0, e)
    ensures Prepare(Register(b, e), msgs, i).1.(finishReason := "") == Prepare(b, msgs, i).1.(finishReason := "")
  {
    match e
    case UsageSeen(iteration, usage, recorded) =>
      if msgs[i].role == Assistant {
        assert b.ledger.asstSeq < iteration by { hide RegisterUsage, QueueIds; }
        TakeUsageCommutes(b.ledger, msgs, i, iteration, usage, recorded);
      }
      hide TakeUsage, QueueIds, TakeResult, RegisterUsage;
    case ImagesSeen(entry) =>
      if msgs[i].role == Tool {
        ImageForLater(b.images, entry, b.lane.toolSeq);
      }
      hide TakeUsage, QueueIds, ImageFor;
    case EngineStopped(_) =>
      hide TakeUsage, QueueIds, TakeResult;
    case SnapshotSeen(_) =>
  }

  lemma EmitOneCommutes(b: Bridge, msgs: seq<EngineMsg>, i: nat, e: Event)
    requires i < |msgs| && InTime(EmitOne(b, msgs, i).0, e)
    ensures Agree(EmitOne(Register(b, e), msgs, i), (Register(EmitOne(b, msgs, i).0, e), EmitOne(b, msgs, i).1))
  {
    hide Prepare, RegisterUsage, Storable, ImageMessage, Unmarked;
    PrepareCommutes(b, msgs, i, e);
    var (b1, m1) := Prepare(b, msgs, i);
    var m2 := Prepare(Register(b, e), msgs, i).1;
    var more := if m1.role == Tool && HasImages(b1.lane) then [ImageMessage(b1.lane.pendingImages.value)] else [];
    UnmarkedStored(m1, m2, more);
    UnmarkedStored(m1, m2, []);
    assert [m1] + [] == [m1] && [m2] + [] == [m2];
  }

  lemma RegisterKeepsCounters(b: Bridge, e: Event)
    ensures var r := Register(b, e);
            r.ledger.asstSeq == b.ledger.asstSeq && r.lane == b.lane && r.writeLen == b.writeLen
                && r.writeBase == b.writeBase
  {
  }

  lemma {:induction false} EmitRangeCommutes(b: Bridge, msgs: seq<EngineMsg>, i: nat, n: nat, e: Event)
    requires i <= n <= |msgs| && InTime(EmitRange(b, msgs, i, n).0, e)
    ensures var (b1, out) := EmitRange(b, msgs, i, n);
            Agree(EmitRange(Register(b, e), msgs, i, n), (Register(b1, e), out))
    decreases n - i
  {
    hide EmitOne, Register;
    if i < n {
      var (b0, one) := EmitOne(b, msgs, i);
      EmitRangeMarks(b0, msgs, i + 1, n, 0);
      EmitOneCommutes(b, msgs, i, e);
      EmitRangeCommutes(b0, msgs, i + 1, n, e);
      UnmarkedAppend(one, EmitRange(b0, msgs, i + 1, n).1);
      var (c0, two) := EmitOne(Register(b, e), msgs, i);
      UnmarkedAppend(two, EmitRange(c0, msgs, i + 1, n).1);
    }
  }

  predicate AllInTime(b: Bridge, es: seq<Event>) {
    forall k :: 0 <= k < |es| ==> InTime(b, es[k])
  }

  lemma {:induction false} RegisterAllCommutes(b: Bridge, msgs: seq<EngineMsg>, i: nat, n: nat, es: seq<Event>)
    requires i <= n <= |msgs| && AllInTime(EmitRange(b, msgs, i, n).0, es)
    ensures var (b1, out) := EmitRange(b, msgs, i, n);
            Agree(EmitRange(RegisterAll(b, es), msgs, i, n), (RegisterAll(b1, es), out))
    decreases |es|
  {
    hide EmitRange, Register;
    if es != [] {
      var (b1, out) := EmitRange(b, msgs, i, n);
      assert InTime(b1, es[0]);
      EmitRangeCommutes(b, msgs, i, n, es[0]);
      RegisterKeepsCounters(b1, es[0]);
      assert AllInTime(Register(b1, es[0]), es[1..]) by {
        forall k | 0 <= k < |es[1..]|
          ensures InTime(Register(b1, es[0]), es[1..][k])
        {
          assert InTime(b1, es[k + 1]);
        }
      }
      RegisterAllCommutes(Register(b, es[0]), msgs, i, n, es[1..]);
    }
  }

  lemma InTimeEarlier(b: Bridge, c: Bridge, es: seq<Event>)
    requires AllInTime(c, es) && b.ledger.asstSeq <= c.ledger.asstSeq && b.lane.toolSeq <= c.lane.toolSeq
    ensures AllInTime(b, es)
  {
    forall k | 0 <= k < |es|
      ensures InTime(b, es[k])
    {
      assert InTime(c, es[k]);
    }
  }

  /** In a proper run every registration is already in time at the start. */
  lemma {:induction false} ProperInTime(b: Bridge, seen: seq<EngineMsg>, es: seq<Event>)
    requires Proper(b, seen, es) && b.writeLen == |seen| && b.writeBase <= |seen|
    ensures AllInTime(b, es) && seen <= LastSeen(seen, es)
    decreases |es|
  {
    if es != [] {
      hide EmitRange, Register, StepEvent;
      var e, rest := es[0], es[1..];
      if e.SnapshotSeen? {
        SnapshotEmits(b, seen, e.msgs);
        EmitRangeMarks(b, e.msgs, |seen|, |e.msgs|, 0);
        ProperInTime(StepEvent(b, e).0, e.msgs, rest);
        InTimeEarlier(b, StepEvent(b, e).0, rest);
      } else {
        RegisterKeepsCounters(b, e);
        ProperInTime(Register(b, e), seen, rest);
        InTimeEarlier(b, Register(b, e), rest);
      }
      assert forall k :: 1 <= k < |es| ==> es[k] == rest[k - 1];
      assert forall k :: 0 <= k < |rest| ==> InTime(b, rest[k]);
    }
  }

  /** The outcome of a run depends on what was registered and on the last snapshot, not on when the snapshots
      came: it is the outcome of registering everything and then writing the last snapshot once. */
  lemma {:induction false} RunIsOneWrite(b: Bridge, seen: seq<EngineMsg>, es: seq<Event>)
    requires Proper(b, seen, es) && b.writeLen == |seen| && b.writeBase <= |seen|
    ensures seen <= LastSeen(seen, es)
    ensures var last := LastSeen(seen, es);
            var (b1, out) := EmitRange(RegisterAll(b, es), last, |seen|, |last|);
            Agree(RunEvents(b, es), (b1.(writeLen := |last|), out))
    decreases |es|, 0
  {
    ProperInTime(b, seen, es);
    if es != [] {
      hide EmitRange, Register, StepEvent, Unmarked;
      var e, rest, last := es[0], es[1..], LastSeen(seen, es);
      if e.SnapshotSeen? {
        SnapshotStep(b, seen, e.msgs, rest);
      } else {
        RegisterKeepsCounters(b, e);
        RunIsOneWrite(Register(b, e), seen, rest);
        StepIsRegister(b, e);
        assert [] + RunEvents(Register(b, e), rest).1 == RunEvents(Register(b, e), rest).1;
      }
    } else {
      assert EmitRange(b, seen, |seen|, |seen|) == (b, []);
    }
  }

  lemma StepIsRegister(b: Bridge, e: Event)
    requires !e.SnapshotSeen?
    ensures StepEvent(b, e) == (Register(b, e), [])
  {
  }

  lemma RegisterSnapshot(b: Bridge, msgs: seq<EngineMsg>)
    ensures Register(b, SnapshotSeen(msgs)) == b
  {
  }

  /** The snapshot case: what it writes, and what the rest of the run writes, is one write of the last snapshot. */
  lemma {:induction false} SnapshotStep(b: Bridge, seen: seq<EngineMsg>, msgs: seq<EngineMsg>, rest: seq<Event>)
    requires seen <= msgs && Proper(StepEvent(b, SnapshotSeen(msgs)).0, msgs, rest)
    requires b.writeLen == |seen| && b.writeBase <= |seen|
    ensures msgs <= LastSeen(msgs, rest)
    ensures var es := [SnapshotSeen(msgs)] + rest;
            var last := LastSeen(msgs, rest);
            var (b1, out) := EmitRange(RegisterAll(b, es), last, |seen|, |last|);
            Agree(RunEvents(b, es), (b1.(writeLen := |last|), out))
    decreases |rest|, 1
  {
    hide EmitRange, Register, StepEvent, Unmarked;
    var n, last := |msgs|, LastSeen(msgs, rest);
    SnapshotEmits(b, seen, msgs);
    EmitRangeMarks(b, msgs, |seen|, n, n);
    var (b1, out1) := EmitRange(b, msgs, |seen|, n);
    var c := b1.(writeLen := n);
    RunIsOneWrite(c, msgs, rest);
    ProperInTime(c, msgs, rest);
    // the first part, written from the last snapshot after all registrations
    EmitRangeOfPrefix(b, msgs, last, |seen|, n);
    InTimeEarlier(b1, c, rest);
    RegisterAllCommutes(b, last, |seen|, n, rest);
    EmitRangeSplit(RegisterAll(b, rest), last, |seen|, n, |last|);
    RegisterAllMarks(b1, rest, n);
    EmitRangeMarks(RegisterAll(b1, rest), last, n, |last|, n);
    RegisterSnapshot(b, msgs);
    var es := [SnapshotSeen(msgs)] + rest;
    assert es[1..] == rest;
    var later := EmitRange(RegisterAll(b1, rest), last, n, |last|);
    UnmarkedAppend(out1, RunEvents(c, rest).1);
    UnmarkedAppend(EmitRange(RegisterAll(b, rest), last, |seen|, n).1, later.1);
  }

  lemma {:induction false} RegisterAllMarks(b: Bridge, es: seq<Event>, mark: nat)
    ensures RegisterAll(b.(writeLen := mark), es) == RegisterAll(b, es).(writeLen := mark)
    decreases |es|
  {
    if es != [] {
      assert Register(b.(writeLen := mark), es[0]) == Register(b, es[0]).(writeLen := mark);
      RegisterAllMarks(Register(b, es[0]), es[1..], mark);
    }
  }

  function Registrations(es: seq<Event>): seq<Event> {
    if es == [] then []
    else if es[0].SnapshotSeen? then Registrations(es[1..])
    else [es[0]] + Registrations(es[1..])
  }

  lemma {:induction false} RegistrationsRun(b: Bridge, es: seq<Event>, msgs: seq<EngineMsg>)
    ensures RunEvents(b, Registrations(es) + [SnapshotSeen(msgs)]) == StepEvent(RegisterAll(b, es), SnapshotSeen(msgs))
    decreases |es|
  {
    hide Register, StepEvent;
    var all := Registrations(es) + [SnapshotSeen(msgs)];
    if es == [] {
      assert all == [SnapshotSeen(msgs)] && all[1..] == [];
      var out := StepEvent(b, SnapshotSeen(msgs)).1;
      assert out + [] == out;
    } else {
      RegistrationsRun(Register(b, es[0]), es[1..], msgs);
      if es[0].SnapshotSeen? {
        RegisterSnapshot(b, es[0].msgs);
      } else {
        assert all[1..] == Registrations(es[1..]) + [SnapshotSeen(msgs)];
        StepIsRegister(b, es[0]);
        var out := RunEvents(Register(b, es[0]), all[1..]).1;
        assert [] + out == out;
      }
    }
  }

  lemma {:induction false} RegisterAllKeeps(b: Bridge, es: seq<Event>)
    ensures RegisterAll(b, es).writeLen == b.writeLen && RegisterAll(b, es).writeBase == b.writeBase
    decreases |es|
  {
    hide Register;
    if es != [] {
      RegisterKeepsCounters(b, es[0]);
      RegisterAllKeeps(Register(b, es[0]), es[1..]);
    }
  }

  /** Incremental write-back is confluent: bridge and session come out as if the last snapshot alone had been
      written, once, after everything had been registered. Only the finish mark may differ. */
  lemma OneSnapshotSuffices(b: Bridge, seen: seq<EngineMsg>, es: seq<Event>)
    requires Proper(b, seen, es) && b.writeLen == |seen| && b.writeBase <= |seen|
    ensures Agree(RunEvents(b, es), RunEvents(b, Registrations(es) + [SnapshotSeen(LastSeen(seen, es))]))
  {
    hide EmitRange, Register, StepEvent, Unmarked, RunEvents;
    RunIsOneWrite(b, seen, es);
    var last := LastSeen(seen, es);
    RegistrationsRun(b, es, last);
    RegisterAllKeeps(b, es);
    SnapshotEmits(RegisterAll(b, es), seen, last);
  }

  // ---------------------------------------------------------------- once and in order

  /** What the engine said in message m, if it can be stored: role, text and reasoning. */
  function Said(m: EngineMsg): seq<(Role, string, string)> {
    if !Blank(m.text) || (m.role == Assistant && m.toolCalls != [])
    then [(m.role, m.text, if m.role == Assistant then m.reasoning else "")] else []
  }

  function Spoken(msgs: seq<EngineMsg>, i: nat, n: nat): seq<(Role, string, string)>
    requires i <= n <= |msgs|
    decreases n - i
  {
    if i == n then [] else Said(msgs[i]) + Spoken(msgs, i + 1, n)
  }

  /** What was written in message m, nothing if it is a picture message. */
  function Heard(m: Message): seq<(Role, string, string)> {
    if m.images == [] then [(m.role, m.content, m.reasoning)] else []
  }

  function Conversation(out: seq<Message>): seq<(Role, string, string)> {
    if out == [] then [] else Heard(out[0]) + Conversation(out[1..])
  }

  lemma {:induction false} ConversationAppend(a: seq<Message>, b: seq<Message>)
    ensures Conversation(a + b) == Conversation(a) + Conversation(b)
  {
    hide Heard;
    if a == [] {
      assert a + b == b;
    } else {
      ConversationAppend(a[1..], b);
      assert (a + b)[0] == a[0] && (a + b)[1..] == a[1..] + b;
      var x, y, z := Heard(a[0]), Conversation(a[1..]), Conversation(b);
      assert x + (y + z) == x + y + z;
    }
  }

  lemma {:induction false} IdentifiedCount(n: nat, calls: seq<ToolCall>)
    ensures |Identified(n, calls)| == |calls|
  {
    if calls != [] {
      IdentifiedCount(n, calls[..|calls| - 1]);
    }
  }

  lemma EmitOneSpeaks(b: Bridge, msgs: seq<EngineMsg>, i: nat)
    requires i < |msgs|
    ensures Conversation(EmitOne(b, msgs, i).1) == Said(msgs[i])
  {
    IdentifiedCount(b.lane.synthetic, msgs[i].toolCalls);
    hide TakeUsage, TakeResult, Identified, Blank;
    var (b1, m) := Prepare(b, msgs, i);
    var one := if Storable(m) then [m] else [];
    assert Conversation(one) == Said(msgs[i]);
    if m.role == Tool && HasImages(b1.lane) {
      var picture := ImageMessage(b1.lane.pendingImages.value);
      ConversationAppend(one, [picture]);
      assert Conversation([picture]) == [];
    }
  }

  /** Every storable message past the base is written exactly once, in order, with its own text. */
  lemma {:induction false} WrittenOnceInOrder(b: Bridge, msgs: seq<EngineMsg>, i: nat, n: nat)
    requires i <= n <= |msgs|
    ensures Conversation(EmitRange(b, msgs, i, n).1) == Spoken(msgs, i, n)
    decreases n - i
  {
    hide EmitOne, Said, Heard;
    if i < n {
      var (b1, one) := EmitOne(b, msgs, i);
      EmitOneSpeaks(b, msgs, i);
      WrittenOnceInOrder(b1, msgs, i + 1, n);
      ConversationAppend(one, EmitRange(b1, msgs, i + 1, n).1);
    }
  }

  // ---------------------------------------------------------------- the finish mark

  predicate AnyMarked(out: seq<Message>) { exists m :: m in out && m.finishReason != "" }

  lemma {:induction false} MarksInRange(b: Bridge, msgs: seq<EngineMsg>, i: nat)
    requires i <= |msgs|
    ensures AnyMarked(EmitRange(b, msgs, i, |msgs|).1)
       <==> (i < |msgs| && b.finished && msgs[|msgs| - 1].role == Assistant && msgs[|msgs| - 1].toolCalls == []
             && !Blank(msgs[|msgs| - 1].text))
    decreases |msgs| - i
  {
    hide EmitOne, Blank;
    if i < |msgs| {
      var (b1, one) := EmitOne(b, msgs, i);
      var rest := EmitRange(b1, msgs, i + 1, |msgs|).1;
      MarkInOne(b, msgs, i);
      MarksInRange(b1, msgs, i + 1);
      assert AnyMarked(one + rest) <==> AnyMarked(one) || AnyMarked(rest);
    }
  }

  lemma MarkInOne(b: Bridge, msgs: seq<EngineMsg>, i: nat)
    requires i < |msgs|
    ensures EmitOne(b, msgs, i).0.finished == b.finished
    ensures AnyMarked(EmitOne(b, msgs, i).1)
       <==> (i == |msgs| - 1 && b.finished && msgs[i].role == Assistant && msgs[i].toolCalls == []
             && !Blank(msgs[i].text))
  {
    hide TakeUsage, TakeResult, Missing, Blank;
    var m := Prepare(b, msgs, i).1;
    assert Storable(m) ==> m in EmitOne(b, msgs, i).1;
  }

  /** The answer gets its finish mark from the last write-back exactly when that one still had it to write:
      a snapshot that already held the answer takes the chance away. */
  lemma FinishMarkExact(b: Bridge, seen: seq<EngineMsg>, msgs: seq<EngineMsg>)
    requires seen <= msgs && b.writeLen == |seen| && b.writeBase <= |seen|
    ensures AnyMarked(StepEvent(b, SnapshotSeen(msgs)).1)
       <==> (|seen| < |msgs| && b.finished && msgs[|msgs| - 1].role == Assistant && msgs[|msgs| - 1].toolCalls == []
             && !Blank(msgs[|msgs| - 1].text))
  {
    hide EmitRange, StepEvent, Blank, AnyMarked;
    SnapshotEmits(b, seen, msgs);
    MarksInRange(b, msgs, |seen|);
  }
}
