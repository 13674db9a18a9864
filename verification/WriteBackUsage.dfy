/** Token usage over whole runs: every call's usage lands on its own message, every call is booked once, and the
    running total is the ledger's own exactly as long as the ledger refuses nothing that counts. */
module WriteBackUsage {
  import opened Wrappers
  import opened Text
  import opened Messages
  import opened EventBridge
  import opened WriteBackRuns

  // ---------------------------------------------------------------- whose usage is whose

  /** Assistant messages among positions i..n. */
  function Assistants(msgs: seq<EngineMsg>, i: nat, n: nat): nat
    requires i <= n <= |msgs|
    decreases n - i
  {
    if i == n then 0 else (if msgs[i].role == Assistant then 1 else 0) + Assistants(msgs, i + 1, n)
  }

  /** What an assistant message carries if the call in position k answered with it. */
  function UsageAt(calls: map<nat, CallUsage>, k: nat, msgs: seq<EngineMsg>, i: nat): Option<Usage>
    requires i < |msgs|
  {
    if k in calls then Some(UsageOf(calls[k], msgs, i)) else None
  }

  /** The k-th assistant message carries the usage reported for the k-th call of the run: exact if the provider
      gave it, else estimated, else none. */
  lemma {:induction false} UsageAligned(b: Bridge, msgs: seq<EngineMsg>, i: nat, j: nat)
    requires i <= j < |msgs| && msgs[j].role == Assistant
    ensures var k := b.ledger.asstSeq + Assistants(msgs, i, j);
            Prepare(EmitRange(b, msgs, i, j).0, msgs, j).1.usage
              == UsageAt(b.ledger.callUsage, k, msgs, j)
    decreases j - i
  {
    hide EmitOne, QueueIds, UsageOf;
    if i < j {
      var b1 := EmitOne(b, msgs, i).0;
      LedgerAfterOne(b, msgs, i);
      UsageAligned(b1, msgs, i + 1, j);
    }
  }

  lemma LedgerAfterOne(b: Bridge, msgs: seq<EngineMsg>, i: nat)
    requires i < |msgs|
    ensures EmitOne(b, msgs, i).0.ledger
         == if msgs[i].role == Assistant then TakeUsage(b.ledger, msgs, i).0 else b.ledger
  {
    hide TakeUsage, TakeResult, QueueIds, Storable;
  }

  /** The usages that assistant messages carry, with their texts, in order. */
  function Carried(out: seq<Message>): seq<(string, Option<Usage>)> {
    if out == [] then [] else CarriedOne(out[0]) + Carried(out[1..])
  }

  function CarriedOne(m: Message): seq<(string, Option<Usage>)> {
    if m.role == Assistant then [(m.content, m.usage)] else []
  }

  /** The same for what positions i..n of a snapshot should carry, from call k on: the k-th assistant message that of
      the k-th call; a message that cannot be stored takes its usage with it. */
  function Due(calls: map<nat, CallUsage>, k: nat, msgs: seq<EngineMsg>, i: nat, n: nat): seq<(string, Option<Usage>)>
    requires i <= n <= |msgs|
    decreases n - i
  {
    if i == n then []
    else if msgs[i].role != Assistant then Due(calls, k, msgs, i + 1, n)
    else
      (if Said(msgs[i]) != [] then [(msgs[i].text, UsageAt(calls, k, msgs, i))] else [])
      + Due(calls, k + 1, msgs, i + 1, n)
  }

  lemma {:induction false} CarriedAppend(a: seq<Message>, b: seq<Message>)
    ensures Carried(a + b) == Carried(a) + Carried(b)
  {
    hide CarriedOne;
    if a == [] {
      assert a + b == b;
    } else {
      CarriedAppend(a[1..], b);
      assert (a + b)[0] == a[0] && (a + b)[1..] == a[1..] + b;
      var x, y, z := CarriedOne(a[0]), Carried(a[1..]), Carried(b);
      assert x + (y + z) == x + y + z;
    }
  }

  lemma CarriesNothing()
    ensures Carried([]) == []
  {
  }

  lemma CarriesAlone(m: Message)
    ensures Carried([m]) == Carried([m.(finishReason := "")])
  {
  }

  lemma {:induction false} CarriedUnmarked(out: seq<Message>)
    ensures Carried(Unmarked(out)) == Carried(out)
  {
    hide Carried, CarriedOne;
    CarriesNothing();
    if out != [] {
      var init, last := out[..|out| - 1], out[|out| - 1];
      CarriesAlone(last);
      CarriedUnmarked(init);
      CarriedAppend(init, [last]);
      CarriedAppend(Unmarked(init), [last.(finishReason := "")]);
      assert out == init + [last];
    }
  }

  lemma OneCarries(b: Bridge, msgs: seq<EngineMsg>, i: nat)
    requires i < |msgs|
    ensures var k := b.ledger.asstSeq;
            Carried(EmitOne(b, msgs, i).1)
              == if msgs[i].role == Assistant && Said(msgs[i]) != []
                 then [(msgs[i].text, UsageAt(b.ledger.callUsage, k, msgs, i))] else []
  {
    IdentifiedCount(b.lane.synthetic, msgs[i].toolCalls);
    hide UsageOf, TakeResult, Identified, Missing, Blank, Book;
    var (b1, m) := Prepare(b, msgs, i);
    var one := if Storable(m) then [m] else [];
    if m.role == Tool && HasImages(b1.lane) {
      CarriedAppend(one, [ImageMessage(b1.lane.pendingImages.value)]);
    }
  }

  lemma {:induction false} DueIgnores(calls: map<nat, CallUsage>, less: map<nat, CallUsage>, k: nat,
                                      msgs: seq<EngineMsg>, i: nat, n: nat)
    requires i <= n <= |msgs|
    requires forall j :: j >= k ==> (j in calls <==> j in less) && (j in calls ==> calls[j] == less[j])
    ensures Due(calls, k, msgs, i, n) == Due(less, k, msgs, i, n)
    decreases n - i
  {
    hide UsageOf, Said;
    if i < n {
      DueIgnores(calls, less, if msgs[i].role == Assistant then k + 1 else k, msgs, i + 1, n);
    }
  }

  lemma TakenLedger(l: Ledger, msgs: seq<EngineMsg>, i: nat)
    requires i < |msgs|
    ensures var r := TakeUsage(l, msgs, i).0; r.asstSeq == l.asstSeq + 1 && r.callUsage == l.callUsage - {l.asstSeq}
  {
    hide UsageOf;
  }

  lemma {:induction false} RangeCarries(b: Bridge, msgs: seq<EngineMsg>, i: nat, n: nat)
    requires i <= n <= |msgs|
    ensures Carried(EmitRange(b, msgs, i, n).1) == Due(b.ledger.callUsage, b.ledger.asstSeq, msgs, i, n)
    decreases n - i
  {
    hide EmitOne, UsageAt, Said, Carried, TakeUsage;
    if i == n {
      CarriesNothing();
    } else {
      var (b1, one) := EmitOne(b, msgs, i);
      TakenLedger(b.ledger, msgs, i);
      OneCarries(b, msgs, i);
      LedgerAfterOne(b, msgs, i);
      RangeCarries(b1, msgs, i + 1, n);
      CarriedAppend(one, EmitRange(b1, msgs, i + 1, n).1);
      DueIgnores(b.ledger.callUsage, b1.ledger.callUsage, b1.ledger.asstSeq, msgs, i + 1, n);
    }
  }

  /** The last report of call k; what was known of it before, if there is none. */
  function ReportOf(calls: map<nat, CallUsage>, es: seq<Event>, k: nat): Option<CallUsage> {
    if es == [] then if k in calls then Some(calls[k]) else None
    else
      match es[|es| - 1]
      case UsageSeen(iteration, usage, recorded) =>
        if iteration == k then Some(if usage.Some? then Exact(usage.value) else ToEstimate(recorded))
        else ReportOf(calls, es[..|es| - 1], k)
      case _ => ReportOf(calls, es[..|es| - 1], k)
  }

  lemma {:induction false} RegisterAllSnoc(b: Bridge, es: seq<Event>, e: Event)
    ensures RegisterAll(b, es + [e]) == Register(RegisterAll(b, es), e)
    decreases |es|
  {
    hide Register;
    if es == [] {
      assert (es + [e])[1..] == [] && RegisterAll(Register(b, e), []) == Register(b, e);
    } else {
      RegisterAllSnoc(Register(b, es[0]), es[1..], e);
      assert (es + [e])[0] == es[0] && (es + [e])[1..] == es[1..] + [e];
    }
  }

  lemma {:induction false} RegisteredReport(b: Bridge, es: seq<Event>, k: nat)
    ensures var calls := RegisterAll(b, es).ledger.callUsage;
            ReportOf(b.ledger.callUsage, es, k) == if k in calls then Some(calls[k]) else None
  {
    hide RegisterAll, Book;
    if es == [] {
      NothingRegistered(b);
    } else {
      var init, last := es[..|es| - 1], es[|es| - 1];
      RegisteredReport(b, init, k);
      RegisterAllSnoc(b, init, last);
      assert es == init + [last];
      RegisterCalls(RegisterAll(b, init), last);
    }
  }

  lemma NothingRegistered(b: Bridge)
    ensures RegisterAll(b, []) == b
  {
  }

  lemma RegisterCalls(b: Bridge, e: Event)
    ensures Register(b, e).ledger.callUsage
         == if e.UsageSeen?
            then b.ledger.callUsage[e.iteration := if e.usage.Some? then Exact(e.usage.value)
                                    else ToEstimate(e.recorded)]
            else b.ledger.callUsage
  {
  }

  /** Over a whole run, snapshots arriving whenever they like: what the session got carries the usages that were
      reported, the k-th assistant message that of the k-th call. */
  lemma RunCarries(b: Bridge, seen: seq<EngineMsg>, es: seq<Event>)
    requires Proper(b, seen, es) && b.writeLen == |seen| && b.writeBase <= |seen|
    ensures seen <= LastSeen(seen, es)
    ensures var last, calls := LastSeen(seen, es), RegisterAll(b, es).ledger.callUsage;
            && Carried(RunEvents(b, es).1) == Due(calls, b.ledger.asstSeq, last, |seen|, |last|)
            && forall k :: (if k in calls then Some(calls[k]) else None) == ReportOf(b.ledger.callUsage, es, k)
  {
    hide Proper, RunEvents, EmitRange, Unmarked, Carried, Due, ReportOf, RegisterAll;
    RunIsOneWrite(b, seen, es);
    var last, b1 := LastSeen(seen, es), RegisterAll(b, es);
    CarriedUnmarked(RunEvents(b, es).1);
    CarriedUnmarked(EmitRange(b1, last, |seen|, |last|).1);
    RangeCarries(b1, last, |seen|, |last|);
    RegisterAllKeepsSeq(b, es);
    forall k
      ensures ReportOf(b.ledger.callUsage, es, k) == if k in b1.ledger.callUsage then Some(b1.ledger.callUsage[k])
              else None
    {
      RegisteredReport(b, es, k);
    }
  }

  lemma {:induction false} RegisterAllKeepsSeq(b: Bridge, es: seq<Event>)
    ensures RegisterAll(b, es).ledger.asstSeq == b.ledger.asstSeq
    decreases |es|
  {
    if es != [] {
      RegisterAllKeepsSeq(Register(b, es[0]), es[1..]);
    }
  }

  // ---------------------------------------------------------------- what is booked

  /** Sum of a bag of usages. */
  ghost function Sum(m: multiset<Usage>): Usage {
    if m == multiset{} then ZERO else var u :| u in m; Add(Sum(m - multiset{u}), u)
  }

  lemma {:induction false} SumAdd(m: multiset<Usage>, u: Usage)
    ensures Sum(m + multiset{u}) == Add(Sum(m), u)
    decreases |m|
  {
    hide Add;
    var n := m + multiset{u};
    assert u in n;
    var v :| v in n && Sum(n) == Add(Sum(n - multiset{v}), v);
    if v == u {
      assert n - multiset{v} == m;
    } else {
      var less := m - multiset{v};
      assert n - multiset{v} == less + multiset{u} && less + multiset{v} == m && |less| < |m|;
      SumAdd(less, u);
      SumAdd(less, v);
      AddSwaps(Sum(less), u, v);
    }
  }

  /** The running total is the sum of all that was handed to the ledger, taken or refused. */
  ghost predicate Balanced(l: Ledger) { l.totals == Add(Sum(l.booked), Sum(l.unbooked)) }

  /** The estimates that the ledger takes (or refuses) while positions i..n are written: one for each assistant
      message whose call was left to estimate, none for any other. */
  function Estimates(l: Ledger, msgs: seq<EngineMsg>, i: nat, n: nat, taken: bool): multiset<Usage>
    requires i <= n <= |msgs|
    decreases n - i
  {
    if i == n then multiset{}
    else if msgs[i].role != Assistant then Estimates(l, msgs, i + 1, n, taken)
    else EstimateOne(l, msgs, i, taken) + Estimates(l.(asstSeq := l.asstSeq + 1), msgs, i + 1, n, taken)
  }

  function EstimateOne(l: Ledger, msgs: seq<EngineMsg>, i: nat, taken: bool): multiset<Usage>
    requires i < |msgs|
  {
    if l.asstSeq in l.callUsage && l.callUsage[l.asstSeq] == ToEstimate(taken)
    then multiset{Estimate(msgs, i)} else multiset{}
  }

  /** One assistant message hands its estimate, if there is one to make, to the ledger. */
  lemma TakeBooks(l: Ledger, msgs: seq<EngineMsg>, i: nat)
    requires i < |msgs|
    ensures var r := TakeUsage(l, msgs, i).0;
            && r.booked == l.booked + EstimateOne(l, msgs, i, true)
            && r.unbooked == l.unbooked + EstimateOne(l, msgs, i, false)
  {
    hide Add, Estimate;
  }

  lemma {:induction false} EstimatesIgnore(l: Ledger, m: Ledger, msgs: seq<EngineMsg>, i: nat, n: nat, taken: bool)
    requires i <= n <= |msgs| && l.asstSeq == m.asstSeq
    requires forall k :: k >= l.asstSeq ==> (k in l.callUsage <==> k in m.callUsage)
    requires forall k :: k >= l.asstSeq && k in l.callUsage ==> l.callUsage[k] == m.callUsage[k]
    ensures Estimates(l, msgs, i, n, taken) == Estimates(m, msgs, i, n, taken)
    decreases n - i
  {
    if i < n {
      if msgs[i].role == Assistant {
        EstimatesIgnore(l.(asstSeq := l.asstSeq + 1), m.(asstSeq := m.asstSeq + 1), msgs, i + 1, n, taken);
      } else {
        EstimatesIgnore(l, m, msgs, i + 1, n, taken);
      }
    }
  }

  /** A write hands exactly the estimates of the calls it consumes to the ledger, each one once. */
  lemma {:induction false} WriteBooksOnce(b: Bridge, msgs: seq<EngineMsg>, i: nat, n: nat)
    requires i <= n <= |msgs|
    ensures var l := EmitRange(b, msgs, i, n).0.ledger;
            && l.booked == b.ledger.booked + Estimates(b.ledger, msgs, i, n, true)
            && l.unbooked == b.ledger.unbooked + Estimates(b.ledger, msgs, i, n, false)
    decreases n - i
  {
    hide EmitOne, TakeUsage, EstimateOne;
    if i < n {
      var b1 := EmitOne(b, msgs, i).0;
      LedgerAfterOne(b, msgs, i);
      WriteBooksOnce(b1, msgs, i + 1, n);
      if msgs[i].role == Assistant {
        TakenLedger(b.ledger, msgs, i);
        TakeBooks(b.ledger, msgs, i);
        EstimatesIgnore(b1.ledger, b.ledger.(asstSeq := b.ledger.asstSeq + 1), msgs, i + 1, n, true);
        EstimatesIgnore(b1.ledger, b.ledger.(asstSeq := b.ledger.asstSeq + 1), msgs, i + 1, n, false);
      }
    }
  }

  /** The exact usages reported in a run that the ledger takes (or refuses). */
  function Reported(es: seq<Event>, taken: bool): multiset<Usage> {
    if es == [] then multiset{} else ReportedOne(es[0], taken) + Reported(es[1..], taken)
  }

  function ReportedOne(e: Event, taken: bool): multiset<Usage> {
    match e
    case UsageSeen(_, Some(u), recorded) => if recorded == taken then multiset{u} else multiset{}
    case _ => multiset{}
  }

  lemma RegisterBooks(b: Bridge, e: Event)
    ensures var l := Register(b, e).ledger;
            && l.booked == b.ledger.booked + ReportedOne(e, true)
                && l.unbooked == b.ledger.unbooked + ReportedOne(e, false)
  {
    hide Add;
  }

  lemma {:induction false} RegisterAllBooks(b: Bridge, es: seq<Event>)
    ensures var l := RegisterAll(b, es).ledger;
            && l.booked == b.ledger.booked + Reported(es, true) && l.unbooked == b.ledger.unbooked + Reported(es, false)
    decreases |es|
  {
    hide Register, ReportedOne;
    if es != [] {
      RegisterBooks(b, es[0]);
      RegisterAllBooks(Register(b, es[0]), es[1..]);
    }
  }

  /** Over a whole run the ledger is handed every exact usage that was reported, and the estimate of every other call
      whose message was written, each of them once. */
  lemma RunBooksOnce(b: Bridge, seen: seq<EngineMsg>, es: seq<Event>)
    requires Proper(b, seen, es) && b.writeLen == |seen| && b.writeBase <= |seen|
    ensures seen <= LastSeen(seen, es)
    ensures var last, l := LastSeen(seen, es), RegisterAll(b, es).ledger; var after := RunEvents(b, es).0.ledger;
            && after.booked == b.ledger.booked + Reported(es, true) + Estimates(l, last, |seen|, |last|, true)
            && after.unbooked == b.ledger.unbooked + Reported(es, false) + Estimates(l, last, |seen|, |last|, false)
  {
    hide Proper, RunEvents, EmitRange, Unmarked, Reported, Estimates;
    RunIsOneWrite(b, seen, es);
    var last := LastSeen(seen, es);
    WriteBooksOnce(RegisterAll(b, es), last, |seen|, |last|);
    RegisterAllBooks(b, es);
  }

  // ---------------------------------------------------------------- the running total

  lemma BookBalances(l: Ledger, u: Usage, recorded: bool)
    requires Balanced(l)
    ensures Balanced(Book(l, u, recorded))
  {
    hide Sum;
    SumAdd(l.booked, u);
    SumAdd(l.unbooked, u);
  }

  lemma {:induction false} WriteBalances(b: Bridge, msgs: seq<EngineMsg>, i: nat, n: nat)
    requires i <= n <= |msgs| && Balanced(b.ledger)
    ensures Balanced(EmitRange(b, msgs, i, n).0.ledger)
    decreases n - i
  {
    hide EmitOne, Sum, Book, Add;
    if i < n {
      var b1 := EmitOne(b, msgs, i).0;
      LedgerAfterOne(b, msgs, i);
      var l := b.ledger;
      if msgs[i].role == Assistant && l.asstSeq in l.callUsage && l.callUsage[l.asstSeq].ToEstimate? {
        var c := l.callUsage[l.asstSeq];
        BookBalances(l.(asstSeq := l.asstSeq + 1, callUsage := l.callUsage - {l.asstSeq}), UsageOf(c, msgs, i),
                     c.recorded);
      }
      WriteBalances(b1, msgs, i + 1, n);
    }
  }

  lemma StepBalances(b: Bridge, e: Event)
    requires Balanced(b.ledger)
    ensures Balanced(StepEvent(b, e).0.ledger)
  {
    hide EmitRange, WriteFrom, Sum, Book, Add;
    match e
    case SnapshotSeen(msgs) =>
      var base := if b.writeLen < b.writeBase then b.writeBase else b.writeLen;
      if base < |msgs| {
        EmitFits(b, msgs, base, |msgs|);
        WriteFromEmits(b, msgs, base, 2 * |msgs|);
        WriteBalances(b, msgs, base, |msgs|);
      }
    case UsageSeen(iteration, usage, recorded) =>
      if usage.Some? {
        BookBalances(b.ledger.(callUsage := b.ledger.callUsage[iteration := Exact(usage.value)]), usage.value,
                     recorded);
      }
    case _ =>
  }

  lemma {:induction false} RunStaysBalanced(b: Bridge, es: seq<Event>)
    requires Balanced(b.ledger)
    ensures Balanced(RunEvents(b, es).0.ledger)
    decreases |es|
  {
    hide StepEvent, Balanced;
    if es != [] {
      StepBalances(b, es[0]);
      RunStaysBalanced(StepEvent(b, es[0]).0, es[1..]);
    }
  }

  lemma SumSplits(m: multiset<Usage>) returns (u: Usage)
    requires m != multiset{}
    ensures u in m && |m - multiset{u}| < |m| && Sum(m) == Add(Sum(m - multiset{u}), u)
  {
    hide Add;
    u :| u in m && Sum(m) == Add(Sum(m - multiset{u}), u);
  }

  lemma {:induction false} SumUnmarked(m: multiset<Usage>)
    ensures !Sum(m).estimated
    decreases |m|
  {
    if m != multiset{} {
      var u := SumSplits(m);
      hide Sum;
      SumUnmarked(m - multiset{u});
    }
  }

  /** Over a whole run, whatever comes in whatever order, the running total is the sum of what the ledger took and
      what it refused; so it is the ledger's own sum exactly if what was refused comes to nothing: for counts that are
      not negative, if nothing refused counts anything. */
  lemma RunBalances(b: Bridge, es: seq<Event>)
    requires Balanced(b.ledger)
    ensures var l := RunEvents(b, es).0.ledger;
            && l.totals == Add(Sum(l.booked), Sum(l.unbooked))
            && (l.totals == Sum(l.booked) <==> Sum(l.unbooked) == ZERO)
            && ((forall u :: u in l.unbooked ==> Counts(u)) ==>
                  (l.totals == Sum(l.booked) <==> forall u :: u in l.unbooked ==> CountsNothing(u)))
  {
    hide Sum, RunEvents, Counts, CountsNothing;
    RunStaysBalanced(b, es);
    var l := RunEvents(b, es).0.ledger;
    SumUnmarked(l.booked);
    SumUnmarked(l.unbooked);
    if forall u :: u in l.unbooked ==> Counts(u) {
      SumIsZero(l.unbooked);
    }
  }

  /** Counts, as a provider reports them. */
  predicate Counts(u: Usage) { u.prompt >= 0 && u.completion >= 0 && u.total >= 0 && u.cached >= 0 && u.reasoning >= 0 }

  predicate CountsNothing(u: Usage) {
    u.prompt == 0 && u.completion == 0 && u.total == 0 && u.cached == 0 && u.reasoning == 0
  }

  lemma OneMoreIsZero(less: multiset<Usage>, u: Usage)
    ensures (forall v :: v in less + multiset{u} ==> CountsNothing(v)) <==>
            (forall v :: v in less ==> CountsNothing(v)) && CountsNothing(u)
  {
    hide CountsNothing;
    if forall v :: v in less + multiset{u} ==> CountsNothing(v) {
      assert u in less + multiset{u} && forall v :: v in less ==> v in less + multiset{u};
    }
  }

  /** Usages come to nothing exactly if each of them counts nothing. */
  lemma {:induction false} SumIsZero(m: multiset<Usage>)
    requires forall u :: u in m ==> Counts(u)
    ensures Counts(Sum(m))
    ensures Sum(m) == ZERO <==> forall u :: u in m ==> CountsNothing(u)
    decreases |m|
  {
    hide Sum, Add, Counts, CountsNothing;
    if m == multiset{} {
      EmptyIsZero();
    } else {
      var u := SumSplits(m);
      var less := m - multiset{u};
      SumUnmarked(less);
      SumIsZero(less);
      assert m == less + multiset{u};
      OneMoreIsZero(less, u);
      AddIsZero(Sum(less), u);
    }
  }

  lemma EmptyIsZero()
    ensures Sum(multiset{}) == ZERO && Counts(ZERO)
  {
  }

  lemma AddIsZero(t: Usage, u: Usage)
    requires Counts(t) && Counts(u) && !t.estimated
    ensures Counts(Add(t, u)) && (Add(t, u) == ZERO <==> t == ZERO && CountsNothing(u))
  {
    if Add(t, u) == ZERO {
      ZeroFields(Add(t, u));
      assert t.prompt == u.prompt == 0 && t.completion == u.completion == 0 && t.total == u.total == 0;
      assert t.cached == u.cached == 0 && t.reasoning == u.reasoning == 0;
    }
  }

  lemma ZeroFields(u: Usage)
    ensures u == ZERO <==> CountsNothing(u) && !u.estimated
  {
  }

  /** The five counts of a usage. */
  datatype Field = Prompt | Completion | Whole | Cached | Reasoning

  function Of(u: Usage, field: Field): int {
    match field
    case Prompt => u.prompt
    case Completion => u.completion
    case Whole => u.total
    case Cached => u.cached
    case Reasoning => u.reasoning
  }

  function SumOf(us: seq<Usage>, field: Field): int {
    if us == [] then 0 else SumOf(us[1..], field) + Of(us[0], field)
  }

  /** The sum of usages, in whatever order they came, sums up each of the five counts. */
  lemma {:induction false} SumIsByField(us: seq<Usage>, field: Field)
    ensures Of(Sum(multiset(us)), field) == SumOf(us, field)
  {
    hide Sum;
    if us == [] {
      EmptyIsZero();
      assert multiset(us) == multiset{};
    } else {
      SumIsByField(us[1..], field);
      assert us == [us[0]] + us[1..];
      assert multiset(us) == multiset(us[1..]) + multiset{us[0]};
      SumAdd(multiset(us[1..]), us[0]);
    }
  }
}
