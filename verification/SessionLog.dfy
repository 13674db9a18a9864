/** A conversation session: the full message history in memory, a cursor that starts the active window,
    and the persistent store behind both. */
module SessionLog {
  import opened Wrappers
  import opened Text
  import opened Messages
  import opened Sanitizing

  /** Memory and store side by side; `failedAt` is the time of the last failed compaction (0: none). */
  datatype State = State(
    messages: seq<Message>, cursor: nat, log: seq<Message>, logCursor: nat, failedAt: nat)
  {
    predicate InBounds() { cursor <= |messages| }

    function Window(): seq<Message>
      requires InBounds()
    {
      messages[cursor..]
    }

    /** Memory agrees with the store, so loading the session again changes nothing. */
    predicate Synced() { messages == log && cursor == logCursor }
  }

  // ---------------------------------------------------------------- the store

  function Min(a: nat, b: nat): nat { if a < b then a else b }

  function Without(log: seq<Message>, timestamp: int): seq<Message> {
    if log == [] then []
    else if log[0].timestamp == timestamp then Without(log[1..], timestamp)
    else [log[0]] + Without(log[1..], timestamp)
  }

  function WithoutEach(log: seq<Message>, gone: seq<Message>): seq<Message> {
    if gone == [] then log else Without(WithoutEach(log, gone[..|gone| - 1]), gone[|gone| - 1].timestamp)
  }

  /** The persistent store of one session. Whether a call succeeds is the environment's choice (`ok`). */
  class Store {
    var log: seq<Message>
    var cursor: nat

    constructor (log: seq<Message>, cursor: nat)
      ensures this.log == log && this.cursor == cursor
    {
      this.log, this.cursor := log, cursor;
    }

    method Append(m: Message, ok: bool)
      modifies this`log
      ensures log == if ok then old(log) + [m] else old(log)
    {
      if ok { log := log + [m]; }
    }

    method Delete(timestamp: int, ok: bool)
      modifies this`log
      ensures log == if ok then Without(old(log), timestamp) else old(log)
    {
      if ok { log := Without(log, timestamp); }
    }

    /** Deletes message by message until the first failure. */
    method DeleteEach(gone: seq<Message>, accepts: nat) returns (ok: bool)
      modifies this`log
      ensures log == WithoutEach(old(log), gone[..Min(accepts, |gone|)])
      ensures ok <==> |gone| <= accepts
    {
      var i := 0;
      while i < |gone|
        invariant i <= |gone| && i <= accepts
        invariant log == WithoutEach(old(log), gone[..i])
      {
        Delete(gone[i].timestamp, i < accepts);
        if i >= accepts {
          return false;
        }
        assert gone[..i + 1][..i] == gone[..i];
        i := i + 1;
      }
      ok := true;
    }

    method Truncate(keep: nat, ok: bool)
      modifies this`log
      ensures log == if ok && keep < |old(log)| then old(log)[..keep] else old(log)
    {
      if ok && keep < |log| { log := log[..keep]; }
    }

    method Clear(ok: bool)
      modifies this`log
      ensures log == if ok then [] else old(log)
    {
      if ok { log := []; }
    }

    method SetCursor(c: nat, ok: bool)
      modifies this`cursor
      ensures cursor == if ok then c else old(cursor)
    {
      if ok { cursor := c; }
    }
  }

  // ---------------------------------------------------------------- token estimates and services

  /** Token counts are summed up in double precision. A unit is 2^-54, so every number that occurs is whole. */
  const ONE_TOKEN: nat := 0x40_0000_0000_0000
  const HALF_TOKEN: nat := 0x20_0000_0000_0000

  /** The double nearest to 0.3; the one nearest to 0.6 is its double. */
  const ASCII_UNITS: nat := 5404319552844595

  /** The distance of neighbouring doubles at this size. */
  function Spacing(units: nat): (r: nat)
    ensures r > 0
  {
    if units < HALF_TOKEN then 1 else 2 * Spacing(units / 2)
  }

  /** The nearest multiple of `step`, the even one of two. */
  function Nearest(units: nat, step: nat): nat
    requires step > 0
  {
    var q, r := units / step, units % step;
    (if 2 * r < step || (2 * r == step && q % 2 == 0) then q else q + 1) * step
  }

  function Rounded(units: nat): nat { Nearest(units, Spacing(units)) }

  function CharUnits(c: char): nat { if c <= '\U{7F}' then ASCII_UNITS else 2 * ASCII_UNITS }

  function TokenUnits(s: string): nat {
    if s == "" then 0 else Rounded(TokenUnits(s[..|s| - 1]) + CharUnits(s[|s| - 1]))
  }

  function EstimateTokens(s: string): nat { TokenUnits(s) / ONE_TOKEN + 1 }

  /** Ten ASCII characters, at 0.3 tokens each, come to just under three. */
  lemma TenCharacters(s: string)
    requires |s| == 10 && forall c :: c in s ==> c <= '\U{7F}'
    ensures EstimateTokens(s) == 3
  {
    hide TokenUnits, Rounded, Nearest, SUMS;
    NoUnits(s[..0]);
    OneMore(s, 0);
    TenSums(0);
    OneMore(s, 1);
    TenSums(1);
    OneMore(s, 2);
    TenSums(2);
    OneMore(s, 3);
    TenSums(3);
    OneMore(s, 4);
    TenSums(4);
    OneMore(s, 5);
    TenSums(5);
    OneMore(s, 6);
    TenSums(6);
    OneMore(s, 7);
    TenSums(7);
    OneMore(s, 8);
    TenSums(8);
    OneMore(s, 9);
    TenSums(9);
    assert s[..10] == s;
  }

  lemma NoUnits(s: string)
    requires s == []
    ensures TokenUnits(s) == 0
  {
  }

  lemma SmallSpacing(units: nat)
    ensures units < HALF_TOKEN ==> Spacing(units) == 1
    ensures HALF_TOKEN <= units < 2 * HALF_TOKEN ==> Spacing(units) == 2
    ensures 2 * HALF_TOKEN <= units < 4 * HALF_TOKEN ==> Spacing(units) == 4
    ensures 4 * HALF_TOKEN <= units < 8 * HALF_TOKEN ==> Spacing(units) == 8
  {
    if HALF_TOKEN <= units < 8 * HALF_TOKEN {
      assert Spacing(units) == 2 * Spacing(units / 2);
      if 2 * HALF_TOKEN <= units {
        assert Spacing(units / 2) == 2 * Spacing(units / 2 / 2);
      }
    }
  }

  lemma OneMore(s: string, k: nat)
    requires k < |s| && forall c :: c in s ==> c <= '\U{7F}'
    ensures TokenUnits(s[..k + 1]) == Rounded(TokenUnits(s[..k]) + ASCII_UNITS)
  {
    hide Rounded;
    assert s[..k + 1][..k] == s[..k] && s[k] in s;
  }

  /** Five characters beyond ASCII, at 0.6 tokens each, come to three. */
  lemma FiveWide(s: string)
    requires |s| == 5 && forall c :: c in s ==> c > '\U{7F}'
    ensures EstimateTokens(s) == 4
  {
    hide TokenUnits, Rounded, Nearest;
    NoUnits(s[..0]);
    WideSums();
    OneMoreWide(s, 0);
    OneMoreWide(s, 1);
    OneMoreWide(s, 2);
    OneMoreWide(s, 3);
    OneMoreWide(s, 4);
    assert s[..5] == s;
  }

  lemma OneMoreWide(s: string, k: nat)
    requires k < |s| && forall c :: c in s ==> c > '\U{7F}'
    ensures TokenUnits(s[..k + 1]) == Rounded(TokenUnits(s[..k]) + 2 * ASCII_UNITS)
  {
    hide Rounded;
    assert s[..k + 1][..k] == s[..k] && s[k] in s;
  }

  lemma WideSums()
    ensures Rounded(0 + 2 * ASCII_UNITS) == 10808639105689190
    ensures Rounded(10808639105689190 + 2 * ASCII_UNITS) == 21617278211378380
    ensures Rounded(21617278211378380 + 2 * ASCII_UNITS) == 32425917317067568
    ensures Rounded(32425917317067568 + 2 * ASCII_UNITS) == 43234556422756760
    ensures Rounded(43234556422756760 + 2 * ASCII_UNITS) == 54043195528445952
  {
    SmallRounded(0 + 2 * ASCII_UNITS);
    SmallRounded(10808639105689190 + 2 * ASCII_UNITS);
    SmallRounded(21617278211378380 + 2 * ASCII_UNITS);
    SmallRounded(32425917317067568 + 2 * ASCII_UNITS);
    SmallRounded(43234556422756760 + 2 * ASCII_UNITS);
  }

  lemma SmallRounded(units: nat)
    ensures units < 8 * HALF_TOKEN ==>
              Rounded(units) == Nearest(units, if units < HALF_TOKEN then 1 else if units < 2 * HALF_TOKEN then 2
                                               else if units < 4 * HALF_TOKEN then 4 else 8)
  {
    hide Nearest, Spacing;
    SmallSpacing(units);
  }

  /** 0.3 added up, k times. */
  const SUMS: seq<nat> := [0, 5404319552844595, 10808639105689190, 16212958658533784,
                            21617278211378380, 27021597764222976, 32425917317067572, 37830236869912168,
                            43234556422756760, 48638875975601352, 54043195528445944]

  lemma TenSums(k: nat)
    ensures |SUMS| == 11 && SUMS[0] == 0 && SUMS[10] == 54043195528445944
    ensures k < 10 ==> Rounded(SUMS[k] + ASCII_UNITS) == SUMS[k + 1]
  {
    if k < 10 {
      SmallRounded(SUMS[k] + ASCII_UNITS);
    }
  }

  function MessageTokens(m: Message): int {
    if m.role == Assistant && m.usage.Some? && (m.usage.value.completion > 0 || m.usage.value.reasoning > 0)
    then m.usage.value.completion + m.usage.value.reasoning
    else EstimateTokens(m.content)
  }

  function WindowTokens(w: seq<Message>): int {
    if w == [] then 0 else WindowTokens(w[..|w| - 1]) + MessageTokens(w[|w| - 1])
  }

  /** What the host has plugged in, and how it answers this time: the model's context length, the
      compactor (None when absent; its result None on error), the summary sink (its result false on
      error), and whether the store accepts the new cursor. */
  datatype Services = Services(
    contextLength: int,
    compactor: Option<seq<Message> -> Option<string>>,
    sink: Option<string -> bool>,
    cursorStored: bool)

  const COOLDOWN: nat := 300_000_000_000
  const FORCE_THRESHOLD: int := 100_000

  predicate NeedsCompaction(w: seq<Message>, contextLength: int) {
    contextLength > 0 && w != [] && WindowTokens(w) > contextLength * 8 / 10
  }

  /** The text the compactor makes of the window; None when it fails or has nothing to say. */
  function Summary(w: seq<Message>, sv: Services): Option<string>
    requires sv.compactor.Some?
  {
    if w == [] || Sanitize(w) == [] then None else
    var r := sv.compactor.value(Sanitize(w));
    if r == Some("") then None else r
  }

  /** A compaction goes through when a summary was made and the sink took it. */
  predicate Compacts(w: seq<Message>, sv: Services) {
    sv.sink.Some? && sv.compactor.Some? &&
    (w == [] || (Summary(w, sv).Some? && sv.sink.value(Summary(w, sv).value)))
  }

  predicate CoolingDown(failedAt: nat, now: nat) {
    failedAt > 0 && now - failedAt < COOLDOWN
  }

  // ---------------------------------------------------------------- the operations as functions

  /** Store calls are made one by one and stop at the first failure; `accepts` of them succeed. */
  datatype Op =
    | AppendOp(msgs: seq<Message>, accepts: nat)
    | DeleteRoundOp(timestamp: int, accepts: nat)
    | TruncateOp(keep: int, accepts: nat)
    | ResetOp(accepts: nat)
    | TryCompactOp(now: nat, services: Services)
    | ForceCompactOp(now: nat, services: Services)
    | ReloadOp(accepts: nat)

  function AfterAppend(s: State, msgs: seq<Message>, accepts: nat): State {
    var kept := Kept(msgs);
    var n := Min(accepts, |kept|);
    s.(log := s.log + kept[..n], messages := if n == |kept| then s.messages + kept else s.messages)
  }

  /** More messages at the end, in memory and in the store alike. */
  function Extended(s: State, more: seq<Message>): State {
    s.(messages := s.messages + more, log := s.log + more)
  }

  lemma AppendOne(s: State, m: Message, accepts: nat)
    ensures AfterAppend(s, [m], accepts) == if Storable(m) && accepts > 0 then Extended(s, [m]) else s
    ensures |Kept([m])| <= accepts <==> !Storable(m) || accepts > 0
  {
    assert Kept([m]) == if Storable(m) then [m] else [];
  }

  lemma ExtendedTwice(s: State, a: seq<Message>, b: seq<Message>)
    ensures Extended(Extended(s, a), b) == Extended(s, a + b)
  {
    assert s.messages + (a + b) == s.messages + a + b && s.log + (a + b) == s.log + a + b;
  }

  /** The last user message of the window with this timestamp. */
  function UserAt(w: seq<Message>, timestamp: int): Option<nat> {
    if w == [] then None
    else if w[|w| - 1].role == User && w[|w| - 1].timestamp == timestamp then Some(|w| - 1)
    else UserAt(w[..|w| - 1], timestamp)
  }

  /** Where the round that starts at c ends: at the next user message, or with the window. */
  function RoundEnd(w: seq<Message>, c: nat): (e: nat)
    requires c < |w|
    ensures c < e <= |w|
    ensures e < |w| ==> w[e].role == User
    ensures forall k :: c < k < e ==> w[k].role != User
    decreases |w| - c
  {
    if c + 1 < |w| && w[c + 1].role != User then RoundEnd(w, c + 1) else c + 1
  }

  lemma {:induction false} UserAtFound(w: seq<Message>, timestamp: int)
    ensures UserAt(w, timestamp).Some? ==>
              var c := UserAt(w, timestamp).value;
              && c < |w| && w[c].role == User && w[c].timestamp == timestamp
              && forall k :: c < k < |w| ==> !(w[k].role == User && w[k].timestamp == timestamp)
    ensures UserAt(w, timestamp).None? ==> forall m :: m in w ==> !(m.role == User && m.timestamp == timestamp)
  {
    if w != [] {
      UserAtFound(w[..|w| - 1], timestamp);
      assert w == w[..|w| - 1] + [w[|w| - 1]];
    }
  }

  /** The round of the user message with this timestamp, as a range of the window. */
  function Round(w: seq<Message>, timestamp: int): (r: Option<(nat, nat)>)
    ensures r.Some? ==> r.value.0 < r.value.1 <= |w|
  {
    UserAtFound(w, timestamp);
    match UserAt(w, timestamp)
    case None => None
    case Some(c) => Some((c, RoundEnd(w, c)))
  }

  function AfterDeleteRound(s: State, timestamp: int, accepts: nat): State
    requires s.InBounds()
  {
    match Round(s.Window(), timestamp)
    case None => s
    case Some((c, e)) =>
      var n := Min(accepts, e - c);
      s.(log := WithoutEach(s.log, s.Window()[c..c + n]),
         messages := if n == e - c then s.messages[..s.cursor + c] + s.messages[s.cursor + e..] else s.messages)
  }

  function AfterTruncate(s: State, keep: int, accepts: nat): State {
    if keep < 0 || keep >= |s.messages| then s
    else s.(messages := s.messages[..keep],
            cursor := Min(s.cursor, keep),
            log := if accepts > 0 && keep < |s.log| then s.log[..keep] else s.log)
  }

  function AfterReset(s: State, accepts: nat): State {
    if accepts == 0 then s
    else if accepts == 1 then s.(log := [])
    else s.(messages := [], cursor := 0, log := [], logCursor := 0)
  }

  function AfterCompact(s: State, now: nat, sv: Services): State
    requires s.InBounds()
  {
    if Compacts(s.Window(), sv)
    then s.(cursor := |s.messages|, logCursor := if sv.cursorStored then |s.messages| else s.logCursor, failedAt := 0)
    else s.(failedAt := now)
  }

  function AfterTryCompact(s: State, now: nat, sv: Services): State
    requires s.InBounds()
  {
    if CoolingDown(s.failedAt, now) || !NeedsCompaction(s.Window(), sv.contextLength) then s
    else AfterCompact(s, now, sv)
  }

  function AfterForceCompact(s: State, now: nat, sv: Services): State
    requires s.InBounds()
  {
    if s.Window() == [] || WindowTokens(s.Window()) <= FORCE_THRESHOLD then s else AfterCompact(s, now, sv)
  }

  function AfterReload(s: State, accepts: nat): State {
    if accepts == 0 then s else s.(messages := s.log, cursor := if accepts == 1 then 0 else s.logCursor)
  }

  function Step(s: State, op: Op): State
    requires s.InBounds()
  {
    match op
    case AppendOp(msgs, accepts) => AfterAppend(s, msgs, accepts)
    case DeleteRoundOp(timestamp, accepts) => AfterDeleteRound(s, timestamp, accepts)
    case TruncateOp(keep, accepts) => AfterTruncate(s, keep, accepts)
    case ResetOp(accepts) => AfterReset(s, accepts)
    case TryCompactOp(now, sv) => AfterTryCompact(s, now, sv)
    case ForceCompactOp(now, sv) => AfterForceCompact(s, now, sv)
    case ReloadOp(accepts) => AfterReload(s, accepts)
  }

  // ---------------------------------------------------------------- the session object

  method EstimateText(s: string) returns (tokens: nat)
    ensures tokens == EstimateTokens(s)
  {
    hide Rounded;
    var units := 0;
    for i := 0 to |s|
      invariant units == TokenUnits(s[..i])
    {
      assert s[..i + 1][..i] == s[..i];
      units := Rounded(units + if s[i] <= '\U{7F}' then ASCII_UNITS else 2 * ASCII_UNITS);
    }
    assert s[..|s|] == s;
    tokens := units / ONE_TOKEN + 1;
  }

  method EstimateWindow(w: seq<Message>) returns (total: int)
    ensures total == WindowTokens(w)
  {
    total := 0;
    for i := 0 to |w|
      invariant total == WindowTokens(w[..i])
    {
      assert w[..i + 1][..i] == w[..i];
      var m := w[i];
      if m.role == Assistant && m.usage.Some? && (m.usage.value.completion > 0 || m.usage.value.reasoning > 0) {
        total := total + m.usage.value.completion + m.usage.value.reasoning;
      } else {
        var t := EstimateText(m.content);
        total := total + t;
      }
    }
    assert w[..|w|] == w;
  }

  /** Searches backwards for a user message, then forwards for any message. */
  method FindMessageIndexByTimestamp(w: seq<Message>, timestamp: int) returns (index: int)
    ensures UserAt(w, timestamp).Some? ==> index == UserAt(w, timestamp).value
    ensures UserAt(w, timestamp).None? && index >= 0 ==>
              index < |w| && w[index].role != User && w[index].timestamp == timestamp
              && forall k :: 0 <= k < index ==> w[k].timestamp != timestamp
    ensures -1 <= index && (index < 0 <==> forall m :: m in w ==> m.timestamp != timestamp)
  {
    UserAtFound(w, timestamp);
    assert w[..|w|] == w;
    var i := |w| - 1;
    while i >= 0
      invariant -1 <= i < |w|
      invariant UserAt(w, timestamp) == UserAt(w[..i + 1], timestamp)
    {
      if w[i].role == User && w[i].timestamp == timestamp {
        return i;
      }
      assert w[..i + 1][..i] == w[..i];
      i := i - 1;
    }
    assert UserAt(w, timestamp).None?;
    for k := 0 to |w|
      invariant forall j :: 0 <= j < k ==> w[j].timestamp != timestamp
    {
      if w[k].timestamp == timestamp {
        return k;
      }
    }
    assert w[..|w|] == w;
    index := -1;
  }

  /** The round is that of the message found, if that is a user message. */
  lemma RoundFound(w: seq<Message>, timestamp: int, c: int)
    requires UserAt(w, timestamp).Some? ==> c == UserAt(w, timestamp).value
    requires UserAt(w, timestamp).None? && c >= 0 ==> c < |w| && w[c].role != User
    ensures Round(w, timestamp) == if 0 <= c < |w| && w[c].role == User then Some((c as nat, RoundEnd(w, c))) else None
  {
    hide UserAt, RoundEnd;
    UserAtFound(w, timestamp);
  }

  function CutOut(s: State, start: nat, stop: nat, n: nat): State
    requires start + n <= stop <= |s.messages|
  {
    s.(log := WithoutEach(s.log, s.messages[start..stop][..n]),
       messages := if n == stop - start then s.messages[..start] + s.messages[stop..] else s.messages)
  }

  lemma NoRoundDeleted(s: State, timestamp: int, accepts: nat)
    requires s.InBounds() && Round(s.Window(), timestamp).None?
    ensures AfterDeleteRound(s, timestamp, accepts) == s
  {
  }

  /** Deleting a round, with the round taken from all the messages. */
  lemma RoundDeleted(s: State, timestamp: int, c: nat, e: nat, accepts: nat)
    requires s.InBounds() && Round(s.Window(), timestamp) == Some((c, e))
    ensures c < e && s.cursor + e <= |s.messages|
    ensures AfterDeleteRound(s, timestamp, accepts) == CutOut(s, s.cursor + c, s.cursor + e, Min(accepts, e - c))
  {
    hide WithoutEach, Round;
    SameRange(s.messages, s.cursor, c, e, Min(accepts, e - c));
  }

  lemma SameRange(s: seq<Message>, from: nat, a: nat, b: nat, n: nat)
    requires from <= |s| && a <= b <= |s[from..]| && n <= b - a
    ensures s[from + a..from + b][..n] == s[from..][a..a + n]
  {
  }

  method KeepStorable(msgs: seq<Message>) returns (filtered: seq<Message>)
    ensures filtered == Kept(msgs)
  {
    filtered := [];
    for i := 0 to |msgs|
      invariant filtered == Kept(msgs[..i])
    {
      KeptAppend(msgs[..i], [msgs[i]]);
      assert msgs[..i + 1] == msgs[..i] + [msgs[i]];
      TrimSpaceEmptyIffBlank(msgs[i].content);
      if TrimSpace(msgs[i].content) != "" || |msgs[i].toolCalls| > 0 {
        filtered := filtered + [msgs[i]];
      }
    }
    assert msgs[..|msgs|] == msgs;
  }

  /** The end of the round that starts at c; None unless c is a user message of the window. */
  method GetRoundRange(c: int, active: seq<Message>) returns (end: Option<nat>)
    ensures end == if 0 <= c < |active| && active[c].role == User then Some(RoundEnd(active, c)) else None
  {
    if c < 0 || c >= |active| || active[c].role != User {
      return None;
    }
    var e := c + 1;
    while e < |active| && active[e].role != User
      invariant c < e <= |active|
      invariant RoundEnd(active, c) == RoundEnd(active, e - 1)
    {
      e := e + 1;
    }
    end := Some(e);
  }

  class Session {
    var messages: seq<Message>
    var cursor: nat
    var failedAt: nat
    const store: Store

    ghost function View(): State
      reads this, store
    {
      State(messages, cursor, store.log, store.cursor, failedAt)
    }

    constructor (store: Store)
      ensures this.store == store
      ensures View() == State([], 0, store.log, store.cursor, 0)
    {
      this.store := store;
      messages, cursor, failedAt := [], 0, 0;
    }

    /** Loads messages and cursor from the store. */
    method Reload(accepts: nat) returns (ok: bool)
      modifies this
      ensures View() == AfterReload(old(View()), accepts)
      ensures ok <==> accepts > 0
    {
      ok := accepts > 0;
      if ok {
        messages := store.log;
        cursor := if accepts > 1 then store.cursor else 0;
      }
    }

    method Current() returns (window: seq<Message>)
      ensures View().InBounds() ==> window == View().Window()
      ensures !View().InBounds() ==> window == []
    {
      window := if cursor >= |messages| then [] else messages[cursor..];
    }

    /** Store first, message by message; memory only when the store took them all. */
    method Append(msgs: seq<Message>, accepts: nat) returns (ok: bool)
      modifies this`messages, store`log
      ensures View() == AfterAppend(old(View()), msgs, accepts)
      ensures ok <==> |Kept(msgs)| <= accepts
    {
      var filtered := KeepStorable(msgs);
      if |filtered| == 0 {
        return true;
      }
      var n := 0;
      while n < |filtered|
        invariant n <= |filtered| && n <= accepts
        invariant store.log == old(store.log) + filtered[..n]
        invariant messages == old(messages)
      {
        store.Append(filtered[n], n < accepts);
        if n >= accepts {
          return false;
        }
        n := n + 1;
      }
      assert filtered[..n] == filtered;
      messages := messages + filtered;
      ok := true;
    }

    method DeleteRound(timestamp: int, accepts: nat) returns (ok: bool)
      requires View().InBounds()
      modifies this`messages, store`log
      ensures View() == AfterDeleteRound(old(View()), timestamp, accepts)
      ensures var r := Round(old(View()).Window(), timestamp);
              ok <==> r.Some? && r.value.1 - r.value.0 <= accepts
    {
      hide WithoutEach, RoundEnd, UserAt, Round, AfterDeleteRound;
      ghost var before := View();
      var active := messages[cursor..];
      var c := FindMessageIndexByTimestamp(active, timestamp);
      RoundFound(active, timestamp, c);
      if c < 0 {
        NoRoundDeleted(before, timestamp, accepts);
        return false;
      }
      var end := GetRoundRange(c, active);
      if end.None? {
        NoRoundDeleted(before, timestamp, accepts);
        return false;
      }
      RoundDeleted(before, timestamp, c, end.value, accepts);
      var start, stop := cursor + c, cursor + end.value;
      ok := store.DeleteEach(messages[start..stop], accepts);
      if ok {
        messages := messages[..start] + messages[stop..];
      }
      assert View() == CutOut(before, start, stop, Min(accepts, stop - start));
    }

    /** Memory is cut before the store is asked, and the cursor is clamped in memory only. */
    method Truncate(keep: int, accepts: nat) returns (ok: bool)
      modifies this`messages, this`cursor, store`log
      ensures View() == AfterTruncate(old(View()), keep, accepts)
      ensures ok <==> 0 <= keep && (keep >= |old(messages)| || accepts > 0)
    {
      if keep < 0 {
        return false;
      }
      if keep >= |messages| {
        return true;
      }
      messages := messages[..keep];
      if cursor > keep {
        cursor := keep;
      }
      store.Truncate(keep, accepts > 0);
      ok := accepts > 0;
    }

    method Reset(accepts: nat) returns (ok: bool)
      modifies this`messages, this`cursor, store
      ensures View() == AfterReset(old(View()), accepts)
      ensures ok <==> accepts >= 2
    {
      store.Clear(accepts > 0);
      if accepts == 0 {
        return false;
      }
      store.SetCursor(0, accepts > 1);
      if accepts == 1 {
        return false;
      }
      messages, cursor := [], 0;
      ok := true;
    }

    /** Moves the cursor to the end; the store's answer is not looked at. */
    method ExecuteFullCompaction(cursorStored: bool) returns (slid: int)
      modifies this`cursor, store`cursor
      ensures View() == old(View()).(cursor := |messages|,
                                     logCursor := if cursorStored then |messages| else old(store.cursor))
      ensures slid == |messages| - old(cursor)
    {
      slid := |messages| - cursor;
      cursor := |messages|;
      store.SetCursor(cursor, cursorStored);
    }

    method DoCompact(active: seq<Message>, now: nat, sv: Services)
      requires View().InBounds() && active == View().Window()
      modifies this`cursor, this`failedAt, store`cursor
      ensures View() == AfterCompact(old(View()), now, sv)
    {
      if sv.sink.None? {
        failedAt := now;
        return;
      }
      var compactionFailed := false;
      if sv.compactor.Some? && |active| > 0 {
        var clean := SanitizeWindow(active);
        var summary := if clean == [] then Some("") else sv.compactor.value(clean);
        if summary.None? || summary == Some("") {
          compactionFailed := true;
        } else if !sv.sink.value(summary.value) {
          compactionFailed := true;
        }
      } else if sv.compactor.None? {
        compactionFailed := true;
      }
      if !compactionFailed {
        var _ := ExecuteFullCompaction(sv.cursorStored);
      }
      failedAt := if compactionFailed then now else 0;
    }

    method TryCompact(now: nat, sv: Services)
      requires View().InBounds()
      modifies this`cursor, this`failedAt, store`cursor
      ensures View() == AfterTryCompact(old(View()), now, sv)
    {
      if failedAt > 0 && now - failedAt < COOLDOWN {
        return;
      }
      var active := messages[cursor..];
      var tokens := EstimateWindow(active);
      if sv.contextLength <= 0 || |active| == 0 || tokens <= sv.contextLength * 8 / 10 {
        return;
      }
      DoCompact(active, now, sv);
    }

    method ForceCompact(now: nat, sv: Services)
      requires View().InBounds()
      modifies this`cursor, this`failedAt, store`cursor
      ensures View() == AfterForceCompact(old(View()), now, sv)
    {
      var active := messages[cursor..];
      var tokens := EstimateWindow(active);
      if |active| == 0 || tokens <= FORCE_THRESHOLD {
        return;
      }
      DoCompact(active, now, sv);
    }
  }
}
