/** Repairing a window whose tool calls are not answered: cut back to the last user message in front of the
    break, put the user messages of the cut part back, and make the window end in a user message. */
module PairingRepair {
  import opened Wrappers
  import opened Text
  import opened Messages
  import opened SessionLog

  // ---------------------------------------------------------------- where to cut

  /** The first position from i on whose calls are not answered; |w| if there is none. */
  function FirstBroken(w: seq<Message>, i: nat): (r: nat)
    requires i <= |w|
    ensures i <= r <= |w|
    ensures forall k :: i <= k < r ==> Answered(w, k)
    ensures r < |w| ==> !Answered(w, r)
    decreases |w| - i
  {
    if i == |w| || !Answered(w, i) then i else FirstBroken(w, i + 1)
  }

  /** The end of the last user message before i; 0 if there is none. */
  function AfterLastUser(w: seq<Message>, i: nat): (r: nat)
    requires i <= |w|
    ensures r <= i && (r == 0 || w[r - 1].role == User)
    ensures forall k :: r <= k < i ==> w[k].role != User
  {
    if i == 0 || w[i - 1].role == User then i else AfterLastUser(w, i - 1)
  }

  function CutPoint(w: seq<Message>): int {
    var i := FirstBroken(w, 0);
    if i == |w| then -1 else AfterLastUser(w, i)
  }

  method FindToolPairingBreak(w: seq<Message>) returns (cut: int)
    ensures cut == CutPoint(w)
  {
    var i := 0;
    while i < |w|
      invariant 0 <= i <= |w|
      invariant FirstBroken(w, 0) == FirstBroken(w, i)
    {
      var m := w[i];
      if m.role == Assistant && |m.toolCalls| > 0 {
        var pending := CallIds(m.toolCalls);
        var j := i + 1;
        while j < |w| && w[j].role == Tool
          invariant i < j <= |w|
          invariant forall k :: i < k < j ==> Answered(w, k)
          invariant pending + RunIds(w, i + 1) == CallIds(m.toolCalls) + RunIds(w, i + 1)
          invariant pending - RunIds(w, j) == CallIds(m.toolCalls) - RunIds(w, i + 1)
        {
          pending := pending - {w[j].toolCallId};
          j := j + 1;
        }
        assert RunIds(w, j) == {};
        if pending != {} {
          assert !Answered(w, i);
          cut := i;
          while cut > 0 && w[cut - 1].role != User
            invariant 0 <= cut <= i
            invariant AfterLastUser(w, i) == AfterLastUser(w, cut)
          {
            cut := cut - 1;
          }
          return;
        }
        SkipAnswered(w, i, j);
        i := j;
      } else {
        i := i + 1;
      }
    }
    cut := -1;
  }

  lemma {:induction false} SkipAnswered(w: seq<Message>, i: nat, j: nat)
    requires i <= j <= |w| && forall k :: i <= k < j ==> Answered(w, k)
    ensures FirstBroken(w, i) == FirstBroken(w, j)
    decreases j - i
  {
    if i < j {
      SkipAnswered(w, i + 1, j);
    }
  }

  /** No cut is asked for exactly when the window is well-paired. */
  lemma CutPointComplete(w: seq<Message>)
    ensures CutPoint(w) == -1 <==> WellPaired(w)
    ensures CutPoint(w) == -1 || 0 <= CutPoint(w) < |w|
  {
  }

  lemma PrefixAnswered(w: seq<Message>, k: nat, i: nat)
    requires i < k <= |w|
    ensures Answered(w[..k], i) ==> Answered(w, i)
    ensures Answered(w, i) && k < |w| && w[k].role != Tool ==> Answered(w[..k], i)
  {
    assert w == w[..k] + w[k..];
    RunIdsAppend(w[..k], w[k..], i + 1);
  }

  /** The cut keeps a well-paired prefix that is empty or ends in a user message, and the longest such:
      every longer prefix that ends in a user message still holds the break. */
  lemma CutIsLongest(w: seq<Message>)
    requires CutPoint(w) >= 0
    ensures var cut := CutPoint(w);
            && WellPaired(w[..cut]) && (cut == 0 || w[cut - 1].role == User)
            && forall k :: cut < k <= |w| && w[k - 1].role == User ==> !WellPaired(w[..k])
  {
    var cut, broken := CutPoint(w), FirstBroken(w, 0);
    forall i | 0 <= i < cut
      ensures Answered(w[..cut], i)
    {
      assert Answered(w, i);
      UserStopsRun(w, cut, i + 1);
    }
    forall k | cut < k <= |w| && w[k - 1].role == User
      ensures !WellPaired(w[..k])
    {
      assert k > broken;
      PrefixAnswered(w, k, broken);
    }
  }

  /** A run of results cannot reach across a user message. */
  lemma {:induction false} UserStopsRun(w: seq<Message>, cut: nat, i: nat)
    requires i <= cut <= |w| && (cut == 0 || w[cut - 1].role == User)
    ensures i < cut ==> RunIds(w[..cut], i) == RunIds(w, i)
    ensures i == cut && i > 0 ==> !Calls(w[i - 1])
    decreases cut - i
  {
    if i < cut {
      UserStopsRun(w, cut, i + 1);
    }
  }

  // ---------------------------------------------------------------- what is put back

  /** The opening words of the notice; what follows them does not matter here. */
  const NOTICE: string := "（系统提示）"

  function Notice(now: int): Message { Plain(User, NOTICE, now) }

  /** A user message as it is put back: content, images and timestamp. */
  function Remade(m: Message): Message {
    Plain(User, m.content, m.timestamp).(images := m.images)
  }

  function Users(w: seq<Message>): seq<Message> {
    if w == [] then []
    else Users(w[..|w| - 1]) + if w[|w| - 1].role == User then [Remade(w[|w| - 1])] else []
  }

  function CallsIn(w: seq<Message>): set<string> {
    if w == [] then {} else CallsIn(w[..|w| - 1]) + CallIds(w[|w| - 1].toolCalls)
  }

  predicate EndsInUser(w: seq<Message>) {
    w != [] && w[|w| - 1].role == User
  }

  /** Everything the repair appends behind `head`, in order. */
  function BackBehind(head: seq<Message>, users: seq<Message>, now: int): seq<Message> {
    Kept(users) + if EndsInUser(head + Kept(users)) then [] else [Notice(now)]
  }

  function PutBack(w: seq<Message>, cut: nat, now: int): seq<Message>
    requires cut <= |w|
  {
    BackBehind(w[..cut], Users(w[cut..]), now)
  }

  function RepairedWindow(w: seq<Message>, now: int): seq<Message>
    requires CutPoint(w) >= 0
  {
    CutPointComplete(w);
    w[..CutPoint(w)] + PutBack(w, CutPoint(w), now)
  }

  lemma NoticeIsInk()
    ensures !Blank(NOTICE)
  {
    assert NOTICE[0] == '（' && '（' in NOTICE && !IsSpace('（');
  }

  lemma {:induction false} UsersAreUsers(w: seq<Message>)
    ensures forall m :: m in Users(w) ==> m.role == User && m.toolCalls == []
    ensures Users(w) == [] <==> forall m :: m in w ==> m.role != User
  {
    if w != [] {
      UsersAreUsers(w[..|w| - 1]);
      assert w == w[..|w| - 1] + [w[|w| - 1]];
    }
  }

  lemma {:induction false} KeptSome(msgs: seq<Message>)
    ensures forall m :: m in Kept(msgs) ==> m in msgs
  {
    if msgs != [] {
      KeptSome(msgs[1..]);
    }
  }

  lemma UsersPair(users: seq<Message>)
    requires forall m :: m in users ==> m.role == User
    ensures WellPaired(users)
  {
    forall i | 0 <= i < |users|
      ensures Answered(users, i)
    {
      assert users[i] in users;
    }
  }

  /** After the repair the window is well-paired, not empty, ends in a user message, and needs no repair. */
  lemma RepairedIsSound(w: seq<Message>, now: int)
    requires CutPoint(w) >= 0
    ensures var r := RepairedWindow(w, now);
            WellPaired(r) && EndsInUser(r) && CutPoint(r) == -1
  {
    CutPointComplete(w);
    CutIsLongest(w);
    var cut := CutPoint(w);
    var users := Kept(Users(w[cut..]));
    UsersAreUsers(w[cut..]);
    KeptSome(Users(w[cut..]));
    var back := PutBack(w, cut, now);
    assert forall m :: m in back ==> m.role == User;
    UsersPair(back);
    WellPairedAppend(w[..cut], back);
    assert !EndsInUser(w[..cut] + users) ==> back[|back| - 1] == Notice(now);
    assert EndsInUser(w[..cut] + users) ==> back == users;
    CutPointComplete(RepairedWindow(w, now));
  }

  lemma {:induction false} UsersAppend(a: seq<Message>, b: seq<Message>)
    ensures Users(a + b) == Users(a) + Users(b)
  {
    if b == [] {
      assert a + b == a;
    } else {
      var init, last := b[..|b| - 1], b[|b| - 1];
      UsersAppend(a, init);
      assert (a + b)[..|a + b| - 1] == a + init && (a + b)[|a + b| - 1] == last;
      var more := if last.role == User then [Remade(last)] else [];
      assert Users(a) + (Users(init) + more) == Users(a) + Users(init) + more;
    }
  }

  lemma {:induction false} UsersOfUsers(users: seq<Message>)
    requires forall m :: m in users ==> m == Remade(m)
    ensures Users(users) == users
  {
    if users != [] {
      UsersOfUsers(users[..|users| - 1]);
      assert users[|users| - 1] in users;
    }
  }

  lemma {:induction false} UsersRemade(w: seq<Message>)
    ensures forall m :: m in Users(w) ==> m == Remade(m)
  {
    if w != [] {
      UsersRemade(w[..|w| - 1]);
    }
  }

  /** The user messages that can be stored survive in order, with the notice behind them exactly when
      there is none in front of the cut and none to put back. */
  lemma PutBackUsers(w: seq<Message>, cut: nat, now: int)
    requires cut <= |w| && (cut == 0 || w[cut - 1].role == User)
    ensures var users := Kept(Users(w[cut..]));
            && Users(w[..cut] + PutBack(w, cut, now))
                 == Users(w[..cut]) + (users + (if cut == 0 && users == [] then [Notice(now)] else []))
            && (cut > 0 ==> Users(w[..cut]) != [])
  {
    hide Kept, Users;
    var head, gone := w[..cut], Users(w[cut..]);
    var users, back := Kept(gone), PutBack(w, cut, now);
    UsersRemade(w[cut..]);
    UsersAreUsers(w[cut..]);
    UsersAreUsers(head);
    KeptSome(gone);
    UsersOfUsers(back);
    UsersAppend(head, back);
    assert cut > 0 ==> head[cut - 1] in head;
    if users == [] {
      assert head + users == head;
    } else {
      assert (head + users)[|head + users| - 1] == users[|users| - 1];
    }
  }

  lemma RepairedUsers(w: seq<Message>, now: int)
    requires CutPoint(w) >= 0
    ensures var cut := CutPoint(w);
            var users := Kept(Users(w[cut..]));
            && 0 <= cut < |w|
            && Users(RepairedWindow(w, now))
                 == Users(w[..cut]) + (users + (if cut == 0 && users == [] then [Notice(now)] else []))
            && (cut > 0 ==> Users(w[..cut]) != [])
  {
    hide Kept, Users, PutBack, WellPaired;
    CutPointComplete(w);
    CutIsLongest(w);
    PutBackUsers(w, CutPoint(w), now);
  }

  /** Every user message survives the repair, and the notice comes in exactly when there was none, if and
      only if no user message behind the cut is blank. */
  lemma RepairKeepsUsers(w: seq<Message>, now: int)
    requires CutPoint(w) >= 0
    ensures 0 <= CutPoint(w) < |w|
    ensures Users(RepairedWindow(w, now)) == Users(w) + (if Users(w) == [] then [Notice(now)] else [])
       <==> (forall m :: m in Users(w[CutPoint(w)..]) ==> Storable(m))
  {
    hide Kept, Users, PutBack, CutPoint, RepairedWindow, Storable;
    RepairedUsers(w, now);
    var cut := CutPoint(w);
    var head, gone := w[..cut], Users(w[cut..]);
    assert w == head + w[cut..];
    UsersAppend(head, w[cut..]);
    UsersAreUsers(head);
    KeptAll(gone);
    NoticeIsNoBlank(gone, now);
    var kept := Kept(gone);
    var note := if cut == 0 && kept == [] then [Notice(now)] else [];
    if kept == gone {
      assert Users(w) == [] <==> cut == 0 && kept == [];
      assert Users(head) + (kept + note) == Users(head) + gone + note;
    } else {
      assert |kept| < |gone| && Users(w) != [];
      assert note != [] ==> Users(head) + (kept + note) == [Notice(now)] && Users(w) == gone;
    }
  }

  lemma NoticeIsNoBlank(gone: seq<Message>, now: int)
    ensures gone == [Notice(now)] ==> forall m :: m in gone ==> Storable(m)
  {
    NoticeIsInk();
  }

  // ---------------------------------------------------------------- the repair on a session

  /** The session after a repair of which the store accepted `accepts` calls: the truncation first, then one
      for each message put back. */
  function AfterRepair(s: State, now: int, accepts: nat): State
    requires s.InBounds() && CutPoint(s.Window()) >= 0
  {
    var w := s.Window();
    CutPointComplete(w);
    var cut := CutPoint(w);
    var t := AfterTruncate(s, s.cursor + cut, accepts);
    if accepts == 0 then t
    else Extended(t, PutBack(w, cut, now)[..Min(accepts - 1, |PutBack(w, cut, now)|)])
  }

  lemma KeptAt(msgs: seq<Message>, i: nat)
    requires i < |msgs|
    ensures var done, one := Kept(msgs[..i]), if Storable(msgs[i]) then [msgs[i]] else [];
            && Kept(msgs[..i + 1]) == done + one
            && |done| + |one| <= |Kept(msgs)| && Kept(msgs)[..|done|] == done
  {
    KeptAppend(msgs[..i + 1], msgs[i + 1..]);
    KeptAppend(msgs[..i], [msgs[i]]);
    assert msgs == msgs[..i + 1] + msgs[i + 1..] && msgs[..i + 1] == msgs[..i] + [msgs[i]];
  }

  /** Puts messages back one by one; stops at the first the store refuses. */
  method AppendEach(s: Session, msgs: seq<Message>, accepts: nat) returns (ok: bool, used: nat)
    modifies s`messages, s.store`log
    ensures used == Min(accepts, |Kept(msgs)|) && (ok <==> |Kept(msgs)| <= accepts)
    ensures s.View() == Extended(old(s.View()), Kept(msgs)[..used])
  {
    hide Kept, Storable;
    ghost var start := s.View();
    used := 0;
    assert msgs[..0] == [] && Kept([]) == [] by { NothingKept(); }
    for i := 0 to |msgs|
      invariant used == |Kept(msgs[..i])| && used <= accepts
      invariant s.View() == Extended(start, Kept(msgs[..i]))
    {
      KeptAt(msgs, i);
      AppendOne(s.View(), msgs[i], accepts - used);
      ok := s.Append([msgs[i]], accepts - used);
      if !ok {
        return;
      }
      if Storable(msgs[i]) {
        used := used + 1;
      }
    }
    assert msgs[..|msgs|] == msgs && Kept(msgs)[..used] == Kept(msgs);
    ok := true;
  }

  lemma NothingKept()
    ensures Kept([]) == []
  {
  }

  /** Collects what the cut part holds: the ids of its calls, and its user messages in order. */
  method Collect(gone: seq<Message>) returns (removed: set<string>, users: seq<Message>)
    ensures removed == CallsIn(gone) && users == Users(gone)
  {
    removed, users := {}, [];
    for i := 0 to |gone|
      invariant removed == CallsIn(gone[..i]) && users == Users(gone[..i])
    {
      assert gone[..i + 1][..i] == gone[..i];
      removed := removed + CallIds(gone[i].toolCalls);
      if gone[i].role == User {
        users := users + [Remade(gone[i])];
      }
    }
    assert gone[..|gone|] == gone;
  }

  lemma NoticeStorable(now: int)
    ensures Storable(Notice(now))
  {
    NoticeIsInk();
  }

  /** How far the messages behind the cut get with `accepts` store calls. */
  lemma BackSteps(head: seq<Message>, users: seq<Message>, now: int, accepts: nat)
    ensures var kept, back := Kept(users), BackBehind(head, users, now);
            back[..Min(accepts, |back|)]
              == if accepts < |kept| then kept[..accepts]
                 else if EndsInUser(head + kept) || accepts == |kept| then kept
                 else kept + [Notice(now)]
  {
  }

  method PutBackAll(s: Session, users: seq<Message>, now: int, accepts: nat)
    requires s.View().InBounds()
    modifies s`messages, s.store`log
    ensures var back := BackBehind(old(s.View()).Window(), users, now);
            s.View() == Extended(old(s.View()), back[..Min(accepts, |back|)])
  {
    hide Kept, Storable, BackBehind, AfterAppend;
    ghost var start := s.View();
    ghost var head := start.Window();
    BackSteps(head, users, now, accepts);
    var ok, used := AppendEach(s, users, accepts);
    if ok {
      assert Kept(users)[..used] == Kept(users);
      var cur := s.Current();
      assert cur == head + Kept(users);
      if |cur| == 0 || cur[|cur| - 1].role != User {
        NoticeStorable(now);
        AppendOne(s.View(), Notice(now), accepts - used);
        ExtendedTwice(start, Kept(users), [Notice(now)]);
        var _ := s.Append([Notice(now)], accepts - used);
      }
    }
  }

  lemma TruncatedWindow(s: State, cut: nat, accepts: nat)
    requires s.InBounds() && cut < |s.Window()|
    ensures var t := AfterTruncate(s, s.cursor + cut, accepts);
            t.InBounds() && t.Window() == s.Window()[..cut]
  {
  }

  /** The repair of a session. When the store refuses the truncation the repair reports failure, yet memory
      has been cut and nothing was put back. */
  method RepairToolPairingBreak(s: Session, now: int, accepts: nat) returns (repaired: bool, removed: set<string>)
    requires s.View().InBounds()
    modifies s`messages, s`cursor, s.store`log
    ensures var w := old(s.View()).Window();
            var cut := CutPoint(w);
            && (cut < 0 ==> !repaired && s.View() == old(s.View()))
            && (cut >= 0 ==> s.View() == AfterRepair(old(s.View()), now, accepts))
            && (repaired <==> cut >= 0 && accepts > 0)
            && (repaired ==> 0 <= cut < |w| && removed == CallsIn(w[cut..]))
  {
    hide Users, CallsIn, CutPoint, BackBehind, Extended, Min, AfterTruncate;
    ghost var start := s.View();
    var window := s.Current();
    var cut := FindToolPairingBreak(window);
    if cut < 0 {
      return false, {};
    }
    CutPointComplete(window);
    var users;
    removed, users := Collect(window[cut..]);
    var ok := s.Truncate(s.cursor + cut, accepts);
    if !ok {
      return false, {};
    }
    TruncatedWindow(start, cut, accepts);
    PutBackAll(s, users, now, accepts - 1);
    repaired := true;
  }

  /** With a store that takes every call the repair leaves exactly the repaired window behind an untouched
      cursor and untouched older messages, in memory and in the store. */
  lemma RepairCompletes(s: State, now: int, accepts: nat)
    requires s.InBounds() && s.Synced() && CutPoint(s.Window()) >= 0
    requires 0 <= CutPoint(s.Window()) <= |s.Window()| && accepts > |PutBack(s.Window(), CutPoint(s.Window()), now)|
    ensures var t := AfterRepair(s, now, accepts);
            && t.InBounds() && t.Synced() && t.cursor == s.cursor
            && t.messages[..s.cursor] == s.messages[..s.cursor]
            && t.Window() == RepairedWindow(s.Window(), now)
            && WellPaired(t.Window()) && EndsInUser(t.Window())
  {
    hide CutPoint, PutBack, WellPaired;
    var w := s.Window();
    CutPointComplete(w);
    RepairedIsSound(w, now);
    var cut := CutPoint(w);
    var back := PutBack(w, cut, now);
    assert s.messages[..s.cursor + cut] == s.messages[..s.cursor] + w[..cut];
    assert back[..|back|] == back;
    assert AfterRepair(s, now, accepts).messages == s.messages[..s.cursor] + (w[..cut] + back);
  }

  /** A refused truncation: memory has lost the cut part, user messages included, while the store still has it. */
  lemma RefusedRepairDropsMemory(s: State, now: int)
    requires s.InBounds() && s.Synced() && CutPoint(s.Window()) >= 0
    ensures var t := AfterRepair(s, now, 0);
            && t.InBounds() && 0 <= CutPoint(s.Window()) < |s.Window()|
            && t.Window() == s.Window()[..CutPoint(s.Window())] && t.log == s.log && !t.Synced()
  {
    CutPointComplete(s.Window());
    assert |s.messages[..s.cursor + CutPoint(s.Window())]| < |s.messages|;
  }

  // ---------------------------------------------------------------- pending requests

  /** A request for permission and a question, each with the id of the tool call it belongs to. */
  class Pendings {
    var permission: Option<string>
    var question: Option<string>

    constructor (permission: Option<string>, question: Option<string>)
      ensures this.permission == permission && this.question == question
    {
      this.permission, this.question := permission, question;
    }

    /** Requests whose calls were cut are withdrawn; so is a question that cannot be traced to a call. */
    method InvalidateAfterRepair(removed: set<string>) returns (denied: bool)
      modifies this
      ensures permission == Surviving(old(permission), removed)
      ensures question == Surviving(old(question), removed + {""})
      ensures denied <==> permission != old(permission)
    {
      denied := false;
      if permission.Some? && permission.value in removed {
        permission, denied := None, true;
      }
      var taken := question;
      question := None;
      if taken.Some? && !(taken.value in removed || taken.value == "") {
        question := taken;
      }
    }
  }

  function Surviving(pending: Option<string>, removed: set<string>): Option<string> {
    if pending.Some? && pending.value in removed then None else pending
  }

  lemma {:induction false} CallsInAppend(a: seq<Message>, b: seq<Message>)
    ensures CallsIn(a + b) == CallsIn(a) + CallsIn(b)
  {
    if b == [] {
      assert a + b == a;
    } else {
      CallsInAppend(a, b[..|b| - 1]);
      assert (a + b)[..|a + b| - 1] == a + b[..|b| - 1] && (a + b)[|a + b| - 1] == b[|b| - 1];
    }
  }

  /** Behind a repair, a request for a call of the old window survives exactly if its call is in front of the cut
      and not repeated behind it; the repaired window then still asks for it. */
  lemma SurvivorsStillAsked(w: seq<Message>, now: int, id: string)
    requires CutPoint(w) >= 0 && id in CallsIn(w)
    ensures CutPoint(w) < |w|
    ensures var removed := CallsIn(w[CutPoint(w)..]);
            Surviving(Some(id), removed) == Some(id) ==> id in CallsIn(RepairedWindow(w, now))
    ensures var removed := CallsIn(w[CutPoint(w)..]);
            id !in CallsIn(w[..CutPoint(w)]) ==> Surviving(Some(id), removed) == None
  {
    hide CallsIn, PutBack, CutPoint;
    CutPointComplete(w);
    SurvivorsBehind(w, CutPoint(w), PutBack(w, CutPoint(w), now), id);
  }

  lemma SurvivorsBehind(w: seq<Message>, cut: nat, back: seq<Message>, id: string)
    requires cut <= |w| && id in CallsIn(w)
    ensures id !in CallsIn(w[cut..]) ==> id in CallsIn(w[..cut] + back)
    ensures id !in CallsIn(w[..cut]) ==> id in CallsIn(w[cut..])
  {
    assert w == w[..cut] + w[cut..];
    hide CallsIn;
    CallsInAppend(w[..cut], w[cut..]);
    CallsInAppend(w[..cut], back);
  }
}
