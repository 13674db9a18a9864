/** What a repair leaves of the user's words, told by the fields of the messages alone. */
module RepairContents {
  import opened Wrappers
  import opened Text
  import opened Messages
  import opened SessionLog
  import opened PairingRepair

  /** What one user message says and shows, and when. */
  type Word = (string, seq<Image>, int)

  /** The words of the user messages of a window. */
  function Words(w: seq<Message>): seq<Word> {
    if w == [] then []
    else Words(w[..|w| - 1]) + OneWord(w[|w| - 1])
  }

  function OneWord(m: Message): seq<Word> { if m.role == User then [(m.content, m.images, m.timestamp)] else [] }

  /** Words with a text that is not blank. */
  function InInk(words: seq<Word>): seq<Word> {
    if words == [] then []
    else InInk(words[..|words| - 1]) + if Blank(words[|words| - 1].0) then [] else [words[|words| - 1]]
  }

  lemma WordsSnoc(w: seq<Message>, m: Message)
    ensures Words(w + [m]) == Words(w) + OneWord(m)
  {
    assert (w + [m])[..|w|] == w;
  }

  lemma InInkSnoc(words: seq<Word>, x: Word)
    ensures InInk(words + [x]) == InInk(words) + if Blank(x.0) then [] else [x]
  {
    assert (words + [x])[..|words|] == words;
  }

  lemma {:induction false} WordsAppend(a: seq<Message>, b: seq<Message>)
    ensures Words(a + b) == Words(a) + Words(b)
  {
    hide Words, OneWord;
    if b == [] {
      NoWords();
      assert a + b == a && Words(a) + [] == Words(a);
    } else {
      var init, last := b[..|b| - 1], b[|b| - 1];
      WordsAppend(a, init);
      WordsSnoc(a + init, last);
      WordsSnoc(init, last);
      assert a + b == a + init + [last] && b == init + [last];
      assert Words(a) + (Words(init) + OneWord(last)) == Words(a) + Words(init) + OneWord(last);
    }
  }

  lemma NoWords()
    ensures Words([]) == [] && InInk([]) == []
  {
  }

  /** The collected user messages say what the window says, and those that can be stored say what is in ink. */
  lemma {:induction false} CollectedWords(w: seq<Message>)
    ensures Words(Users(w)) == Words(w) && Words(Kept(Users(w))) == InInk(Words(w))
  {
    hide Words, InInk, Kept;
    NoWords();
    if w == [] {
      KeepsOne(w);
    } else {
      var init, last := w[..|w| - 1], w[|w| - 1];
      CollectedWords(init);
      WordsSnoc(init, last);
      assert w == init + [last];
      if last.role == User {
        var again := Remade(last);
        WordsSnoc(Users(init), again);
        InInkSnoc(Words(init), OneWord(last)[0]);
        KeptAppend(Users(init), [again]);
        KeepsOne([again]);
        WordsAppend(Kept(Users(init)), Kept([again]));
        WordsSnoc([], again);
        assert [] + [again] == [again] && [] + OneWord(again) == OneWord(again);
        assert InInk(Words(init)) + [] == InInk(Words(init));
      } else {
        assert Users(init) + [] == Users(init) && Words(init) + [] == Words(init);
      }
    }
  }

  lemma KeepsOne(w: seq<Message>)
    ensures w == [] ==> Kept(w) == []
    ensures |w| == 1 && w[0].toolCalls == [] ==> Kept(w) == if Blank(w[0].content) then [] else w
  {
  }

  /** The user's words behind a repair: those in front of the cut, then those behind it that are not blank, in order,
      with their pictures and times; and the notice exactly if that would be nothing at all. */
  lemma RepairedWords(w: seq<Message>, now: int)
    requires CutPoint(w) >= 0
    ensures var cut := CutPoint(w);
            && 0 <= cut < |w|
            && var words := Words(w[..cut]) + InInk(Words(w[cut..]));
               Words(RepairedWindow(w, now)) == if words == [] then [(NOTICE, [], now)] else words
  {
    hide Words, InInk, Kept, Users, CutPoint, WellPaired;
    CutPointComplete(w);
    CutIsLongest(w);
    var cut := CutPoint(w);
    var head, users := w[..cut], Kept(Users(w[cut..]));
    CollectedWords(w[cut..]);
    PutBackWords(head, Users(w[cut..]), now);
    WordsAppend(head, BackBehind(head, Users(w[cut..]), now));
    WordsAppend(head, users);
    LastSpeaks(head);
    UsersAreUsers(w[cut..]);
    KeptSome(Users(w[cut..]));
    LastSpeaks(users);
    NoWords();
    if users == [] {
      assert head + users == head;
    } else {
      assert (head + users)[|head + users| - 1] == users[|users| - 1];
    }
    assert Words(head) + InInk(Words(w[cut..])) == Words(head + users);
  }

  /** What is put back says what the kept user messages say, and the notice if the window does not end in a user's. */
  lemma PutBackWords(head: seq<Message>, users: seq<Message>, now: int)
    ensures Words(BackBehind(head, users, now))
         == Words(Kept(users)) + if EndsInUser(head + Kept(users)) then [] else [(NOTICE, [], now)]
  {
    hide Words, Kept;
    WordsAppend(Kept(users), [Notice(now)]);
    WordsSnoc([], Notice(now));
    NoWords();
    assert [] + [Notice(now)] == [Notice(now)] && [] + OneWord(Notice(now)) == OneWord(Notice(now));
    assert Kept(users) + [] == Kept(users) && Words(Kept(users)) + [] == Words(Kept(users));
  }

  lemma LastSpeaks(w: seq<Message>)
    ensures EndsInUser(w) ==> Words(w) != []
  {
  }

  lemma {:induction false} AllInInk(words: seq<Word>)
    ensures (forall x :: x in words ==> !Blank(x.0)) <==> InInk(words) == words
    ensures |InInk(words)| <= |words|
  {
    hide InInk;
    if words == [] {
      NoWords();
    } else {
      var init, last := words[..|words| - 1], words[|words| - 1];
      AllInInk(init);
      InInkSnoc(init, last);
      assert words == init + [last];
      if InInk(words) == words && !Blank(last.0) {
        assert InInk(words)[..|init|] == init;
      }
    }
  }

  /** A repaired window has all of the user's words, exactly as they were, if and only if no user message behind the
      cut is blank and the window has a user message at all. */
  lemma RepairKeepsWords(w: seq<Message>, now: int)
    requires CutPoint(w) >= 0
    ensures 0 <= CutPoint(w) < |w|
    ensures Words(RepairedWindow(w, now)) == Words(w) <==>
            Words(w) != [] && forall m :: m in w[CutPoint(w)..] && m.role == User ==> !Blank(m.content)
  {
    hide Words, InInk, RepairedWindow, CutPoint;
    RepairedWords(w, now);
    var cut := CutPoint(w);
    assert w == w[..cut] + w[cut..];
    WordsAppend(w[..cut], w[cut..]);
    AllInInk(Words(w[cut..]));
    WordsOfUsers(w[cut..]);
    var head, gone := Words(w[..cut]), Words(w[cut..]);
    if head + InInk(gone) == [] {
      NoticeSpeaks(gone, now);
    }
    assert head + InInk(gone) == head + gone <==> InInk(gone) == gone by {
      if head + InInk(gone) == head + gone {
        assert (head + InInk(gone))[|head|..] == InInk(gone) && (head + gone)[|head|..] == gone;
      }
    }
  }

  lemma NoticeSpeaks(gone: seq<Word>, now: int)
    requires InInk(gone) == []
    ensures gone != [(NOTICE, [], now)]
  {
    NoticeIsInk();
    var notice: Word := (NOTICE, [], now);
    InInkSnoc([], notice);
    assert [] + [notice] == [notice];
  }

  lemma {:induction false} WordsOfUsers(w: seq<Message>)
    ensures (forall x :: x in Words(w) ==> !Blank(x.0)) <==>
            (forall m :: m in w && m.role == User ==> !Blank(m.content))
  {
    hide Words, Blank;
    if w == [] {
      NoWords();
    } else {
      var init, last := w[..|w| - 1], w[|w| - 1];
      WordsOfUsers(init);
      WordsSnoc(init, last);
      assert w == init + [last];
      assert forall x :: x in Words(w) <==> x in Words(init) || x in OneWord(last);
      assert forall m :: m in w <==> m in init || m == last;
      if last.role == User {
        assert OneWord(last)[0] in OneWord(last);
      }
    }
  }

  // ---------------------------------------------------------------- a store that gives up on the way

  /** Wherever the store gives up behind the truncation, the session has what was in front of the cut and the first
      messages of what is to be put back, in memory and in the store alike, and is well-paired. */
  lemma RepairStopsAnywhere(s: State, now: int, accepts: nat)
    requires s.InBounds() && s.Synced() && CutPoint(s.Window()) >= 0 && accepts > 0
    ensures var t := AfterRepair(s, now, accepts);
            && t.InBounds() && t.Synced() && t.cursor == s.cursor && t.messages[..s.cursor] == s.messages[..s.cursor]
            && t.Window() <= RepairedWindow(s.Window(), now)
            && |t.Window()| == Min(|RepairedWindow(s.Window(), now)|, CutPoint(s.Window()) + accepts - 1)
            && WellPaired(t.Window())
  {
    hide CutPoint, PutBack, WellPaired;
    var w := s.Window();
    CutPointComplete(w);
    RepairedIsSound(w, now);
    var cut := CutPoint(w);
    var back := PutBack(w, cut, now);
    var some := back[..Min(accepts - 1, |back|)];
    assert s.messages[..s.cursor + cut] == s.messages[..s.cursor] + w[..cut];
    assert AfterRepair(s, now, accepts).messages == s.messages[..s.cursor] + (w[..cut] + some);
    var t := AfterRepair(s, now, accepts);
    assert w[..cut] + back == w[..cut] + some + back[|some|..];
    PutBackUsersOnly(w, cut, now);
    assert back[|some|..] == [] || back[|some|..][0] in back;
    WellPairedSplit(w[..cut] + some, back[|some|..]);
  }

  lemma PutBackUsersOnly(w: seq<Message>, cut: nat, now: int)
    requires cut <= |w|
    ensures forall m :: m in PutBack(w, cut, now) ==> m.role == User
  {
    UsersAreUsers(w[cut..]);
    KeptSome(Users(w[cut..]));
  }

  /** A call is reported as cut exactly if some message behind the cut asks for it. */
  lemma {:induction false} CutCalls(w: seq<Message>, id: string)
    ensures id in CallsIn(w) <==> exists m, c :: m in w && c in m.toolCalls && c.id == id
  {
    hide CallsIn;
    if w == [] {
      NoCallsIn();
    } else {
      var init, last := w[..|w| - 1], w[|w| - 1];
      CutCalls(init, id);
      CallsInSnoc(init, last);
      assert w == init + [last];
      assert id in CallIds(last.toolCalls) <==> exists c :: c in last.toolCalls && c.id == id;
    }
  }

  lemma NoCallsIn()
    ensures CallsIn([]) == {}
  {
  }

  lemma CallsInSnoc(w: seq<Message>, m: Message)
    ensures CallsIn(w + [m]) == CallsIn(w) + CallIds(m.toolCalls)
  {
    assert (w + [m])[..|w|] == w;
  }

  /** A pending request survives a repair exactly if no message behind the cut asks for its call; a question without a
      call id never does, and what was not pending is not afterwards. */
  lemma SurvivesExactly(gone: seq<Message>, id: string)
    ensures Surviving(Some(id), CallsIn(gone)) == Some(id) <==>
            !exists m, c :: m in gone && c in m.toolCalls && c.id == id
    ensures Surviving(Some(id), CallsIn(gone)) in {None, Some(id)} && Surviving(None, CallsIn(gone)) == None
    ensures Surviving(Some(""), CallsIn(gone) + {""}) == None
  {
    CutCalls(gone, id);
  }
}
