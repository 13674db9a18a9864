/** Finding and replacing the text an edit names. Texts are sequences of characters. */
module EditMatching {
  import opened Wrappers

  // ---------------------------------------------------------------- searching

  predicate OccursAt(s: string, sub: string, i: nat) { i + |sub| <= |s| && s[i..i + |sub|] == sub }

  /** The first occurrence at or behind position i. */
  function IndexFrom(s: string, sub: string, i: nat): Option<nat>
    requires i <= |s|
    decreases |s| - i
  {
    if OccursAt(s, sub, i) then Some(i) else if i == |s| then None else IndexFrom(s, sub, i + 1)
  }

  predicate Contains(s: string, sub: string) { IndexFrom(s, sub, 0).Some? }

  lemma {:induction false} IndexFirst(s: string, sub: string, i: nat)
    requires i <= |s|
    ensures var at := IndexFrom(s, sub, i);
            && (at.Some? ==> i <= at.value && OccursAt(s, sub, at.value)
                             && forall j :: i <= j < at.value ==> !OccursAt(s, sub, j))
            && (at.None? ==> forall j :: i <= j ==> !OccursAt(s, sub, j))
    decreases |s| - i
  {
    if !OccursAt(s, sub, i) && i < |s| {
      IndexFirst(s, sub, i + 1);
    }
  }

  lemma ContainsOccurs(s: string, sub: string)
    ensures Contains(s, sub) <==> exists i :: OccursAt(s, sub, i)
  {
    IndexFirst(s, sub, 0);
  }

  // ---------------------------------------------------------------- quotes

  function PlainQuote(c: char): char {
    if '\U{201C}' <= c <= '\U{201F}' then '"' else if '\U{2018}' <= c <= '\U{201B}' then '\'' else c
  }

  function Normalized(s: string): string { seq(|s|, i requires 0 <= i < |s| => PlainQuote(s[i])) }

  method NormalizeQuotes(s: string) returns (t: string)
    ensures t == Normalized(s)
  {
    t := "";
    for i := 0 to |s|
      invariant t == Normalized(s[..i])
    {
      var c := s[i];
      match c {
        case '\U{201C}' => c := '"';
        case '\U{201D}' => c := '"';
        case '\U{201E}' => c := '"';
        case '\U{201F}' => c := '"';
        case '\U{2018}' => c := '\'';
        case '\U{2019}' => c := '\'';
        case '\U{201A}' => c := '\'';
        case '\U{201B}' => c := '\'';
        case _ =>
      }
      assert c == PlainQuote(s[i]);
      assert Normalized(s[..i + 1]) == Normalized(s[..i]) + [c];
      t := t + [c];
    }
    assert s[..|s|] == s;
  }

  /** The four curly double quotes become the plain one, the four curly single ones the plain one; no other character
      changes. */
  lemma QuotesExact(s: string, i: nat)
    requires i < |s|
    ensures |Normalized(s)| == |s|
    ensures Normalized(s)[i]
         == if s[i] in "\U{201C}\U{201D}\U{201E}\U{201F}" then '"'
            else if s[i] in "\U{2018}\U{2019}\U{201A}\U{201B}" then '\'' else s[i]
  {
  }

  lemma NormalizedOccurs(s: string, sub: string, i: nat)
    ensures OccursAt(s, sub, i) ==> OccursAt(Normalized(s), Normalized(sub), i)
    ensures OccursAt(Normalized(s), Normalized(sub), i) ==> Normalized(s[i..i + |sub|]) == Normalized(sub)
  {
    if OccursAt(s, sub, i) {
      assert Normalized(s)[i..i + |sub|] == Normalized(s[i..i + |sub|]);
    }
    if OccursAt(Normalized(s), Normalized(sub), i) {
      assert Normalized(s[i..i + |sub|]) == Normalized(s)[i..i + |sub|];
    }
  }

  // ---------------------------------------------------------------- matching

  /** The text of the file an edit is about: the named text itself, else the first place that differs from it in
      the style of its quotes only. */
  function FindEditMatch(file: string, named: string): (actual: Option<string>)
    ensures actual.Some? ==> |actual.value| == |named|
  {
    if Contains(file, named) then Some(named)
    else
      var at := IndexFrom(Normalized(file), Normalized(named), 0);
      if at.Some? && at.value + |named| <= |file| then Some(file[at.value..at.value + |named|]) else None
  }

  /** A match is found exactly if the file contains the named text up to quotes; what is found is in the file, is
      the named text up to quotes, and is the named text itself where the file has that. */
  lemma MatchExact(file: string, named: string)
    ensures FindEditMatch(file, named).Some? <==> Contains(Normalized(file), Normalized(named))
    ensures var m := FindEditMatch(file, named);
            m.Some? ==> Contains(file, m.value) && Normalized(m.value) == Normalized(named)
                        && (Contains(file, named) ==> m.value == named)
  {
    hide OccursAt, IndexFrom, Normalized;
    SameLength(file);
    SameLength(named);
    if Contains(file, named) {
      NormalizedContains(file, named);
    } else if Contains(Normalized(file), Normalized(named)) {
      FoundAlike(file, named, IndexFrom(Normalized(file), Normalized(named), 0).value);
    }
  }

  lemma SameLength(s: string)
    ensures |Normalized(s)| == |s|
  {
  }

  lemma FoundAlike(file: string, named: string, at: nat)
    requires IndexFrom(Normalized(file), Normalized(named), 0) == Some(at)
    ensures at + |named| <= |file| && Contains(file, file[at..at + |named|])
    ensures Normalized(file[at..at + |named|]) == Normalized(named)
  {
    IndexFirst(Normalized(file), Normalized(named), 0);
    assert OccursAt(Normalized(file), Normalized(named), at);
    NormalizedOccurs(file, named, at);
    var found := file[at..at + |named|];
    assert OccursAt(file, found, at);
    hide OccursAt, IndexFrom, Normalized;
    ContainsOccurs(file, found);
  }

  /** Where the file does not have the named text itself, what is found is the first place that has it up to quotes. */
  lemma MatchIsFirst(file: string, named: string)
    requires FindEditMatch(file, named).Some? && !Contains(file, named)
    ensures exists i :: FirstAlike(file, named, i) && FindEditMatch(file, named) == Some(file[i..i + |named|])
  {
    hide OccursAt;
    IndexFirst(Normalized(file), Normalized(named), 0);
    var at := IndexFrom(Normalized(file), Normalized(named), 0).value;
    forall j: nat | j < at && j + |named| <= |file|
      ensures !AlikeAt(file, named, j)
    {
      AlikeOccurs(file, named, j);
    }
    AlikeOccurs(file, named, at);
    assert FirstAlike(file, named, at);
  }

  predicate AlikeAt(file: string, named: string, i: nat)
    requires i + |named| <= |file|
  {
    Normalized(file[i..i + |named|]) == Normalized(named)
  }

  predicate FirstAlike(file: string, named: string, i: int) {
    && 0 <= i <= i + |named| <= |file| && AlikeAt(file, named, i)
    && forall j :: 0 <= j < i ==> !AlikeAt(file, named, j)
  }

  lemma AlikeOccurs(file: string, named: string, i: nat)
    requires i + |named| <= |file|
    ensures AlikeAt(file, named, i) <==> OccursAt(Normalized(file), Normalized(named), i)
  {
    assert Normalized(file[i..i + |named|]) == Normalized(file)[i..i + |named|];
  }

  lemma NormalizedContains(s: string, sub: string)
    requires Contains(s, sub)
    ensures Contains(Normalized(s), Normalized(sub))
  {
    ContainsOccurs(s, sub);
    ContainsOccurs(Normalized(s), Normalized(sub));
    var i: nat :| OccursAt(s, sub, i);
    NormalizedOccurs(s, sub, i);
    hide OccursAt, IndexFrom, Normalized;
    assert OccursAt(Normalized(s), Normalized(sub), i);
  }

  /** The third attempt, with a newline behind the named text, never finds anything the first two did not: where
      the longer text occurs, so does the shorter. */
  lemma NewlineAttemptIsIdle(file: string, named: string)
    ensures Contains(file, named + "\n") ==> Contains(file, named)
    ensures Contains(Normalized(file), Normalized(named) + "\n") ==> Contains(Normalized(file), Normalized(named))
  {
    LongerOccurs(file, named, "\n");
    LongerOccurs(Normalized(file), Normalized(named), "\n");
  }

  lemma LongerOccurs(s: string, sub: string, more: string)
    ensures Contains(s, sub + more) ==> Contains(s, sub)
  {
    ContainsOccurs(s, sub + more);
    ContainsOccurs(s, sub);
    if Contains(s, sub + more) {
      var i: nat :| OccursAt(s, sub + more, i);
      assert s[i..i + |sub + more|][..|sub|] == s[i..i + |sub|] == (sub + more)[..|sub|];
      assert OccursAt(s, sub, i);
    }
  }

  // ---------------------------------------------------------------- replacing

  /** Occurrences that do not overlap, from the left. */
  function Count(s: string, sub: string): nat
    requires sub != ""
    decreases |s|
  {
    IndexFirst(s, sub, 0);
    var at := IndexFrom(s, sub, 0);
    if at.None? then 0 else 1 + Count(s[at.value + |sub|..], sub)
  }

  /** The first n of them replaced. */
  function Replaced(s: string, sub: string, text: string, n: nat): string
    requires sub != ""
    decreases |s|
  {
    IndexFirst(s, sub, 0);
    var at := IndexFrom(s, sub, 0);
    if n == 0 || at.None? then s
    else s[..at.value] + text + Replaced(s[at.value + |sub|..], sub, text, n - 1)
  }

  /** The text cut at its first n occurrences: the pieces between them. */
  function Cut(s: string, sub: string, n: nat): (pieces: seq<string>)
    requires sub != ""
    ensures pieces != []
    decreases |s|
  {
    IndexFirst(s, sub, 0);
    var at := IndexFrom(s, sub, 0);
    if n == 0 || at.None? then [s] else [s[..at.value]] + Cut(s[at.value + |sub|..], sub, n - 1)
  }

  function Glued(pieces: seq<string>, glue: string): string
    requires pieces != []
    decreases |pieces|
  {
    if |pieces| == 1 then pieces[0] else pieces[0] + glue + Glued(pieces[1..], glue)
  }

  function Least(a: nat, b: nat): nat { if a < b then a else b }

  lemma {:induction false} CutGlued(s: string, sub: string, n: nat)
    requires sub != ""
    ensures Glued(Cut(s, sub, n), sub) == s
    decreases |s|
  {
    hide Cut, Count, Replaced, Glued, Contains;
    if n == 0 || !Contains(s, sub) {
      NothingReplaced(s, sub, sub, n);
    } else {
      var head, rest := OneReplaced(s, sub, sub, n);
      CutGlued(rest, sub, n - 1);
      GluedBehind(head, Cut(rest, sub, n - 1), sub);
    }
  }

  lemma {:induction false} CutReplaced(s: string, sub: string, text: string, n: nat)
    requires sub != ""
    ensures Glued(Cut(s, sub, n), text) == Replaced(s, sub, text, n)
    decreases |s|
  {
    hide Cut, Count, Replaced, Glued, Contains;
    if n == 0 || !Contains(s, sub) {
      NothingReplaced(s, sub, text, n);
    } else {
      var head, rest := OneReplaced(s, sub, text, n);
      CutReplaced(rest, sub, text, n - 1);
      GluedBehind(head, Cut(rest, sub, n - 1), text);
    }
  }

  lemma {:induction false} CutCounts(s: string, sub: string, n: nat)
    requires sub != ""
    ensures |Cut(s, sub, n)| == 1 + Least(n, Count(s, sub))
    decreases |s|
  {
    hide Cut, Count, Replaced, Glued, Contains;
    if n == 0 || !Contains(s, sub) {
      NothingReplaced(s, sub, sub, n);
    } else {
      var head, rest := OneReplaced(s, sub, sub, n);
      CutCounts(rest, sub, n - 1);
    }
  }

  /** Replacing takes the text apart at its occurrences and puts it together with the new text: nothing else
      changes, and as many occurrences go as are asked for and there are. */
  lemma ReplacedIsGlued(s: string, sub: string, text: string, n: nat)
    requires sub != ""
    ensures var pieces := Cut(s, sub, n);
            && Glued(pieces, sub) == s && Glued(pieces, text) == Replaced(s, sub, text, n)
            && |pieces| == 1 + Least(n, Count(s, sub))
  {
    CutGlued(s, sub, n);
    CutReplaced(s, sub, text, n);
    CutCounts(s, sub, n);
  }

  /** Texts are cut at their first occurrences: none begins inside a piece that is followed by one, and where all are
      asked for, none is left in the last piece. */
  lemma {:induction false} CutAtFirst(s: string, sub: string, n: nat)
    requires sub != ""
    ensures var pieces := Cut(s, sub, n);
            && (forall k :: 0 <= k < |pieces| - 1 ==> BeginsNowhere(pieces[k], sub))
            && (n >= |s| ==> !Contains(pieces[|pieces| - 1], sub))
    decreases |s|
  {
    hide OccursAt, IndexFrom, BeginsNowhere, Cut;
    if n == 0 || !Contains(s, sub) {
      NothingReplaced(s, sub, sub, n);
      ShortContains(s, sub);
    } else {
      var head, rest := OneReplaced(s, sub, sub, n);
      NoneBefore(s, sub, head, rest);
      CutAtFirst(rest, sub, n - 1);
      var more := Cut(rest, sub, n - 1);
      assert forall k :: 0 < k < |more| ==> ([head] + more)[k] == more[k - 1];
    }
  }

  /** In front of an occurrence behind this piece there is no other one. */
  predicate BeginsNowhere(piece: string, sub: string) {
    forall j :: 0 <= j < |piece| ==> !OccursAt(piece + sub, sub, j)
  }

  lemma ShortContains(s: string, sub: string)
    requires sub != ""
    ensures s == "" ==> !Contains(s, sub)
  {
  }

  lemma NoneBefore(s: string, sub: string, head: string, rest: string)
    requires s == head + sub + rest && forall j :: 0 <= j < |head| ==> !OccursAt(s, sub, j)
    ensures BeginsNowhere(head, sub)
  {
    forall j | 0 <= j < |head|
      ensures !OccursAt(head + sub, sub, j)
    {
      assert (head + sub)[j..j + |sub|] == s[j..j + |sub|];
      assert !OccursAt(s, sub, j);
    }
  }

  lemma NothingReplaced(s: string, sub: string, text: string, n: nat)
    requires sub != "" && (n == 0 || !Contains(s, sub))
    ensures Cut(s, sub, n) == [s] && Replaced(s, sub, text, n) == s && Least(n, Count(s, sub)) == 0
    ensures Glued([s], text) == Glued([s], sub) == s
  {
    hide OccursAt, IndexFrom;
  }

  lemma OneReplaced(s: string, sub: string, text: string, n: nat) returns (head: string, rest: string)
    requires sub != "" && n > 0 && Contains(s, sub)
    ensures s == head + sub + rest && |rest| < |s| && forall j :: 0 <= j < |head| ==> !OccursAt(s, sub, j)
    ensures Cut(s, sub, n) == [head] + Cut(rest, sub, n - 1) && Count(s, sub) == 1 + Count(rest, sub)
    ensures Replaced(s, sub, text, n) == head + text + Replaced(rest, sub, text, n - 1)
  {
    IndexFirst(s, sub, 0);
    var at := IndexFrom(s, sub, 0).value;
    assert OccursAt(s, sub, at);
    head, rest := s[..at], s[at + |sub|..];
    assert s == head + sub + rest;
    hide OccursAt, IndexFrom;
  }

  lemma GluedBehind(head: string, pieces: seq<string>, glue: string)
    requires pieces != []
    ensures Glued([head] + pieces, glue) == head + glue + Glued(pieces, glue)
  {
    assert ([head] + pieces)[1..] == pieces;
  }
}
