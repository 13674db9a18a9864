/** The line diff that Edit and Write report: a two-row LCS, a backtrack over the last two rows,
    and hunks whose text is a patch. */
module LineDiff {
  import opened Wrappers
  import opened Text

  type Line = string

  datatype Hunk = Hunk(oldStart: nat, oldLines: nat, newStart: nat, newLines: nat, content: string)

  // ---------------------------------------------------------------- common subsequences

  /** `s` can be read off `t` from left to right, skipping lines of `t`. */
  predicate IsSubseq(s: seq<Line>, t: seq<Line>) {
    s == [] || (t != [] && if s[0] == t[0] then IsSubseq(s[1..], t[1..]) else IsSubseq(s, t[1..]))
  }

  lemma {:induction false} SubseqSkip(s: seq<Line>, t: seq<Line>, x: Line)
    requires IsSubseq(s, t)
    ensures IsSubseq(s, t + [x])
    decreases |t|
  {
    if s != [] {
      assert (t + [x])[1..] == t[1..] + [x];
      if s[0] == t[0] {
        SubseqSkip(s[1..], t[1..], x);
      } else {
        SubseqSkip(s, t[1..], x);
      }
    }
  }

  lemma {:induction false} SubseqTake(s: seq<Line>, t: seq<Line>, x: Line)
    requires IsSubseq(s, t)
    ensures IsSubseq(s + [x], t + [x])
    decreases |t|
  {
    if s == [] {
      if t != [] {
        SubseqTake([], t[1..], x);
        assert (t + [x])[1..] == t[1..] + [x];
        if t[0] == x {
          assert (s + [x])[1..] == [];
        } else {
          assert s + [x] == [] + [x];
        }
      }
    } else {
      assert (t + [x])[1..] == t[1..] + [x] && (s + [x])[1..] == s[1..] + [x];
      if s[0] == t[0] {
        SubseqTake(s[1..], t[1..], x);
      } else {
        SubseqTake(s, t[1..], x);
      }
    }
  }

  lemma {:induction false} SubseqSnoc(s: seq<Line>, t: seq<Line>, x: Line)
    requires IsSubseq(s, t + [x])
    ensures IsSubseq(s, t) || (s != [] && s[|s| - 1] == x && IsSubseq(s[..|s| - 1], t))
    decreases |t|
  {
    if s != [] && t != [] {
      assert (t + [x])[1..] == t[1..] + [x];
      if s[0] == t[0] {
        SubseqSnoc(s[1..], t[1..], x);
        if |s| > 1 {
          assert s[1..][..|s| - 2] == s[..|s| - 1][1..];
        }
      } else {
        SubseqSnoc(s, t[1..], x);
      }
    } else if s != [] {
      SubseqLength(s, t + [x]);
    }
  }

  lemma {:induction false} SubseqLength(s: seq<Line>, t: seq<Line>)
    requires IsSubseq(s, t)
    ensures |s| <= |t|
    ensures |s| == |t| ==> s == t
    decreases |t|
  {
    if s != [] {
      if s[0] == t[0] {
        SubseqLength(s[1..], t[1..]);
      } else {
        SubseqLength(s, t[1..]);
      }
    }
  }

  /** What is left of `s` from position li after line k of `t` has been passed. */
  lemma SubseqPass(s: seq<Line>, li: nat, t: seq<Line>, k: nat)
    requires li <= |s| && k < |t| && IsSubseq(s[li..], t[k..])
    ensures li < |s| && s[li] == t[k] ==> IsSubseq(s[li + 1..], t[k + 1..])
    ensures li >= |s| || s[li] != t[k] ==> IsSubseq(s[li..], t[k + 1..])
  {
    assert t[k..][1..] == t[k + 1..];
    if li < |s| {
      assert s[li..][1..] == s[li + 1..];
    }
  }

  lemma SubseqDone(s: seq<Line>, li: nat, t: seq<Line>)
    requires li <= |s| && IsSubseq(s[li..], t[|t|..])
    ensures li == |s|
  {
  }

  ghost predicate CommonSubseq(s: seq<Line>, a: seq<Line>, b: seq<Line>) {
    IsSubseq(s, a) && IsSubseq(s, b)
  }

  // ---------------------------------------------------------------- LCS lengths

  /** Length of a longest common subsequence of the first i lines of a and the first j of b. */
  function LcsLen(a: seq<Line>, b: seq<Line>, i: nat, j: nat): nat
    requires i <= |a| && j <= |b|
    decreases i + j
  {
    if i == 0 || j == 0 then 0
    else if a[i - 1] == b[j - 1] then LcsLen(a, b, i - 1, j - 1) + 1
    else if LcsLen(a, b, i - 1, j) > LcsLen(a, b, i, j - 1) then LcsLen(a, b, i - 1, j)
    else LcsLen(a, b, i, j - 1)
  }

  lemma {:induction false} LcsLenSteps(a: seq<Line>, b: seq<Line>, i: nat, j: nat)
    requires i <= |a| && j <= |b|
    ensures 0 < i ==> LcsLen(a, b, i - 1, j) <= LcsLen(a, b, i, j) <= LcsLen(a, b, i - 1, j) + 1
    ensures 0 < j ==> LcsLen(a, b, i, j - 1) <= LcsLen(a, b, i, j) <= LcsLen(a, b, i, j - 1) + 1
    decreases i + j
  {
    if 0 < i && 0 < j {
      LcsLenSteps(a, b, i - 1, j);
      LcsLenSteps(a, b, i, j - 1);
      LcsLenSteps(a, b, i - 1, j - 1);
    }
  }

  /** No common subsequence is longer than the table says. */
  lemma {:induction false} LcsLenUpper(a: seq<Line>, b: seq<Line>, i: nat, j: nat, s: seq<Line>)
    requires i <= |a| && j <= |b|
    requires CommonSubseq(s, a[..i], b[..j])
    ensures |s| <= LcsLen(a, b, i, j)
    decreases i + j
  {
    if i == 0 || j == 0 {
      SubseqLength(s, a[..i]);
      SubseqLength(s, b[..j]);
    } else {
      LcsLenSteps(a, b, i, j);
      assert a[..i] == a[..i - 1] + [a[i - 1]] && b[..j] == b[..j - 1] + [b[j - 1]];
      SubseqSnoc(s, a[..i - 1], a[i - 1]);
      SubseqSnoc(s, b[..j - 1], b[j - 1]);
      if IsSubseq(s, a[..i - 1]) {
        LcsLenUpper(a, b, i - 1, j, s);
      } else if IsSubseq(s, b[..j - 1]) {
        LcsLenUpper(a, b, i, j - 1, s);
      } else {
        LcsLenUpper(a, b, i - 1, j - 1, s[..|s| - 1]);
      }
    }
  }

  /** And one of that length exists. */
  lemma {:induction false} LcsLenReached(a: seq<Line>, b: seq<Line>, i: nat, j: nat) returns (s: seq<Line>)
    requires i <= |a| && j <= |b|
    ensures CommonSubseq(s, a[..i], b[..j]) && |s| == LcsLen(a, b, i, j)
    decreases i + j
  {
    if i == 0 || j == 0 {
      s := [];
    } else {
      assert a[..i] == a[..i - 1] + [a[i - 1]] && b[..j] == b[..j - 1] + [b[j - 1]];
      if a[i - 1] == b[j - 1] {
        s := LcsLenReached(a, b, i - 1, j - 1);
        SubseqTake(s, a[..i - 1], a[i - 1]);
        SubseqTake(s, b[..j - 1], b[j - 1]);
        s := s + [a[i - 1]];
      } else if LcsLen(a, b, i - 1, j) > LcsLen(a, b, i, j - 1) {
        s := LcsLenReached(a, b, i - 1, j);
        SubseqSkip(s, a[..i - 1], a[i - 1]);
      } else {
        s := LcsLenReached(a, b, i, j - 1);
        SubseqSkip(s, b[..j - 1], b[j - 1]);
      }
    }
  }

  // ---------------------------------------------------------------- the backtrack

  /** The direction test of the backtrack at column j. It compares the last two rows of the table
      whatever row the walk has climbed to. */
  predicate GoesLeft(a: seq<Line>, b: seq<Line>, j: nat)
    requires 0 < |a| && 0 < j <= |b|
  {
    LcsLen(a, b, |a|, j - 1) >= LcsLen(a, b, |a| - 1, j)
  }

  /** What the backtrack collects from cell (i, j). */
  function Walk(a: seq<Line>, b: seq<Line>, i: nat, j: nat): seq<Line>
    requires i <= |a| && j <= |b|
    decreases i + j
  {
    if i == 0 || j == 0 then []
    else if a[i - 1] == b[j - 1] then Walk(a, b, i - 1, j - 1) + [a[i - 1]]
    else if GoesLeft(a, b, j) then Walk(a, b, i, j - 1)
    else Walk(a, b, i - 1, j)
  }

  /** The steps of the walk that leave a cell for one with a shorter longest common subsequence. */
  function LosingSteps(a: seq<Line>, b: seq<Line>, i: nat, j: nat): nat
    requires i <= |a| && j <= |b|
    decreases i + j
  {
    if i == 0 || j == 0 then 0
    else if a[i - 1] == b[j - 1] then LosingSteps(a, b, i - 1, j - 1)
    else if GoesLeft(a, b, j) then
      LosingSteps(a, b, i, j - 1) + (if LcsLen(a, b, i, j - 1) < LcsLen(a, b, i, j) then 1 else 0)
    else
      LosingSteps(a, b, i - 1, j) + (if LcsLen(a, b, i - 1, j) < LcsLen(a, b, i, j) then 1 else 0)
  }

  lemma {:induction false} WalkIsCommon(a: seq<Line>, b: seq<Line>, i: nat, j: nat)
    requires i <= |a| && j <= |b|
    ensures CommonSubseq(Walk(a, b, i, j), a[..i], b[..j])
    decreases i + j
  {
    if 0 < i && 0 < j {
      assert a[..i] == a[..i - 1] + [a[i - 1]] && b[..j] == b[..j - 1] + [b[j - 1]];
      if a[i - 1] == b[j - 1] {
        WalkIsCommon(a, b, i - 1, j - 1);
        SubseqTake(Walk(a, b, i - 1, j - 1), a[..i - 1], a[i - 1]);
        SubseqTake(Walk(a, b, i - 1, j - 1), b[..j - 1], b[j - 1]);
      } else if GoesLeft(a, b, j) {
        WalkIsCommon(a, b, i, j - 1);
        SubseqSkip(Walk(a, b, i, j - 1), b[..j - 1], b[j - 1]);
      } else {
        WalkIsCommon(a, b, i - 1, j);
        SubseqSkip(Walk(a, b, i - 1, j), a[..i - 1], a[i - 1]);
      }
    }
  }

  /** The walk falls short of a longest common subsequence by exactly its losing steps, so it finds
      one if and only if it makes none. */
  lemma {:induction false} WalkShortfall(a: seq<Line>, b: seq<Line>, i: nat, j: nat)
    requires i <= |a| && j <= |b|
    ensures |Walk(a, b, i, j)| + LosingSteps(a, b, i, j) == LcsLen(a, b, i, j)
    decreases i + j
  {
    if 0 < i && 0 < j {
      LcsLenSteps(a, b, i, j);
      if a[i - 1] == b[j - 1] {
        WalkShortfall(a, b, i - 1, j - 1);
      } else if GoesLeft(a, b, j) {
        WalkShortfall(a, b, i, j - 1);
      } else {
        WalkShortfall(a, b, i - 1, j);
      }
    }
  }

  /** Losing steps do occur: of xyz and zxz the walk finds z where xz is common. */
  lemma WalkCanFallShort()
    ensures var a := ["x", "y", "z"]; var b := ["z", "x", "z"];
            Walk(a, b, 3, 3) == ["z"] && LcsLen(a, b, 3, 3) == 2
  {
    var a := ["x", "y", "z"];
    var b := ["z", "x", "z"];
    assert LcsLen(a, b, 1, 1) == 0 && LcsLen(a, b, 1, 2) == 1 && LcsLen(a, b, 2, 1) == 0;
    assert LcsLen(a, b, 2, 2) == 1 && LcsLen(a, b, 3, 1) == 1 && LcsLen(a, b, 3, 2) == 1;
    assert Walk(a, b, 1, 1) == [] && Walk(a, b, 2, 1) == [] && Walk(a, b, 2, 2) == [];
  }

  /** While what is left of the new text can be read off what is left of the old one, the walk takes all of it: it
      never goes left there. */
  lemma {:induction false} WalkTakesAll(a: seq<Line>, b: seq<Line>, i: nat, j: nat)
    requires i <= |a| && j <= |b| && IsSubseq(b[..j], a[..i]) && IsSubseq(b, a)
    ensures Walk(a, b, i, j) == b[..j]
    decreases i + j
  {
    if i == 0 {
      SubseqLength(b[..j], a[..0]);
    } else if j > 0 {
      hide IsSubseq, LcsLen;
      assert a[..i] == a[..i - 1] + [a[i - 1]] && b[..j] == b[..j - 1] + [b[j - 1]];
      SubseqSnoc(b[..j], a[..i - 1], a[i - 1]);
      if a[i - 1] == b[j - 1] {
        TakenBefore(b[..j - 1], b[j - 1], a[..i - 1]);
        WalkTakesAll(a, b, i - 1, j - 1);
      } else {
        WalkTakesAll(a, b, i - 1, j);
        StaysUp(a, b, i - 1, j);
      }
    }
  }

  lemma TakenBefore(s: seq<Line>, x: Line, t: seq<Line>)
    requires IsSubseq(s + [x], t + [x])
    ensures IsSubseq(s, t)
  {
    hide IsSubseq;
    SubseqSnoc(s + [x], t, x);
    assert (s + [x])[..|s|] == s;
    if IsSubseq(s + [x], t) {
      SubseqTrans(s, x, t);
    }
  }

  lemma {:induction false} SubseqTrans(s: seq<Line>, x: Line, t: seq<Line>)
    requires IsSubseq(s + [x], t)
    ensures IsSubseq(s, t)
    decreases |t|
  {
    if s != [] {
      assert (s + [x])[1..] == s[1..] + [x];
      if s[0] == t[0] {
        SubseqTrans(s[1..], x, t[1..]);
      } else {
        SubseqTrans(s, x, t[1..]);
      }
    }
  }

  lemma {:induction false} SubseqWider(s: seq<Line>, t: seq<Line>, more: seq<Line>)
    requires IsSubseq(s, t)
    ensures IsSubseq(s, t + more)
    decreases |more|
  {
    if more == [] {
      assert t + more == t;
    } else {
      SubseqSkip(s, t, more[0]);
      SubseqWider(s, t + [more[0]], more[1..]);
      assert t + [more[0]] + more[1..] == t + more;
    }
  }

  lemma {:induction false} SubseqSelf(s: seq<Line>)
    ensures IsSubseq(s, s)
  {
    if s != [] {
      SubseqSelf(s[1..]);
    }
  }

  lemma StaysUp(a: seq<Line>, b: seq<Line>, i: nat, j: nat)
    requires i < |a| && 0 < j <= |b| && IsSubseq(b[..j], a[..i])
    ensures !GoesLeft(a, b, j)
  {
    hide IsSubseq, LcsLen;
    SubseqSelf(b[..j]);
    SubseqWider(b[..j], a[..i], a[i..|a| - 1]);
    assert a[..i] + a[i..|a| - 1] == a[..|a| - 1];
    LcsLenUpper(a, b, |a| - 1, j, b[..j]);
    var s := LcsLenReached(a, b, |a|, j - 1);
    SubseqLength(s, b[..j - 1]);
  }

  /** The walk finds the whole new text exactly if that is what is left of the old one: pure deletions are shown as
      such, and nothing else is shown as a deletion. */
  lemma WalkOfDeletion(a: seq<Line>, b: seq<Line>)
    ensures |Walk(a, b, |a|, |b|)| == |b| <==> IsSubseq(b, a)
  {
    hide IsSubseq, Walk;
    assert a[..|a|] == a && b[..|b|] == b;
    WalkIsCommon(a, b, |a|, |b|);
    SubseqLength(Walk(a, b, |a|, |b|), b);
    if IsSubseq(b, a) {
      WalkTakesAll(a, b, |a|, |b|);
    }
  }

  /** How many lines of the old text are still to be found once the new text has been read from its end down to
      line j, each line taken as the last one still to be found where it can be. */
  function LeftOver(a: seq<Line>, b: seq<Line>, j: nat): (r: nat)
    requires j <= |b|
    ensures r <= |a|
    decreases |b| - j
  {
    if j == |b| then |a|
    else
      var r := LeftOver(a, b, j + 1);
      if r > 0 && a[r - 1] == b[j] then r - 1 else r
  }

  /** Line j of the new text is an inserted one, in front of which some of the old text is still to come. */
  predicate InsertedAt(a: seq<Line>, b: seq<Line>, j: nat)
    requires j < |b|
  {
    var r := LeftOver(a, b, j + 1);
    r > 0 && a[r - 1] != b[j]
  }

  /** At each inserted line, the new text in front of it has no less in common with the old text than the new text up
      to that line has with the old text less its last line. */
  predicate KeepsLeft(a: seq<Line>, b: seq<Line>, n: nat)
    requires n <= |b|
  {
    forall j :: 0 <= j < n && InsertedAt(a, b, j) ==> LcsLen(a, b, |a|, j) >= LcsLen(a, b, |a| - 1, j + 1)
  }

  lemma {:induction false} WalkFollows(a: seq<Line>, b: seq<Line>, j: nat)
    requires j <= |b| && IsSubseq(a[..LeftOver(a, b, j)], b[..j])
    ensures var i := LeftOver(a, b, j); |Walk(a, b, i, j)| == i <==> KeepsLeft(a, b, j)
    decreases j
  {
    hide IsSubseq, LcsLen, KeepsLeft;
    var i := LeftOver(a, b, j);
    KeepsLeftSnoc(a, b, j);
    if j == 0 {
      SubseqLength(a[..i], b[..0]);
    } else {
      assert b[..j] == b[..j - 1] + [b[j - 1]];
      if i == 0 {
        NothingLeft(b[..j - 1], a[..0]);
        WalkFollows(a, b, j - 1);
      } else {
        assert a[..i] == a[..i - 1] + [a[i - 1]];
        SubseqSnoc(a[..i], b[..j - 1], b[j - 1]);
        if a[i - 1] == b[j - 1] {
          TakenBefore(a[..i - 1], b[j - 1], b[..j - 1]);
          WalkFollows(a, b, j - 1);
        } else {
          WalkFollows(a, b, j - 1);
          WalkIsCommon(a, b, i - 1, j);
          SubseqLength(Walk(a, b, i - 1, j), a[..i - 1]);
        }
      }
    }
  }

  lemma KeepsLeftSnoc(a: seq<Line>, b: seq<Line>, j: nat)
    requires j <= |b|
    ensures j == 0 ==> KeepsLeft(a, b, j)
    ensures j > 0 ==>
              (KeepsLeft(a, b, j) <==> KeepsLeft(a, b, j - 1) && (InsertedAt(a, b, j - 1) ==> GoesLeft(a, b, j)))
  {
    hide LcsLen, LeftOver;
  }

  lemma NothingLeft(t: seq<Line>, s: seq<Line>)
    requires s == []
    ensures IsSubseq(s, t)
  {
  }

  /** Where lines were only inserted, the walk finds the whole old text, and so a longest common subsequence, exactly
      if it goes left at each of them. */
  lemma WalkOfInsertion(a: seq<Line>, b: seq<Line>)
    requires IsSubseq(a, b)
    ensures LcsLen(a, b, |a|, |b|) == |a|
    ensures |Walk(a, b, |a|, |b|)| == LcsLen(a, b, |a|, |b|) <==> KeepsLeft(a, b, |b|)
  {
    hide IsSubseq, Walk, LcsLen, KeepsLeft;
    assert a[..|a|] == a && b[..|b|] == b;
    WalkFollows(a, b, |b|);
    SubseqSelf(a);
    LcsLenUpper(a, b, |a|, |b|, a);
    var s := LcsLenReached(a, b, |a|, |b|);
    SubseqLength(s, a);
  }

  /** An insertion that the walk gets wrong: one more y in xyx, and of xyx it finds two lines only. */
  lemma InsertionCanFallShort()
    ensures var a, b := ["x", "y", "x"], ["x", "y", "y", "x"];
            IsSubseq(a, b) && |Walk(a, b, 3, 4)| == 2 && LcsLen(a, b, 3, 4) == 3
  {
    var a, b := ["x", "y", "x"], ["x", "y", "y", "x"];
    assert LcsLen(a, b, 1, 1) == 1;
  }

  // ---------------------------------------------------------------- lines that both texts have

  /** The lines of `a` that `b` has, too, as they stand in `a`. */
  function Shared(a: seq<Line>, b: seq<Line>): seq<Line> {
    if a == [] then []
    else Shared(a[..|a| - 1], b) + if a[|a| - 1] in b then [a[|a| - 1]] else []
  }

  lemma {:induction false} SharedWithin(a: seq<Line>, b: seq<Line>)
    ensures IsSubseq(Shared(a, b), a)
    ensures forall l :: l in Shared(a, b) <==> l in a && l in b
  {
    if a != [] {
      hide IsSubseq;
      var init, last := a[..|a| - 1], a[|a| - 1];
      SharedWithin(init, b);
      assert a == init + [last];
      if last in b {
        SubseqTake(Shared(init, b), init, last);
      } else {
        SubseqSkip(Shared(init, b), init, last);
        assert Shared(init, b) + [] == Shared(init, b);
      }
    } else {
      NothingLeft(a, Shared(a, b));
    }
  }

  /** What can be read off `a` and has only lines of `b` can be read off the shared lines. */
  lemma {:induction false} SubseqShared(s: seq<Line>, a: seq<Line>, b: seq<Line>)
    requires IsSubseq(s, a) && forall l :: l in s ==> l in b
    ensures IsSubseq(s, Shared(a, b))
    decreases |a|
  {
    hide IsSubseq;
    if a == [] {
      SubseqLength(s, a);
      NothingLeft(Shared(a, b), s);
    } else {
      var init, last := a[..|a| - 1], a[|a| - 1];
      assert a == init + [last];
      SubseqSnoc(s, init, last);
      if IsSubseq(s, init) {
        SubseqShared(s, init, b);
        if last in b {
          SubseqSkip(s, Shared(init, b), last);
        } else {
          assert Shared(init, b) + [] == Shared(init, b);
        }
      } else {
        var front := s[..|s| - 1];
        assert s == front + [last] && last in s;
        SubseqShared(front, init, b);
        SubseqTake(front, Shared(init, b), last);
      }
    }
  }

  lemma {:induction false} UnsharedLine(a: seq<Line>, b: seq<Line>, i: nat, j: nat)
    requires i <= |a| && 0 < j <= |b| && b[j - 1] !in a
    ensures LcsLen(a, b, i, j) == LcsLen(a, b, i, j - 1)
    decreases i
  {
    LcsLenSteps(a, b, i, j);
    if i > 0 {
      LcsLenSteps(a, b, i, j - 1);
      UnsharedLine(a, b, i - 1, j);
    }
  }

  /** At a line that the old text does not have the walk goes left. */
  lemma UnsharedTurn(a: seq<Line>, b: seq<Line>, j: nat)
    requires 0 < |a| && 0 < j <= |b| && b[j - 1] !in a
    ensures GoesLeft(a, b, j)
  {
    hide LcsLen;
    UnsharedLine(a, b, |a| - 1, j);
    LcsLenSteps(a, b, |a|, j - 1);
  }

  /** At one that it has, but in front of line i, the walk goes up. */
  lemma SharedTurn(a: seq<Line>, b: seq<Line>, i: nat, j: nat)
    requires 0 < i <= |a| && 0 < j <= |b| && b[j - 1] in a && Shared(a[..i - 1], b) == Shared(b[..j], a)
    ensures !GoesLeft(a, b, j)
  {
    hide IsSubseq, LcsLen, Shared;
    SharedSnoc(b, a, j);
    SharedAbove(a, b, i, j);
    SharedBelow(a, b, j);
  }

  lemma SharedAbove(a: seq<Line>, b: seq<Line>, i: nat, j: nat)
    requires 0 < i <= |a| && j <= |b| && Shared(a[..i - 1], b) == Shared(b[..j], a)
    ensures LcsLen(a, b, |a| - 1, j) >= |Shared(b[..j], a)|
  {
    hide IsSubseq, LcsLen, Shared;
    var n, s := |a|, Shared(b[..j], a);
    SharedWithin(a[..i - 1], b);
    SharedWithin(b[..j], a);
    assert a[..n - 1] == a[..i - 1] + a[i - 1..n - 1];
    SubseqWider(s, a[..i - 1], a[i - 1..n - 1]);
    LcsLenUpper(a, b, n - 1, j, s);
  }

  lemma SharedBelow(a: seq<Line>, b: seq<Line>, j: nat)
    requires 0 < j <= |b|
    ensures LcsLen(a, b, |a|, j - 1) <= |Shared(b[..j - 1], a)|
  {
    hide IsSubseq, LcsLen, Shared;
    var t := LcsLenReached(a, b, |a|, j - 1);
    assert a[..|a|] == a;
    SubseqLines(t, a);
    SubseqShared(t, b[..j - 1], a);
    SubseqLength(t, Shared(b[..j - 1], a));
  }

  lemma {:induction false} SubseqLines(s: seq<Line>, t: seq<Line>)
    requires IsSubseq(s, t)
    ensures forall l :: l in s ==> l in t
    decreases |t|
  {
    if s != [] {
      assert t == [t[0]] + t[1..] && s == [s[0]] + s[1..];
      SubseqLines(if s[0] == t[0] then s[1..] else s, t[1..]);
    }
  }

  lemma SharedSnoc(a: seq<Line>, b: seq<Line>, i: nat)
    requires 0 < i <= |a|
    ensures Shared(a[..i], b) == Shared(a[..i - 1], b) + if a[i - 1] in b then [a[i - 1]] else []
  {
    assert a[..i][..i - 1] == a[..i - 1];
  }

  lemma {:induction false} WalkShares(a: seq<Line>, b: seq<Line>, i: nat, j: nat)
    requires i <= |a| && j <= |b| && Shared(a[..i], b) == Shared(b[..j], a)
    ensures Walk(a, b, i, j) == Shared(a[..i], b)
    decreases i + j
  {
    hide Shared, LcsLen, GoesLeft;
    NothingShared(a, b);
    assert a[..0] == [] && b[..0] == [];
    if i > 0 && j > 0 {
      SharedSnoc(a, b, i);
      SharedSnoc(b, a, j);
      var x, y := Shared(a[..i - 1], b), Shared(b[..j - 1], a);
      LastLines(x, a[i - 1], y, b[j - 1]);
      assert x + [] == x && y + [] == y;
      if a[i - 1] == b[j - 1] {
        WalkShares(a, b, i - 1, j - 1);
      } else if b[j - 1] !in a {
        UnsharedTurn(a, b, j);
        WalkShares(a, b, i, j - 1);
      } else {
        SharedTurn(a, b, i, j);
        WalkShares(a, b, i - 1, j);
      }
    }
  }

  lemma LastLines(x: seq<Line>, u: Line, y: seq<Line>, v: Line)
    ensures x + [u] == y + [v] ==> x == y && u == v
  {
    if x + [u] == y + [v] {
      assert |x| == |y| && (x + [u])[..|x|] == x && (y + [v])[..|y|] == y;
      assert (x + [u])[|x|] == u && (y + [v])[|y|] == v;
    }
  }

  lemma NothingShared(a: seq<Line>, b: seq<Line>)
    ensures Shared([], b) == [] && Shared([], a) == []
  {
  }

  /** Whatever is deleted and inserted: the walk keeps every line that both texts have exactly if these lines stand in
      the same order, equally often, in both; it is then a longest common subsequence. */
  lemma WalkOfChange(a: seq<Line>, b: seq<Line>)
    ensures Shared(a, b) == Shared(b, a) <==>
            |Shared(a, b)| == |Walk(a, b, |a|, |b|)| == |Shared(b, a)|
    ensures Shared(a, b) == Shared(b, a) ==>
              Walk(a, b, |a|, |b|) == Shared(a, b) && |Shared(a, b)| == LcsLen(a, b, |a|, |b|)
  {
    hide IsSubseq, Walk, LcsLen, Shared;
    assert a[..|a|] == a && b[..|b|] == b;
    var walk := Walk(a, b, |a|, |b|);
    WalkIsCommon(a, b, |a|, |b|);
    SharedOfCommon(walk, a, b);
    if Shared(a, b) == Shared(b, a) {
      WalkShares(a, b, |a|, |b|);
      LcsLenUpper(a, b, |a|, |b|, walk);
      var s := LcsLenReached(a, b, |a|, |b|);
      SharedOfCommon(s, a, b);
    }
  }

  /** No common subsequence has more than the shared lines. */
  lemma SharedOfCommon(s: seq<Line>, a: seq<Line>, b: seq<Line>)
    requires CommonSubseq(s, a, b)
    ensures |s| <= |Shared(a, b)| && (|s| == |Shared(a, b)| ==> s == Shared(a, b))
    ensures |s| <= |Shared(b, a)| && (|s| == |Shared(b, a)| ==> s == Shared(b, a))
  {
    hide IsSubseq, Shared;
    SubseqLines(s, a);
    SubseqLines(s, b);
    SubseqShared(s, a, b);
    SubseqShared(s, b, a);
    SubseqLength(s, Shared(a, b));
    SubseqLength(s, Shared(b, a));
  }

  lemma {:induction false} WalkOfEqual(a: seq<Line>, i: nat)
    requires i <= |a|
    ensures Walk(a, a, i, i) == a[..i]
  {
    if 0 < i {
      WalkOfEqual(a, i - 1);
    }
  }

  /** Row i of the table, computed into `curr` from row i - 1 in `prev`. */
  method FillRow(a: seq<Line>, b: seq<Line>, i: nat, prev: array<int>, curr: array<int>)
    requires 0 < i <= |a| && prev != curr && prev.Length == curr.Length == |b| + 1
    requires curr[0] == 0
    requires forall j :: 0 <= j <= |b| ==> prev[j] == LcsLen(a, b, i - 1, j)
    modifies curr
    ensures forall j :: 0 <= j <= |b| ==> curr[j] == LcsLen(a, b, i, j)
  {
    for j := 1 to |b| + 1
      invariant forall k :: 0 <= k < j ==> curr[k] == LcsLen(a, b, i, k)
    {
      if a[i - 1] == b[j - 1] {
        curr[j] := prev[j - 1] + 1;
      } else if prev[j] > curr[j - 1] {
        curr[j] := prev[j];
      } else {
        curr[j] := curr[j - 1];
      }
    }
  }

  /** The two-row table pass: on return `prev` is the last row and `curr` the row before it. */
  method LcsRows(a: seq<Line>, b: seq<Line>) returns (prev: array<int>, curr: array<int>)
    requires a != [] && b != []
    ensures fresh(prev) && fresh(curr) && prev.Length == curr.Length == |b| + 1
    ensures forall j :: 0 <= j <= |b| ==> prev[j] == LcsLen(a, b, |a|, j)
    ensures forall j :: 0 <= j <= |b| ==> curr[j] == LcsLen(a, b, |a| - 1, j)
  {
    prev := new int[|b| + 1](_ => 0);
    curr := new int[|b| + 1](_ => 0);
    FillRow(a, b, 1, prev, curr);
    prev, curr := curr, prev;
    for i := 2 to |a| + 1
      invariant fresh(prev) && fresh(curr) && prev != curr && prev.Length == curr.Length == |b| + 1
      invariant forall j :: 0 <= j <= |b| ==> prev[j] == LcsLen(a, b, i - 1, j)
      invariant forall j :: 0 <= j <= |b| ==> curr[j] == LcsLen(a, b, i - 2, j)
    {
      FillRow(a, b, i, prev, curr);
      prev, curr := curr, prev;
    }
  }

  method ComputeLcs(a: seq<Line>, b: seq<Line>) returns (lcs: seq<Line>)
    ensures lcs == Walk(a, b, |a|, |b|)
  {
    if a == [] || b == [] {
      return [];
    }
    var prev, curr := LcsRows(a, b);
    lcs := [];
    var i, j := |a|, |b|;
    while i > 0 && j > 0
      invariant 0 <= i <= |a| && 0 <= j <= |b|
      invariant Walk(a, b, |a|, |b|) == Walk(a, b, i, j) + lcs
      decreases i + j
    {
      if a[i - 1] == b[j - 1] {
        lcs := [a[i - 1]] + lcs;
        i, j := i - 1, j - 1;
      } else if prev[j - 1] >= curr[j] {
        j := j - 1;
      } else {
        i := i - 1;
      }
    }
  }

  // ---------------------------------------------------------------- hunks as patches

  /** The lines of a hunk's text that carry the given mark, without it. */
  function Marked(lines: seq<string>, mark: char): seq<Line> {
    if lines == [] then []
    else (if lines[0] != "" && lines[0][0] == mark then [lines[0][1..]] else []) + Marked(lines[1..], mark)
  }

  function Removed(h: Hunk): seq<Line> { Marked(Split(h.content, '\n'), '-') }

  function Added(h: Hunk): seq<Line> { Marked(Split(h.content, '\n'), '+') }

  /** Applies hunks in order: `at` lines of the input are consumed and `out` lines of output exist. A
      hunk must name its own place in both files and remove the very lines that stand there. */
  function PatchFrom(lines: seq<Line>, at: nat, out: nat, hunks: seq<Hunk>): (r: Option<seq<Line>>)
    requires at <= |lines|
    decreases |hunks|
  {
    if hunks == [] then Some(lines[at..])
    else
      var h := hunks[0];
      var lo := h.oldStart - 1;
      var hi := lo + h.oldLines;
      if at <= lo && hi <= |lines| && lines[lo..hi] == Removed(h) &&
         h.newStart - 1 == out + (lo - at) && h.newLines == |Added(h)|
      then
        match PatchFrom(lines, hi, h.newStart - 1 + h.newLines, hunks[1..])
        case None => None
        case Some(rest) => Some(lines[at..lo] + Added(h) + rest)
      else None
  }

  function Patch(lines: seq<Line>, hunks: seq<Hunk>): Option<seq<Line>> {
    PatchFrom(lines, 0, 0, hunks)
  }

  function SwapMark(line: string): string {
    if line == "" then line
    else if line[0] == '-' then ['+'] + line[1..]
    else if line[0] == '+' then ['-'] + line[1..]
    else line
  }

  function SwapMarks(lines: seq<string>): (r: seq<string>)
    ensures |r| == |lines|
  {
    if lines == [] then [] else [SwapMark(lines[0])] + SwapMarks(lines[1..])
  }

  /** The reverse hunk: old and new places exchanged, `-` and `+` exchanged. */
  function Invert(h: Hunk): Hunk {
    Hunk(h.newStart, h.newLines, h.oldStart, h.oldLines, Join(SwapMarks(Split(h.content, '\n')), '\n'))
  }

  function InvertAll(hunks: seq<Hunk>): seq<Hunk> {
    if hunks == [] then [] else InvertAll(hunks[..|hunks| - 1]) + [Invert(hunks[|hunks| - 1])]
  }

  lemma {:induction false} SwapMarksMarked(lines: seq<string>)
    ensures Marked(SwapMarks(lines), '-') == Marked(lines, '+')
    ensures Marked(SwapMarks(lines), '+') == Marked(lines, '-')
  {
    if lines != [] {
      SwapMarksMarked(lines[1..]);
      assert SwapMarks(lines)[1..] == SwapMarks(lines[1..]);
    }
  }

  lemma {:induction false} SwapMarksFree(lines: seq<string>)
    requires forall l :: l in lines ==> '\n' !in l
    ensures forall l :: l in SwapMarks(lines) ==> '\n' !in l
  {
    if lines != [] {
      SwapMarksFree(lines[1..]);
      assert lines[0] in lines;
    }
  }

  lemma InvertSides(h: Hunk)
    ensures Removed(Invert(h)) == Added(h) && Added(Invert(h)) == Removed(h)
  {
    var lines := Split(h.content, '\n');
    SplitPartsFree(h.content, '\n');
    SwapMarksMarked(lines);
    SwapMarksFree(lines);
    SplitJoin(SwapMarks(lines), '\n');
  }

  /** Hunk h replaces its old lines by its new ones, and what follows it up to (oi, ni) is common. */
  ghost predicate Fits(h: Hunk, old_: seq<Line>, new_: seq<Line>, oi: nat, ni: nat)
    requires oi <= |old_| && ni <= |new_|
  {
    var o, n := h.oldStart - 1, h.newStart - 1;
    && 0 <= o && o + h.oldLines <= oi && 0 <= n && n + h.newLines <= ni
    && old_[o..o + h.oldLines] == Removed(h)
    && new_[n..n + h.newLines] == Added(h)
    && old_[o + h.oldLines..oi] == new_[n + h.newLines..ni]
  }

  /** The hunks account for the first oi lines of old and the first ni of new. */
  ghost predicate Describes(hunks: seq<Hunk>, old_: seq<Line>, new_: seq<Line>, oi: nat, ni: nat)
    decreases |hunks|
  {
    && oi <= |old_| && ni <= |new_|
    && if hunks == [] then old_[..oi] == new_[..ni] else
         var h := hunks[|hunks| - 1];
         Fits(h, old_, new_, oi, ni) && Describes(hunks[..|hunks| - 1], old_, new_, h.oldStart - 1, h.newStart - 1)
  }

  lemma FitsInverted(h: Hunk, old_: seq<Line>, new_: seq<Line>, oi: nat, ni: nat)
    requires oi <= |old_| && ni <= |new_| && Fits(h, old_, new_, oi, ni)
    ensures Fits(Invert(h), new_, old_, ni, oi)
  {
    InvertSides(h);
  }

  lemma {:induction false} DescribesInverted(hunks: seq<Hunk>, old_: seq<Line>, new_: seq<Line>, oi: nat, ni: nat)
    requires Describes(hunks, old_, new_, oi, ni)
    ensures Describes(InvertAll(hunks), new_, old_, ni, oi)
    decreases |hunks|
  {
    if hunks != [] {
      var init, h := hunks[..|hunks| - 1], hunks[|hunks| - 1];
      FitsInverted(h, old_, new_, oi, ni);
      DescribesInverted(init, old_, new_, h.oldStart - 1, h.newStart - 1);
      assert InvertAll(hunks) == InvertAll(init) + [Invert(h)];
    }
  }

  lemma PatchEarlier(lines: seq<Line>, at: nat, out: nat, back: nat, hunks: seq<Hunk>)
    requires back <= at <= |lines| && at - back <= out
    requires PatchFrom(lines, at, out, hunks).Some?
    ensures PatchFrom(lines, back, out - (at - back), hunks)
         == Some(lines[back..at] + PatchFrom(lines, at, out, hunks).value)
  {
    hide Removed, Added;
    if hunks == [] {
      assert lines[back..] == lines[back..at] + lines[at..];
    } else {
      var h := hunks[0];
      var lo := h.oldStart - 1;
      var rest := PatchFrom(lines, lo + h.oldLines, h.newStart - 1 + h.newLines, hunks[1..]).value;
      assert lines[back..lo] == lines[back..at] + lines[at..lo];
      assert lines[back..lo] + Added(h) + rest == lines[back..at] + (lines[at..lo] + Added(h) + rest);
    }
  }

  /** One hunk that fits, then hunks that patch from (oi, ni): together they patch from its start. */
  lemma FitsPatches(h: Hunk, old_: seq<Line>, new_: seq<Line>, oi: nat, ni: nat, rest: seq<Hunk>)
    requires oi <= |old_| && ni <= |new_| && Fits(h, old_, new_, oi, ni)
    requires PatchFrom(old_, oi, ni, rest).Some?
    ensures PatchFrom(old_, h.oldStart - 1, h.newStart - 1, [h] + rest)
         == Some(new_[h.newStart - 1..ni] + PatchFrom(old_, oi, ni, rest).value)
  {
    hide PatchFrom, Removed, Added;
    var o, n := h.oldStart - 1, h.newStart - 1;
    var tail := PatchFrom(old_, oi, ni, rest).value;
    assert |old_[o + h.oldLines..oi]| == |new_[n + h.newLines..ni]|;
    PatchEarlier(old_, oi, ni, o + h.oldLines, rest);
    assert ([h] + rest)[0] == h && ([h] + rest)[1..] == rest;
    PatchHunk(old_, [h] + rest, o, o + h.oldLines, n);
    var common := new_[n + h.newLines..ni];
    assert new_[n..ni] == Added(h) + common;
    assert Added(h) + (common + tail) == Added(h) + common + tail;
  }

  /** A hunk at its own place, then others. */
  lemma PatchHunk(lines: seq<Line>, hunks: seq<Hunk>, lo: nat, hi: nat, out: nat)
    requires hunks != [] && hunks[0].oldStart == lo + 1 && hunks[0].newStart == out + 1
    requires hi == lo + hunks[0].oldLines <= |lines| && hunks[0].newLines == |Added(hunks[0])|
    requires lines[lo..hi] == Removed(hunks[0])
    requires PatchFrom(lines, hi, out + hunks[0].newLines, hunks[1..]).Some?
    ensures PatchFrom(lines, lo, out, hunks)
         == Some(Added(hunks[0]) + PatchFrom(lines, hi, out + hunks[0].newLines, hunks[1..]).value)
  {
    hide Removed, Added;
    assert lines[lo..lo] + Added(hunks[0]) == Added(hunks[0]);
  }

  lemma {:induction false} DescribesPatches(hunks: seq<Hunk>, old_: seq<Line>, new_: seq<Line>, oi: nat, ni: nat,
                                            rest: seq<Hunk>)
    requires Describes(hunks, old_, new_, oi, ni)
    requires PatchFrom(old_, oi, ni, rest).Some?
    ensures Patch(old_, hunks + rest) == Some(new_[..ni] + PatchFrom(old_, oi, ni, rest).value)
    decreases |hunks|
  {
    hide PatchFrom, Removed, Added;
    if hunks == [] {
      assert |old_[..oi]| == |new_[..ni]|;
      PatchEarlier(old_, oi, ni, 0, rest);
      assert hunks + rest == rest;
    } else {
      var init, h := hunks[..|hunks| - 1], hunks[|hunks| - 1];
      var tail := PatchFrom(old_, oi, ni, rest).value;
      var o, n := h.oldStart - 1, h.newStart - 1;
      FitsPatches(h, old_, new_, oi, ni, rest);
      DescribesPatches(init, old_, new_, o, n, [h] + rest);
      assert init + ([h] + rest) == hunks + rest;
      SplitOff(new_, n, ni, tail);
    }
  }

  lemma SplitOff(s: seq<Line>, n: nat, m: nat, tail: seq<Line>)
    requires n <= m <= |s|
    ensures s[..n] + (s[n..m] + tail) == s[..m] + tail
  {
  }

  // ---------------------------------------------------------------- totals

  function SumAdded(hunks: seq<Hunk>): nat {
    if hunks == [] then 0 else SumAdded(hunks[..|hunks| - 1]) + hunks[|hunks| - 1].newLines
  }

  function SumRemoved(hunks: seq<Hunk>): nat {
    if hunks == [] then 0 else SumRemoved(hunks[..|hunks| - 1]) + hunks[|hunks| - 1].oldLines
  }

  method SumChanges(hunks: seq<Hunk>) returns (additions: nat, deletions: nat)
    ensures additions == SumAdded(hunks) && deletions == SumRemoved(hunks)
  {
    additions, deletions := 0, 0;
    for i := 0 to |hunks|
      invariant additions == SumAdded(hunks[..i]) && deletions == SumRemoved(hunks[..i])
    {
      assert hunks[..i + 1][..i] == hunks[..i];
      additions := additions + hunks[i].newLines;
      deletions := deletions + hunks[i].oldLines;
    }
    assert hunks[..|hunks|] == hunks;
  }

  /** Hunks that describe a change carry its length change. */
  lemma {:induction false} TotalsBalance(hunks: seq<Hunk>, old_: seq<Line>, new_: seq<Line>, oi: nat, ni: nat)
    requires Describes(hunks, old_, new_, oi, ni)
    ensures ni - oi == SumAdded(hunks) - SumRemoved(hunks)
    decreases |hunks|
  {
    if hunks == [] {
      assert |old_[..oi]| == |new_[..ni]|;
    } else {
      var h := hunks[|hunks| - 1];
      assert |old_[h.oldStart - 1 + h.oldLines..oi]| == |new_[h.newStart - 1 + h.newLines..ni]|;
      TotalsBalance(hunks[..|hunks| - 1], old_, new_, h.oldStart - 1, h.newStart - 1);
    }
  }

  // ---------------------------------------------------------------- the generator

  /** The text of a hunk under construction: every marked line followed by a newline. */
  function OpenText(lines: seq<string>): string {
    if lines == [] then "" else OpenText(lines[..|lines| - 1]) + lines[|lines| - 1] + "\n"
  }

  lemma {:induction false} MarkedSnoc(lines: seq<string>, l: string, mark: char)
    ensures Marked(lines + [l], mark) == Marked(lines, mark) + Marked([l], mark)
  {
    if lines == [] {
      assert lines + [l] == [l];
    } else {
      MarkedSnoc(lines[1..], l, mark);
      assert (lines + [l])[1..] == lines[1..] + [l];
    }
  }

  lemma {:induction false} JoinSnoc(lines: seq<string>, l: string, sep: char)
    requires lines != []
    ensures Join(lines + [l], sep) == Join(lines, sep) + [sep] + l
  {
    if |lines| > 1 {
      JoinSnoc(lines[1..], l, sep);
      assert (lines + [l])[1..] == lines[1..] + [l];
    }
  }

  /** Cutting the last newline off the open text leaves the lines joined, so they can be read back. */
  lemma {:induction false} OpenTextCloses(lines: seq<string>)
    requires lines != [] && forall l :: l in lines ==> '\n' !in l
    ensures OpenText(lines) == Join(lines, '\n') + "\n"
    ensures Split(OpenText(lines)[..|OpenText(lines)| - 1], '\n') == lines
  {
    if |lines| == 1 {
      assert OpenText(lines[..0]) == "";
    } else {
      var init := lines[..|lines| - 1];
      OpenTextCloses(init);
      JoinSnoc(init, lines[|lines| - 1], '\n');
      assert init + [lines[|lines| - 1]] == lines;
    }
    SplitJoin(lines, '\n');
    assert OpenText(lines)[..|OpenText(lines)| - 1] == Join(lines, '\n');
  }

  ghost predicate NoNewlines(lines: seq<Line>) {
    forall l :: l in lines ==> '\n' !in l
  }

  /** Every hunk changes something, and a common line lies between one hunk and the next. */
  ghost predicate Separated(hunks: seq<Hunk>) {
    && (forall i :: 0 <= i < |hunks| ==> hunks[i].oldLines + hunks[i].newLines > 0)
    && (forall i :: 0 < i < |hunks| ==> hunks[i - 1].oldStart + hunks[i - 1].oldLines < hunks[i].oldStart)
  }

  ghost predicate EndsBefore(hunks: seq<Hunk>, line: nat) {
    hunks != [] ==> hunks[|hunks| - 1].oldStart + hunks[|hunks| - 1].oldLines < line
  }

  /** The open hunk `h`, whose marked lines so far are `text`, reaches to (oi, ni). */
  ghost predicate OpenHunk(h: Hunk, text: seq<string>, old_: seq<Line>, new_: seq<Line>, oi: nat, ni: nat)
    requires oi <= |old_| && ni <= |new_|
  {
    && h.content == OpenText(text) && NoNewlines(text) && |text| == h.oldLines + h.newLines
    && 1 <= h.oldStart && h.oldStart - 1 + h.oldLines == oi && 1 <= h.newStart && h.newStart - 1 + h.newLines == ni
    && Marked(text, '-') == old_[h.oldStart - 1..oi] && Marked(text, '+') == new_[h.newStart - 1..ni]
  }

  lemma ClosedFits(h: Hunk, text: seq<string>, old_: seq<Line>, new_: seq<Line>, oi: nat, ni: nat)
    requires oi <= |old_| && ni <= |new_| && OpenHunk(h, text, old_, new_, oi, ni) && text != []
    ensures Fits(WithoutLastNewline(h), old_, new_, oi, ni)
    ensures h.oldLines + h.newLines > 0 && h.oldStart + h.oldLines == oi + 1
  {
    hide Split, Marked, OpenText, Join;
    OpenTextCloses(text);
  }

  lemma SeparatedSnoc(hunks: seq<Hunk>, h: Hunk)
    requires Separated(hunks) && EndsBefore(hunks, h.oldStart) && h.oldLines + h.newLines > 0
    ensures Separated(hunks + [h])
  {
  }

  /** Closing the open hunk turns its account of the lines up to (oi, ni) into that of the list. */
  lemma CloseHunk(hunks: seq<Hunk>, h: Hunk, text: seq<string>, old_: seq<Line>, new_: seq<Line>, oi: nat, ni: nat)
    requires oi <= |old_| && ni <= |new_| && OpenHunk(h, text, old_, new_, oi, ni) && text != []
    requires Describes(hunks, old_, new_, h.oldStart - 1, h.newStart - 1)
    requires Separated(hunks) && EndsBefore(hunks, h.oldStart)
    ensures var r := hunks + [WithoutLastNewline(h)];
            Describes(r, old_, new_, oi, ni) && Separated(r) && EndsBefore(r, oi + 2)
  {
    hide OpenHunk, Fits, Separated;
    var closed := WithoutLastNewline(h);
    ClosedFits(h, text, old_, new_, oi, ni);
    SeparatedSnoc(hunks, closed);
    assert (hunks + [closed])[..|hunks|] == hunks;
  }

  /** Where the merge stands: the closed hunks, the open one with its marked lines, and three cursors. */
  ghost predicate Merging(hunks: seq<Hunk>, current: Option<Hunk>, text: seq<string>, old_: seq<Line>, new_: seq<Line>,
                          oi: nat, ni: nat)
  {
    && oi <= |old_| && ni <= |new_| && Separated(hunks)
    && match current
       case Some(h) =>
         && OpenHunk(h, text, old_, new_, oi, ni) && text != [] && EndsBefore(hunks, h.oldStart)
         && Describes(hunks, old_, new_, h.oldStart - 1, h.newStart - 1)
       case None =>
         Describes(hunks, old_, new_, oi, ni) && EndsBefore(hunks, oi + 1)
  }

  function WithRemoved(h: Hunk, line: Line): Hunk {
    h.(content := h.content + ("-" + line + "\n"), oldLines := h.oldLines + 1)
  }

  function WithAdded(h: Hunk, line: Line): Hunk {
    h.(content := h.content + ("+" + line + "\n"), newLines := h.newLines + 1)
  }

  function WithoutLastNewline(h: Hunk): Hunk {
    if h.content == "" then h else h.(content := h.content[..|h.content| - 1])
  }

  function AllAdded(hunks: seq<Hunk>, current: Option<Hunk>): nat {
    SumAdded(hunks) + if current.Some? then current.value.newLines else 0
  }

  function AllRemoved(hunks: seq<Hunk>, current: Option<Hunk>): nat {
    SumRemoved(hunks) + if current.Some? then current.value.oldLines else 0
  }

  lemma MergingStart(old_: seq<Line>, new_: seq<Line>)
    ensures Merging([], None, [], old_, new_, 0, 0) && AllAdded([], None) == AllRemoved([], None) == 0
  {
  }

  lemma OpenEmpty(old_: seq<Line>, new_: seq<Line>, oi: nat, ni: nat)
    requires oi <= |old_| && ni <= |new_|
    ensures OpenHunk(Hunk(oi + 1, 0, ni + 1, 0, ""), [], old_, new_, oi, ni)
  {
  }

  lemma OpenDelete(h: Hunk, text: seq<string>, old_: seq<Line>, new_: seq<Line>, oi: nat, ni: nat)
    requires oi < |old_| && ni <= |new_| && OpenHunk(h, text, old_, new_, oi, ni) && '\n' !in old_[oi]
    ensures OpenHunk(WithRemoved(h, old_[oi]), text + ["-" + old_[oi]], old_, new_, oi + 1, ni)
  {
    var l := "-" + old_[oi];
    MarkedSnoc(text, l, '-');
    MarkedSnoc(text, l, '+');
    assert (text + [l])[..|text|] == text;
    assert l[1..] == old_[oi];
    assert old_[h.oldStart - 1..oi + 1] == old_[h.oldStart - 1..oi] + [old_[oi]];
  }

  lemma OpenInsert(h: Hunk, text: seq<string>, old_: seq<Line>, new_: seq<Line>, oi: nat, ni: nat)
    requires oi <= |old_| && ni < |new_| && OpenHunk(h, text, old_, new_, oi, ni) && '\n' !in new_[ni]
    ensures OpenHunk(WithAdded(h, new_[ni]), text + ["+" + new_[ni]], old_, new_, oi, ni + 1)
  {
    var l := "+" + new_[ni];
    MarkedSnoc(text, l, '-');
    MarkedSnoc(text, l, '+');
    assert (text + [l])[..|text|] == text;
    assert l[1..] == new_[ni];
    assert new_[h.newStart - 1..ni + 1] == new_[h.newStart - 1..ni] + [new_[ni]];
  }

  lemma DescribesCommon(hunks: seq<Hunk>, old_: seq<Line>, new_: seq<Line>, oi: nat, ni: nat)
    requires oi < |old_| && ni < |new_| && old_[oi] == new_[ni]
    requires Describes(hunks, old_, new_, oi, ni)
    ensures Describes(hunks, old_, new_, oi + 1, ni + 1)
  {
    hide Fits;
    if hunks == [] {
      assert old_[..oi + 1] == old_[..oi] + [old_[oi]] && new_[..ni + 1] == new_[..ni] + [new_[ni]];
    } else {
      FitsCommon(hunks[|hunks| - 1], old_, new_, oi, ni);
    }
  }

  lemma FitsCommon(h: Hunk, old_: seq<Line>, new_: seq<Line>, oi: nat, ni: nat)
    requires oi < |old_| && ni < |new_| && old_[oi] == new_[ni] && Fits(h, old_, new_, oi, ni)
    ensures Fits(h, old_, new_, oi + 1, ni + 1)
  {
    hide Removed, Added;
    var o, n := h.oldStart - 1 + h.oldLines, h.newStart - 1 + h.newLines;
    assert old_[o..oi + 1] == old_[o..oi] + [old_[oi]] && new_[n..ni + 1] == new_[n..ni] + [new_[ni]];
  }

  /** Both files stand on the next common line: the open hunk closes and all three cursors pass the line. */
  lemma MergeCommon(hunks: seq<Hunk>, current: Option<Hunk>, text: seq<string>, old_: seq<Line>, new_: seq<Line>,
                    oi: nat, ni: nat)
    requires oi < |old_| && ni < |new_| && old_[oi] == new_[ni]
    requires Merging(hunks, current, text, old_, new_, oi, ni)
    ensures var r := if current.Some? then hunks + [WithoutLastNewline(current.value)] else hunks;
            && Merging(r, None, [], old_, new_, oi + 1, ni + 1)
            && AllAdded(r, None) == AllAdded(hunks, current) && AllRemoved(r, None) == AllRemoved(hunks, current)
  {
    hide OpenHunk, Fits, Separated, Describes;
    var r := hunks;
    if current.Some? {
      CloseHunk(hunks, current.value, text, old_, new_, oi, ni);
      r := hunks + [WithoutLastNewline(current.value)];
      assert r[..|hunks|] == hunks;
    }
    DescribesCommon(r, old_, new_, oi, ni);
  }

  /** A line only one file has next goes into the open hunk, or opens one. */
  lemma MergeChange(hunks: seq<Hunk>, current: Option<Hunk>, text: seq<string>, old_: seq<Line>, new_: seq<Line>,
                    oi: nat, ni: nat)
    requires oi <= |old_| && ni <= |new_| && NoNewlines(old_) && NoNewlines(new_)
    requires Merging(hunks, current, text, old_, new_, oi, ni)
    ensures var h := if current.Some? then current.value else Hunk(oi + 1, 0, ni + 1, 0, "");
            var t := if current.Some? then text else [];
            && (oi < |old_| ==>
                  && Merging(hunks, Some(WithRemoved(h, old_[oi])), t + ["-" + old_[oi]], old_, new_, oi + 1, ni)
                  && AllAdded(hunks, Some(WithRemoved(h, old_[oi]))) == AllAdded(hunks, current)
                  && AllRemoved(hunks, Some(WithRemoved(h, old_[oi]))) == AllRemoved(hunks, current) + 1)
            && (ni < |new_| ==>
                  && Merging(hunks, Some(WithAdded(h, new_[ni])), t + ["+" + new_[ni]], old_, new_, oi, ni + 1)
                  && AllAdded(hunks, Some(WithAdded(h, new_[ni]))) == AllAdded(hunks, current) + 1
                  && AllRemoved(hunks, Some(WithAdded(h, new_[ni]))) == AllRemoved(hunks, current))
  {
    hide OpenHunk, Describes, Separated, EndsBefore, SumAdded, SumRemoved;
    var h := if current.Some? then current.value else Hunk(oi + 1, 0, ni + 1, 0, "");
    var t := if current.Some? then text else [];
    if current.None? {
      OpenEmpty(old_, new_, oi, ni);
    }
    if oi < |old_| {
      OpenDelete(h, t, old_, new_, oi, ni);
    }
    if ni < |new_| {
      OpenInsert(h, t, old_, new_, oi, ni);
    }
  }

  /** The merge loop of GenerateDiff: deletions up to the next common line, then insertions up to it. */
  method DiffLoop(old_: seq<Line>, new_: seq<Line>, lcs: seq<Line>) returns (hunks: seq<Hunk>)
    requires CommonSubseq(lcs, old_, new_) && NoNewlines(old_) && NoNewlines(new_)
    ensures Describes(hunks, old_, new_, |old_|, |new_|) && Separated(hunks)
    ensures SumAdded(hunks) == |new_| - |lcs| && SumRemoved(hunks) == |old_| - |lcs|
  {
    hide IsSubseq, Merging, AllAdded, AllRemoved;
    MergingStart(old_, new_);
    hunks := [];
    var current: Option<Hunk> := None;
    ghost var text: seq<string> := [];
    var oi, ni, li := 0, 0, 0;
    var oldStart, newStart := 1, 1;
    assert lcs[0..] == lcs && old_[0..] == old_ && new_[0..] == new_;
    while oi < |old_| || ni < |new_|
      invariant oi <= |old_| && ni <= |new_| && li <= |lcs| && oldStart == oi + 1 && newStart == ni + 1
      invariant Merging(hunks, current, text, old_, new_, oi, ni)
      invariant IsSubseq(lcs[li..], old_[oi..]) && IsSubseq(lcs[li..], new_[ni..])
      invariant AllAdded(hunks, current) == ni - li && AllRemoved(hunks, current) == oi - li
      decreases |old_| - oi + |new_| - ni
    {
      if li < |lcs| && oi < |old_| && ni < |new_| && old_[oi] == lcs[li] && new_[ni] == lcs[li] {
        MergeCommon(hunks, current, text, old_, new_, oi, ni);
        SubseqPass(lcs, li, old_, oi);
        SubseqPass(lcs, li, new_, ni);
        if current.Some? {
          hunks, current := hunks + [WithoutLastNewline(current.value)], None;
        }
        text := [];
        oi, ni, li := oi + 1, ni + 1, li + 1;
        oldStart, newStart := oldStart + 1, newStart + 1;
      } else {
        MergeChange(hunks, current, text, old_, new_, oi, ni);
        if oi == |old_| {
          SubseqDone(lcs, li, old_);
        }
        if ni == |new_| {
          SubseqDone(lcs, li, new_);
        }
        if current.None? {
          current, text := Some(Hunk(oldStart, 0, newStart, 0, "")), [];
        }
        if oi < |old_| && (li >= |lcs| || old_[oi] != lcs[li]) {
          SubseqPass(lcs, li, old_, oi);
          current, text := Some(WithRemoved(current.value, old_[oi])), text + ["-" + old_[oi]];
          oi, oldStart := oi + 1, oldStart + 1;
        } else if ni < |new_| && (li >= |lcs| || new_[ni] != lcs[li]) {
          SubseqPass(lcs, li, new_, ni);
          current, text := Some(WithAdded(current.value, new_[ni])), text + ["+" + new_[ni]];
          ni, newStart := ni + 1, newStart + 1;
        }
      }
    }
    SubseqDone(lcs, li, old_);
    MergeEnd(hunks, current, text, old_, new_);
    if current.Some? {
      hunks := hunks + [WithoutLastNewline(current.value)];
    }
  }

  lemma MergeEnd(hunks: seq<Hunk>, current: Option<Hunk>, text: seq<string>, old_: seq<Line>, new_: seq<Line>)
    requires Merging(hunks, current, text, old_, new_, |old_|, |new_|)
    ensures var r := if current.Some? then hunks + [WithoutLastNewline(current.value)] else hunks;
            && Describes(r, old_, new_, |old_|, |new_|) && Separated(r)
            && SumAdded(r) == AllAdded(hunks, current) && SumRemoved(r) == AllRemoved(hunks, current)
  {
    hide OpenHunk, Fits;
    if current.Some? {
      CloseHunk(hunks, current.value, text, old_, new_, |old_|, |new_|);
      assert (hunks + [WithoutLastNewline(current.value)])[..|hunks|] == hunks;
    }
  }

  method GenerateDiff(oldContent: string, newContent: string) returns (hunks: seq<Hunk>)
    ensures hunks == [] <==> oldContent == newContent
    ensures Patch(Split(oldContent, '\n'), hunks) == Some(Split(newContent, '\n'))
    ensures Patch(Split(newContent, '\n'), InvertAll(hunks)) == Some(Split(oldContent, '\n'))
    ensures SumAdded(hunks) - SumRemoved(hunks) == |Split(newContent, '\n')| - |Split(oldContent, '\n')|
    ensures var a, b := Split(oldContent, '\n'), Split(newContent, '\n');
            SumRemoved(hunks) == |a| - |Walk(a, b, |a|, |b|)|
    ensures SumAdded(hunks) == 0 <==> IsSubseq(Split(newContent, '\n'), Split(oldContent, '\n'))
    ensures Separated(hunks)
  {
    hide IsSubseq, Walk, Fits, Split;
    var old_, new_ := Split(oldContent, '\n'), Split(newContent, '\n');
    JoinSplit(oldContent, '\n');
    JoinSplit(newContent, '\n');
    var lcs := ComputeLcs(old_, new_);
    WalkIsCommon(old_, new_, |old_|, |new_|);
    WalkOfDeletion(old_, new_);
    assert old_[..|old_|] == old_ && new_[..|new_|] == new_;
    SubseqLength(lcs, old_);
    SubseqLength(lcs, new_);
    if |lcs| == |old_| && |lcs| == |new_| {
      assert old_[0..] == old_;
      return [];
    }
    if old_ == new_ {
      WalkOfEqual(old_, |old_|);
    }
    assert old_ != new_;
    SplitPartsFree(oldContent, '\n');
    SplitPartsFree(newContent, '\n');
    hunks := DiffLoop(old_, new_, lcs);
    DescribesPatches(hunks, old_, new_, |old_|, |new_|, []);
    DescribesInverted(hunks, old_, new_, |old_|, |new_|);
    DescribesPatches(InvertAll(hunks), new_, old_, |new_|, |old_|, []);
    assert hunks + [] == hunks && InvertAll(hunks) + [] == InvertAll(hunks);
    assert new_ + [] == new_ && old_ + [] == old_;
  }
}
