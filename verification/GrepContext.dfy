/** Printing matching lines with context: match lines are collected, their windows merged to intervals, and a
    second pass over the lines prints the intervals. Lines are numbered from 1. */
module GrepContext {

  /** Lines lo to hi. */
  datatype Interval = Interval(lo: int, hi: int)

  /** A printed row: a line, or the separator between groups. */
  datatype Row = Separator | Line(number: nat, isMatch: bool, text: string)

  // ---------------------------------------------------------------- what is to be printed

  /** Line n is in the window of a match. */
  predicate InWindow(matches: seq<int>, before: nat, after: nat, n: int) {
    n >= 1 && exists m :: m in matches && m - before <= n <= m + after
  }

  predicate In(ivs: seq<Interval>, n: int) { exists i :: 0 <= i < |ivs| && ivs[i].lo <= n <= ivs[i].hi }

  /** Intervals in order, each with a line that is in none between it and the next. */
  predicate Apart(ivs: seq<Interval>) {
    && (forall i :: 0 <= i < |ivs| ==> 1 <= ivs[i].lo <= ivs[i].hi)
    && (forall i, j :: 0 <= i < j < |ivs| ==> ivs[i].hi + 1 < ivs[j].lo)
  }

  predicate Ascending(matches: seq<int>) {
    forall i, j :: 0 <= i < j < |matches| ==> matches[i] < matches[j]
  }

  /** The rows for lines 1 to k: every wanted line, and a separator in front of one whose predecessor is not
      wanted, but for the first. */
  function Rows(lines: seq<string>, wanted: int -> bool, isMatch: int -> bool, k: nat): seq<Row>
    requires k <= |lines|
  {
    if k == 0 then []
    else
      var rows := Rows(lines, wanted, isMatch, k - 1);
      if !wanted(k) then rows
      else rows + (if rows != [] && !wanted(k - 1) then [Separator] else []) + [Line(k, isMatch(k), lines[k - 1])]
  }

  // ---------------------------------------------------------------- first pass

  method CollectMatches(lines: seq<string>, hit: string -> bool) returns (matches: seq<int>)
    ensures Ascending(matches)
    ensures forall n :: n in matches <==> 1 <= n <= |lines| && hit(lines[n - 1])
  {
    matches := [];
    for n := 0 to |lines|
      invariant Ascending(matches)
      invariant forall k :: k in matches <==> 1 <= k <= n && hit(lines[k - 1])
    {
      if hit(lines[n]) {
        assert forall k :: k in matches ==> k <= n;
        AscendingSnoc(matches, n + 1);
        matches := matches + [n + 1];
      }
    }
  }

  lemma AscendingSnoc(matches: seq<int>, n: int)
    requires Ascending(matches) && forall k :: k in matches ==> k < n
    ensures Ascending(matches + [n])
  {
    forall i | 0 <= i < |matches|
      ensures matches[i] < n
    {
      assert matches[i] in matches;
    }
  }

  // ---------------------------------------------------------------- merging

  function Largest(a: int, b: int): int { if a < b then b else a }

  /** The intervals hold exactly the lines of the windows. */
  ghost predicate Covers(ivs: seq<Interval>, matches: seq<int>, before: nat, after: nat) {
    forall n :: In(ivs, n) <==> InWindow(matches, before, after, n)
  }

  /** Windows of the matches, merged where they touch: the result covers exactly the union of the windows, in
      order and with a gap between any two intervals. */
  method MergeIntervals(matches: seq<int>, before: nat, after: nat) returns (ivs: seq<Interval>)
    requires Ascending(matches) && forall m :: m in matches ==> m >= 1
    ensures Apart(ivs)
    ensures Covers(ivs, matches, before, after)
  {
    ivs := [];
    for k := 0 to |matches|
      invariant Apart(ivs)
      invariant Covers(ivs, matches[..k], before, after)
      invariant ivs != [] <==> k > 0
      invariant k > 0 ==> ivs[|ivs| - 1].hi == matches[k - 1] + after
      invariant k > 0 ==> ivs[|ivs| - 1].lo <= Largest(1, matches[k - 1] - before)
    {
      var m := matches[k];
      assert m in matches && (k > 0 ==> matches[k - 1] < m);
      ghost var last := ivs;
      var lo, hi := m - before, m + after;
      if lo < 1 {
        lo := 1;
      }
      var n := |ivs|;
      if n > 0 && lo <= ivs[n - 1].hi + 1 {
        if hi > ivs[n - 1].hi {
          LastExtended(ivs, lo, hi);
          ivs := ivs[n - 1 := ivs[n - 1].(hi := hi)];
        }
      } else {
        OneMoreInterval(ivs, lo, hi);
        ivs := ivs + [Interval(lo, hi)];
      }
      CoversOneMore(last, ivs, matches, before, after, k);
    }
    assert matches[..|matches|] == matches;
  }

  lemma CoversOneMore(last: seq<Interval>, ivs: seq<Interval>, matches: seq<int>, before: nat, after: nat, k: nat)
    requires k < |matches| && Covers(last, matches[..k], before, after)
    requires forall n :: In(ivs, n) <==> In(last, n) || Largest(1, matches[k] - before) <= n <= matches[k] + after
    ensures Covers(ivs, matches[..k + 1], before, after)
  {
    OneMoreWindow(matches, before, after, k);
    forall n
      ensures In(ivs, n) <==> InWindow(matches[..k + 1], before, after, n)
    {
      assert In(last, n) <==> InWindow(matches[..k], before, after, n);
    }
  }

  lemma OneMoreWindow(matches: seq<int>, before: nat, after: nat, k: nat)
    requires k < |matches|
    ensures forall n :: InWindow(matches[..k + 1], before, after, n) <==>
              InWindow(matches[..k], before, after, n)
              || (n >= 1 && matches[k] - before <= n <= matches[k] + after)
  {
    assert matches[..k + 1] == matches[..k] + [matches[k]];
    assert matches[k] in matches[..k + 1];
    assert forall m :: m in matches[..k] ==> m in matches[..k + 1];
  }

  lemma LastExtended(ivs: seq<Interval>, lo: int, hi: int)
    requires Apart(ivs) && ivs != [] && ivs[|ivs| - 1].lo <= lo <= ivs[|ivs| - 1].hi + 1 && ivs[|ivs| - 1].hi < hi
    ensures var longer := ivs[|ivs| - 1 := ivs[|ivs| - 1].(hi := hi)];
            && Apart(longer)
            && forall n :: In(longer, n) <==> In(ivs, n) || lo <= n <= hi
  {
    var last := |ivs| - 1;
    var longer := ivs[last := ivs[last].(hi := hi)];
    forall n
      ensures In(longer, n) <==> In(ivs, n) || lo <= n <= hi
    {
      if In(ivs, n) {
        var i :| 0 <= i < |ivs| && ivs[i].lo <= n <= ivs[i].hi;
        assert longer[i].lo <= n <= longer[i].hi;
      } else if lo <= n <= hi {
        assert longer[last].lo <= n <= longer[last].hi;
      } else {
        assert forall i :: 0 <= i < last ==> longer[i] == ivs[i];
      }
    }
  }

  lemma OneMoreInterval(ivs: seq<Interval>, lo: int, hi: int)
    requires Apart(ivs) && 1 <= lo <= hi && (ivs != [] ==> ivs[|ivs| - 1].hi + 1 < lo)
    ensures Apart(ivs + [Interval(lo, hi)])
    ensures forall n :: In(ivs + [Interval(lo, hi)], n) <==> In(ivs, n) || lo <= n <= hi
  {
    var more := ivs + [Interval(lo, hi)];
    forall n
      ensures In(more, n) <==> In(ivs, n) || lo <= n <= hi
    {
      if In(ivs, n) {
        var i :| 0 <= i < |ivs| && ivs[i].lo <= n <= ivs[i].hi;
        assert more[i].lo <= n <= more[i].hi;
      } else {
        assert more[|ivs|] == Interval(lo, hi);
        assert forall i :: 0 <= i < |ivs| ==> more[i] == ivs[i];
      }
    }
  }

  // ---------------------------------------------------------------- second pass

  /** The lines left over when the intervals are used up. */
  lemma {:induction false} NoMoreRows(lines: seq<string>, wanted: int -> bool, isMatch: int -> bool, k: nat)
    requires k <= |lines| && forall n :: k < n <= |lines| ==> !wanted(n)
    ensures Rows(lines, wanted, isMatch, |lines|) == Rows(lines, wanted, isMatch, k)
    decreases |lines| - k
  {
    if k < |lines| {
      NoMoreRows(lines, wanted, isMatch, k + 1);
      assert !wanted(k + 1);
    }
  }

  /** Where a line lies, when all intervals in front of idx end before it and idx does not. */
  lemma Where(ivs: seq<Interval>, idx: nat, n: int)
    requires Apart(ivs) && idx <= |ivs|
    requires forall i :: 0 <= i < idx ==> ivs[i].hi < n
    requires idx < |ivs| ==> n <= ivs[idx].hi
    ensures In(ivs, n) <==> idx < |ivs| && ivs[idx].lo <= n
  {
    if idx < |ivs| {
      forall i | idx < i < |ivs|
        ensures n < ivs[i].lo
      {
        assert ivs[idx].hi + 1 < ivs[i].lo;
      }
    }
  }

  /** Prints the intervals in one pass over the lines, moving on to the next interval when one is over. */
  method EmitWithContext(lines: seq<string>, ivs: seq<Interval>, matchSet: set<int>) returns (rows: seq<Row>)
    requires Apart(ivs)
    ensures rows == Rows(lines, n => In(ivs, n), n => n in matchSet, |lines|)
  {
    ghost var wanted := n => In(ivs, n);
    ghost var isMatch := n => n in matchSet;
    rows := [];
    var idx, emitting := 0, false;
    for k := 0 to |lines|
      invariant rows == Rows(lines, wanted, isMatch, k)
      invariant idx <= |ivs| && forall i :: 0 <= i < idx ==> ivs[i].hi < k
      invariant k > 0 ==> idx < |ivs| && k <= ivs[idx].hi
      invariant emitting <==> In(ivs, k)
    {
      var lineNum := k + 1;
      ghost var first := idx;
      while idx < |ivs| && lineNum > ivs[idx].hi
        invariant first <= idx <= |ivs| && forall i :: 0 <= i < idx ==> ivs[i].hi < lineNum
        invariant idx == first ==> (emitting <==> In(ivs, k))
        invariant idx > first ==> !emitting
      {
        idx := idx + 1;
        emitting := false;
      }
      Where(ivs, first, k);
      Where(ivs, idx, lineNum);
      if idx >= |ivs| {
        forall n | k < n <= |lines|
          ensures !wanted(n)
        {
          Where(ivs, idx, n);
        }
        NoMoreRows(lines, wanted, isMatch, k);
        return;
      }
      var iv := ivs[idx];
      if lineNum < iv.lo {
        continue;
      }
      assert idx == first;
      if !emitting && |rows| > 0 {
        rows := rows + [Separator];
      }
      emitting := true;
      rows := rows + [Line(lineNum, lineNum in matchSet, lines[k])];
    }
  }

  // ---------------------------------------------------------------- both passes

  lemma {:induction false} SameRows(lines: seq<string>, wanted: int -> bool, other: int -> bool,
                                    isMatch: int -> bool, same: int -> bool, k: nat)
    requires k <= |lines| && (forall n :: 0 <= n <= k ==> wanted(n) == other(n))
    requires forall n :: 1 <= n <= k ==> isMatch(n) == same(n)
    ensures Rows(lines, wanted, isMatch, k) == Rows(lines, other, same, k)
    decreases k
  {
    if k > 0 {
      SameRows(lines, wanted, other, isMatch, same, k - 1);
    }
  }

  predicate Hit(lines: seq<string>, hit: string -> bool, n: int) { 1 <= n <= |lines| && hit(lines[n - 1]) }

  /** Within `before` lines in front of a hit, or `after` lines behind one. */
  predicate Wanted(lines: seq<string>, hit: string -> bool, before: nat, after: nat, n: int) {
    n >= 1 && exists m :: n - after <= m <= n + before && Hit(lines, hit, m)
  }

  /** The rows printed are those of the simple specification: every line within the context of a hit, once and in
      order, hits marked, and a separator exactly between printed lines that do not follow one another. */
  method GrepWithContext(lines: seq<string>, hit: string -> bool, before: nat, after: nat) returns (rows: seq<Row>)
    ensures rows == Rows(lines, n => Wanted(lines, hit, before, after, n), n => Hit(lines, hit, n), |lines|)
  {
    var matches := CollectMatches(lines, hit);
    var ivs := MergeIntervals(matches, before, after);
    var matchSet := set m | m in matches;
    rows := EmitWithContext(lines, ivs, matchSet);
    forall n
      ensures In(ivs, n) <==> Wanted(lines, hit, before, after, n)
      ensures n in matchSet <==> Hit(lines, hit, n)
    {
      WindowIsWanted(lines, hit, matches, before, after, n);
    }
    SameRows(lines, n => In(ivs, n), n => Wanted(lines, hit, before, after, n),
             n => n in matchSet, n => Hit(lines, hit, n), |lines|);
  }

  lemma WindowIsWanted(lines: seq<string>, hit: string -> bool, matches: seq<int>, before: nat, after: nat, n: int)
    requires forall m :: m in matches <==> Hit(lines, hit, m)
    ensures InWindow(matches, before, after, n) <==> Wanted(lines, hit, before, after, n)
  {
  }

  // ---------------------------------------------------------------- what the specification means

  /** The lines among the rows. */
  function LinesIn(rows: seq<Row>): seq<Row> {
    if rows == [] then []
    else LinesIn(rows[..|rows| - 1]) + if rows[|rows| - 1].Line? then [rows[|rows| - 1]] else []
  }

  /** The wanted lines up to line k, in order. */
  function WantedLines(lines: seq<string>, wanted: int -> bool, isMatch: int -> bool, k: nat): seq<Row>
    requires k <= |lines|
  {
    if k == 0 then []
    else WantedLines(lines, wanted, isMatch, k - 1) + if wanted(k) then [Line(k, isMatch(k), lines[k - 1])] else []
  }

  lemma LinesInSnoc(rows: seq<Row>, r: Row)
    ensures LinesIn(rows + [r]) == LinesIn(rows) + if r.Line? then [r] else []
  {
    assert (rows + [r])[..|rows|] == rows;
  }

  /** Every wanted line is printed once, in order, and nothing else but separators. */
  lemma {:induction false} RowsAreWantedLines(lines: seq<string>, wanted: int -> bool, isMatch: int -> bool, k: nat)
    requires k <= |lines|
    ensures LinesIn(Rows(lines, wanted, isMatch, k)) == WantedLines(lines, wanted, isMatch, k)
  {
    hide LinesIn;
    if k == 0 {
      NoLinesIn();
    } else {
      RowsAreWantedLines(lines, wanted, isMatch, k - 1);
      var rows := Rows(lines, wanted, isMatch, k - 1);
      RowsNext(lines, wanted, isMatch, k);
      WantedNext(lines, wanted, isMatch, k);
      hide Rows, WantedLines;
      if wanted(k) {
        var line := Line(k, isMatch(k), lines[k - 1]);
        if rows != [] && !wanted(k - 1) {
          LinesInSnoc(rows, Separator);
          LinesInSnoc(rows + [Separator], line);
        } else {
          LinesInSnoc(rows, line);
        }
      }
    }
  }

  lemma NoLinesIn()
    ensures LinesIn([]) == []
  {
  }

  lemma RowsNext(lines: seq<string>, wanted: int -> bool, isMatch: int -> bool, k: nat)
    requires 0 < k <= |lines|
    ensures var rows := Rows(lines, wanted, isMatch, k - 1);
            var line := Line(k, isMatch(k), lines[k - 1]);
            Rows(lines, wanted, isMatch, k)
              == if !wanted(k) then rows
                 else if rows != [] && !wanted(k - 1) then rows + [Separator] + [line]
                 else rows + [line]
  {
    var rows := Rows(lines, wanted, isMatch, k - 1);
    assert rows + [] == rows;
  }

  lemma WantedNext(lines: seq<string>, wanted: int -> bool, isMatch: int -> bool, k: nat)
    requires 0 < k <= |lines|
    ensures WantedLines(lines, wanted, isMatch, k)
         == WantedLines(lines, wanted, isMatch, k - 1)
            + if wanted(k) then [Line(k, isMatch(k), lines[k - 1])] else []
  {
  }

  /** Rows i - 1 and i belong together: neighbouring lines, or one of them is a separator with lines on both sides
      that are no neighbours. */
  predicate Together(rows: seq<Row>, i: int)
    requires 0 < i < |rows|
  {
    if rows[i].Separator? then rows[i - 1].Line? && i + 1 < |rows|
    else if rows[i - 1].Separator? then i > 1 && rows[i - 2].Line? && rows[i - 2].number + 1 < rows[i].number
    else rows[i - 1].number + 1 == rows[i].number
  }

  predicate Grouped(rows: seq<Row>) {
    (rows != [] ==> rows[0].Line?) && forall i :: 0 < i < |rows| ==> Together(rows, i)
  }

  /** The last row is the last wanted line up to k. */
  predicate EndsAt(rows: seq<Row>, wanted: int -> bool, k: nat) {
    if rows == [] then !wanted(k)
    else
      var last := rows[|rows| - 1];
      last.Line? && last.number <= k && (wanted(k) <==> last.number == k)
  }

  lemma NextTo(rows: seq<Row>, line: Row)
    requires Grouped(rows) && line.Line?
    requires rows != [] ==> rows[|rows| - 1].Line? && rows[|rows| - 1].number + 1 == line.number
    ensures Grouped(rows + [line])
  {
    var more := rows + [line];
    forall i | 0 < i < |more|
      ensures Together(more, i)
    {
      if i < |rows| {
        assert Together(rows, i);
      }
    }
  }

  lemma Beyond(rows: seq<Row>, line: Row)
    requires Grouped(rows) && line.Line? && rows != []
    requires rows[|rows| - 1].Line? && rows[|rows| - 1].number + 1 < line.number
    ensures Grouped(rows + [Separator] + [line])
  {
    var more := rows + [Separator] + [line];
    forall i | 0 < i < |more|
      ensures Together(more, i)
    {
      if i < |rows| {
        assert Together(rows, i);
      }
    }
  }

  /** Separators stand exactly between printed lines that do not follow one another. */
  lemma {:induction false} RowsGrouped(lines: seq<string>, wanted: int -> bool, isMatch: int -> bool, k: nat)
    requires k <= |lines| && !wanted(0)
    ensures var rows := Rows(lines, wanted, isMatch, k); Grouped(rows) && EndsAt(rows, wanted, k)
  {
    hide Grouped;
    if k == 0 {
      assert Grouped([]) by {
        NothingGrouped();
      }
    } else {
      RowsGrouped(lines, wanted, isMatch, k - 1);
      var rows := Rows(lines, wanted, isMatch, k - 1);
      if wanted(k) {
        var line := Line(k, isMatch(k), lines[k - 1]);
        if rows != [] && !wanted(k - 1) {
          Beyond(rows, line);
        } else {
          NextTo(rows, line);
          assert rows + [] + [line] == rows + [line];
        }
      }
    }
  }

  lemma NothingGrouped()
    ensures Grouped([])
  {
  }
}
