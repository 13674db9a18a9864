/** Globstar matching of relative paths, segment by segment. How one segment matches one pattern segment (false on
    a malformed pattern) is a parameter. */
module GlobMatch {
  import opened Text

  type SegMatch = (string, string) -> bool

  const STAR: string := "**"

  // ---------------------------------------------------------------- what a match is

  /** The path falls into one run of segments per pattern segment: any run for a globstar, a single matching
      segment for every other. */
  predicate Fits(pat: seq<string>, runs: seq<seq<string>>, m: SegMatch) {
    |runs| == |pat| &&
    forall i :: 0 <= i < |pat| ==> pat[i] == STAR || (|runs[i]| == 1 && m(pat[i], runs[i][0]))
  }

  function Flat(runs: seq<seq<string>>): seq<string> { if runs == [] then [] else runs[0] + Flat(runs[1..]) }

  ghost predicate Matches(pat: seq<string>, path: seq<string>, m: SegMatch) {
    exists runs :: Fits(pat, runs, m) && Flat(runs) == path
  }

  lemma MatchesNothing(path: seq<string>, m: SegMatch)
    ensures Matches([], path, m) <==> path == []
  {
    if path == [] {
      assert Fits([], [], m) && Flat([]) == path;
    }
  }

  lemma MatchesBehind(pat: seq<string>, run: seq<string>, rest: seq<string>, m: SegMatch)
    requires pat != [] && (pat[0] == STAR || (|run| == 1 && m(pat[0], run[0]))) && Matches(pat[1..], rest, m)
    ensures Matches(pat, run + rest, m)
  {
    var runs :| Fits(pat[1..], runs, m) && Flat(runs) == rest;
    var all := [run] + runs;
    assert all[1..] == runs;
    forall i | 0 <= i < |pat|
      ensures pat[i] == STAR || (|all[i]| == 1 && m(pat[i], all[i][0]))
    {
      if i > 0 {
        assert pat[i] == pat[1..][i - 1] && all[i] == runs[i - 1];
      }
    }
    assert Fits(pat, all, m) && Flat(all) == run + rest;
  }

  lemma MatchesFirst(pat: seq<string>, path: seq<string>, m: SegMatch) returns (n: nat)
    requires pat != [] && Matches(pat, path, m)
    ensures n <= |path| && Matches(pat[1..], path[n..], m)
    ensures pat[0] != STAR ==> n == 1 && m(pat[0], path[0])
  {
    var runs :| Fits(pat, runs, m) && Flat(runs) == path;
    n := |runs[0]|;
    assert path == runs[0] + Flat(runs[1..]);
    assert path[n..] == Flat(runs[1..]);
    forall i | 0 <= i < |pat[1..]|
      ensures pat[1..][i] == STAR || (|runs[1..][i]| == 1 && m(pat[1..][i], runs[1..][i][0]))
    {
      assert pat[1..][i] == pat[i + 1] && runs[1..][i] == runs[i + 1];
    }
    assert Fits(pat[1..], runs[1..], m);
  }

  // ---------------------------------------------------------------- the matcher

  /** Tries every cut for a globstar, and matches all other segments one by one. */
  method MatchGlobSegments(pattern: seq<string>, segs: seq<string>, m: SegMatch) returns (matched: bool)
    ensures matched <==> Matches(pattern, segs, m)
    decreases |pattern|
  {
    var pat, path := pattern, segs;
    while |pat| > 0
      invariant |pat| <= |pattern|
      invariant Matches(pattern, segs, m) <==> Matches(pat, path, m)
      decreases |pat|
    {
      if pat[0] == STAR {
        var rest := pat[1..];
        for i := 0 to |path| + 1
          invariant forall j :: 0 <= j < i ==> !Matches(rest, path[j..], m)
        {
          var found := MatchGlobSegments(rest, path[i..], m);
          if found {
            MatchesBehind(pat, path[..i], path[i..], m);
            assert path[..i] + path[i..] == path;
            return true;
          }
        }
        if Matches(pat, path, m) {
          var n := MatchesFirst(pat, path, m);
          assert false;
        }
        return false;
      }
      if |path| == 0 || !m(pat[0], path[0]) {
        if Matches(pat, path, m) {
          var n := MatchesFirst(pat, path, m);
          assert false;
        }
        return false;
      }
      if Matches(pat, path, m) {
        var n := MatchesFirst(pat, path, m);
      }
      if Matches(pat[1..], path[1..], m) {
        MatchesBehind(pat, [path[0]], path[1..], m);
        assert [path[0]] + path[1..] == path;
      }
      pat, path := pat[1..], path[1..];
    }
    MatchesNothing(path, m);
    matched := |path| == 0;
  }

  // ---------------------------------------------------------------- compiling a pattern

  function Kept(parts: seq<string>): seq<string> {
    if parts == [] then []
    else
      var last := parts[|parts| - 1];
      Kept(parts[..|parts| - 1]) + if last == "" || last == "." then [] else [last]
  }

  predicate EndsInStar(segs: seq<string>) { segs != [] && segs[|segs| - 1] == STAR }

  function Collapsed(segs: seq<string>): seq<string> {
    if segs == [] then []
    else
      var init, last := Collapsed(segs[..|segs| - 1]), segs[|segs| - 1];
      if last == STAR && EndsInStar(init) then init else init + [last]
  }

  function Slashed(s: string): string { seq(|s|, i requires 0 <= i < |s| => if s[i] == '\\' then '/' else s[i]) }

  function Unprefixed(s: string, prefix: string): string { if prefix <= s then s[|prefix|..] else s }

  /** The segments a pattern is written in, separators unified and empty ones dropped. */
  function Segments(pattern: string): seq<string> {
    Kept(Split(Unprefixed(Slashed(TrimSpace(pattern)), "./"), '/'))
  }

  lemma {:induction false} SlashedLeft(s: string)
    ensures Slashed(TrimLeft(s)) == TrimLeft(Slashed(s))
  {
    if s != "" && IsSpace(s[0]) {
      SlashedLeft(s[1..]);
      assert Slashed(s)[1..] == Slashed(s[1..]);
    }
  }

  lemma {:induction false} SlashedRight(s: string)
    ensures Slashed(TrimRight(s)) == TrimRight(Slashed(s))
  {
    if s != "" && IsSpace(s[|s| - 1]) {
      SlashedRight(s[..|s| - 1]);
      assert Slashed(s)[..|s| - 1] == Slashed(s[..|s| - 1]);
    }
  }

  /** Backslashes are separators like slashes. */
  lemma BackslashesSeparate(p: string, q: string)
    requires |p| == |q| && forall k :: 0 <= k < |p| ==> q[k] == if p[k] == '\\' then '/' else p[k]
    ensures Segments(p) == Segments(q)
  {
    hide IsSpace;
    SlashedLeft(p);
    SlashedRight(TrimLeft(p));
    SlashedLeft(q);
    SlashedRight(TrimLeft(q));
    assert Slashed(p) == q == Slashed(q);
  }

  /** A segment as it can stand in a pattern: not empty, no separators, not the dot alone. */
  predicate Proper(seg: string) { seg != "" && seg != "." && '/' !in seg && '\\' !in seg }

  predicate AllProper(segs: seq<string>) { forall k :: 0 <= k < |segs| ==> Proper(segs[k]) }

  /** A pattern written from segments compiles to these, white space around it and a leading `./` aside. */
  lemma SegmentsOf(lead: string, segs: seq<string>, trail: string)
    requires segs != [] && AllProper(segs) && Blank(lead) && Blank(trail)
    requires !IsSpace(segs[0][0]) && !IsSpace(segs[|segs| - 1][|segs[|segs| - 1]| - 1])
    ensures Segments(lead + Join(segs, '/') + trail) == segs
    ensures Segments(lead + ("./" + Join(segs, '/')) + trail) == segs
  {
    hide IsSpace, Blank, Segments, Split, Join, Kept;
    var p := Join(segs, '/');
    JoinEnds(segs);
    JoinChars(segs);
    DotIsNoSpace();
    WithoutSpace(lead, p, trail);
    WithoutSpace(lead, "./" + p, trail);
    NoDotFirst(segs[0], p);
    assert ("./" + p)[2..] == p;
    assert forall seg :: seg in segs ==> Proper(seg);
    SplitJoin(segs, '/');
    KeptProper(segs);
  }

  lemma NoDotFirst(seg: string, p: string)
    requires Proper(seg) && |seg| <= |p| && p[0] == seg[0] && (|seg| > 1 ==> p[1] == seg[1])
    ensures !("./" <= p)
  {
    assert |seg| == 1 && seg[0] == '.' ==> seg == ".";
    assert |seg| > 1 ==> seg[1] != '/';
  }

  lemma WithoutSpace(lead: string, p: string, trail: string)
    requires p != "" && !IsSpace(p[0]) && !IsSpace(p[|p| - 1]) && '\\' !in p && Blank(lead) && Blank(trail)
    ensures Segments(lead + p + trail) == Kept(Split(Unprefixed(p, "./"), '/'))
  {
    hide IsSpace, Blank, Split, Kept;
    TrimSpaceBetween(lead, p, trail);
    assert Slashed(p) == p;
  }

  /** No compiled segment is empty, the dot alone, or has a separator. */
  lemma SegmentsProper(pattern: string, seg: string)
    requires seg in Segments(pattern)
    ensures seg != "" && seg != "." && '/' !in seg
  {
    hide Slashed, TrimSpace, Unprefixed, Split;
    var cleaned := Unprefixed(Slashed(TrimSpace(pattern)), "./");
    SplitPartsFree(cleaned, '/');
    KeptFrom(Split(cleaned, '/'), seg);
  }

  lemma {:induction false} KeptFrom(parts: seq<string>, seg: string)
    requires seg in Kept(parts)
    ensures seg in parts && seg != "" && seg != "."
  {
    var init, last := parts[..|parts| - 1], parts[|parts| - 1];
    assert parts == init + [last];
    if seg in Kept(init) {
      KeptFrom(init, seg);
    }
  }

  lemma DotIsNoSpace()
    ensures !IsSpace('.')
  {
  }

  lemma {:induction false} KeptProper(segs: seq<string>)
    requires AllProper(segs)
    ensures Kept(segs) == segs
  {
    if segs != [] {
      KeptProper(segs[..|segs| - 1]);
    }
  }

  lemma {:induction false} JoinEnds(segs: seq<string>)
    requires segs != [] && AllProper(segs)
    ensures var p, last := Join(segs, '/'), segs[|segs| - 1];
            && p != "" && p[0] == segs[0][0] && p[|p| - 1] == last[|last| - 1]
            && |segs[0]| <= |p| && (|segs[0]| > 1 ==> p[1] == segs[0][1])
  {
    hide Join;
    if |segs| == 1 {
      JoinOne(segs);
    } else {
      JoinEnds(segs[1..]);
      JoinMore(segs);
      Between(segs[0], Join(segs[1..], '/'));
      assert segs[1..][|segs| - 2] == segs[|segs| - 1];
    }
  }

  lemma JoinOne(segs: seq<string>)
    requires |segs| == 1
    ensures Join(segs, '/') == segs[0]
  {
  }

  lemma JoinMore(segs: seq<string>)
    requires |segs| > 1
    ensures Join(segs, '/') == segs[0] + ['/'] + Join(segs[1..], '/')
  {
  }

  lemma Between(a: string, b: string)
    requires a != "" && b != ""
    ensures var p := a + ['/'] + b;
            p[0] == a[0] && p[|p| - 1] == b[|b| - 1] && |a| <= |p| && (|a| > 1 ==> p[1] == a[1])
  {
  }

  lemma {:induction false} JoinChars(segs: seq<string>)
    requires AllProper(segs)
    ensures '\\' !in Join(segs, '/')
  {
    if |segs| > 1 {
      JoinChars(segs[1..]);
    }
  }

  method CompileGlobPattern(pattern: string) returns (segs: seq<string>)
    ensures segs == Collapsed(Segments(pattern))
  {
    hide Slashed, TrimSpace, Unprefixed, Split, Kept, Collapsed;
    NothingKept();
    var cleaned := Slashed(TrimSpace(pattern));
    cleaned := Unprefixed(cleaned, "./");
    var parts := Split(cleaned, '/');
    segs := [];
    for i := 0 to |parts|
      invariant segs == Collapsed(Kept(parts[..i]))
    {
      var s := parts[i];
      KeptSnoc(parts[..i], s);
      assert parts[..i] + [s] == parts[..i + 1];
      KeptThenCollapsed(Kept(parts[..i]), s);
      if s == "" || s == "." {
        continue;
      }
      if s == STAR && |segs| > 0 && segs[|segs| - 1] == STAR {
        continue;
      }
      segs := segs + [s];
    }
    assert parts[..|parts|] == parts;
  }

  lemma NothingKept()
    ensures Kept([]) == [] && Collapsed([]) == []
  {
  }

  lemma KeptSnoc(parts: seq<string>, s: string)
    ensures Kept(parts + [s]) == if s == "" || s == "." then Kept(parts) else Kept(parts) + [s]
  {
    assert (parts + [s])[..|parts|] == parts;
    assert Kept(parts) + [] == Kept(parts);
  }

  lemma KeptThenCollapsed(segs: seq<string>, s: string)
    ensures Collapsed(segs + [s])
         == if s == STAR && EndsInStar(Collapsed(segs)) then Collapsed(segs) else Collapsed(segs) + [s]
  {
    assert (segs + [s])[..|segs|] == segs;
  }

  predicate Apart(segs: seq<string>) { forall i :: 0 < i < |segs| && segs[i] == STAR ==> segs[i - 1] != STAR }

  lemma {:induction false} CollapsedApart(segs: seq<string>)
    ensures Apart(Collapsed(segs))
  {
    if segs != [] {
      var init, last := Collapsed(segs[..|segs| - 1]), segs[|segs| - 1];
      CollapsedApart(segs[..|segs| - 1]);
      ApartSnoc(init, last);
    }
  }

  lemma ApartSnoc(init: seq<string>, last: string)
    requires Apart(init)
    ensures !(last == STAR && EndsInStar(init)) ==> Apart(init + [last])
  {
  }

  lemma DoubleStarFirst(back: seq<string>, path: seq<string>, m: SegMatch)
    ensures Matches([STAR] + ([STAR] + back), path, m) <==> Matches([STAR] + back, path, m)
  {
    hide Matches;
    var once := [STAR] + back;
    var twice := [STAR] + once;
    assert twice[1..] == once && once[1..] == back;
    if Matches(twice, path, m) {
      var n := MatchesFirst(twice, path, m);
      var k := MatchesFirst(once, path[n..], m);
      assert path[n..][k..] == path[n + k..];
      MatchesBehind(once, path[..n + k], path[n + k..], m);
      assert path[..n + k] + path[n + k..] == path;
    }
    if Matches(once, path, m) {
      MatchesBehind(twice, [], path, m);
      assert [] + path == path;
    }
  }

  /** Patterns that match alike go on to do so behind one more segment. */
  lemma MatchesAlike(first: string, pat: seq<string>, other: seq<string>, path: seq<string>, m: SegMatch)
    requires forall n :: 0 <= n <= |path| && Matches(pat, path[n..], m) ==> Matches(other, path[n..], m)
    ensures Matches([first] + pat, path, m) ==> Matches([first] + other, path, m)
  {
    hide Matches;
    assert ([first] + pat)[1..] == pat && ([first] + other)[1..] == other;
    if Matches([first] + pat, path, m) {
      var n := MatchesFirst([first] + pat, path, m);
      MatchesBehind([first] + other, path[..n], path[n..], m);
      assert path[..n] + path[n..] == path;
    }
  }

  /** Two globstars in a row match what one does, wherever they stand. */
  lemma {:induction false} DoubleStar(front: seq<string>, back: seq<string>, path: seq<string>, m: SegMatch)
    ensures Matches(front + ([STAR] + ([STAR] + back)), path, m) <==> Matches(front + ([STAR] + back), path, m)
    decreases |front|
  {
    hide Matches;
    var twice, once := [STAR] + ([STAR] + back), [STAR] + back;
    if front == [] {
      DoubleStarFirst(back, path, m);
      assert [] + twice == twice && [] + once == once;
    } else {
      var rest := front[1..];
      forall n | 0 <= n <= |path|
        ensures Matches(rest + twice, path[n..], m) <==> Matches(rest + once, path[n..], m)
      {
        DoubleStar(rest, back, path[n..], m);
      }
      MatchesAlike(front[0], rest + twice, rest + once, path, m);
      MatchesAlike(front[0], rest + once, rest + twice, path, m);
      assert front + twice == [front[0]] + (rest + twice) && front + once == [front[0]] + (rest + once);
    }
  }

  lemma {:induction false} CollapsedMatches(segs: seq<string>, back: seq<string>, path: seq<string>, m: SegMatch)
    ensures Matches(Collapsed(segs) + back, path, m) <==> Matches(segs + back, path, m)
    decreases |segs|
  {
    hide Matches;
    if segs != [] {
      var init, last := segs[..|segs| - 1], segs[|segs| - 1];
      var front := Collapsed(init);
      CollapsedMatches(init, [last] + back, path, m);
      assert init + ([last] + back) == segs + back;
      assert front + ([last] + back) == front + [last] + back;
      if last == STAR && EndsInStar(front) {
        var body := front[..|front| - 1];
        assert front == body + [STAR];
        DoubleStar(body, back, path, m);
        assert front + [last] + back == body + ([STAR] + ([STAR] + back)) && front + back == body + ([STAR] + back);
      }
    }
  }

  /** Compiling changes no match: the compiled pattern has no two globstars in a row, and matches exactly the
      paths that the pattern as written matches. */
  lemma CompiledMatches(pattern: string, path: seq<string>, m: SegMatch)
    ensures Matches(Collapsed(Segments(pattern)), path, m) <==> Matches(Segments(pattern), path, m)
    ensures Apart(Collapsed(Segments(pattern)))
  {
    var segs := Segments(pattern);
    CollapsedApart(segs);
    CollapsedMatches(segs, [], path, m);
    assert Collapsed(segs) + [] == Collapsed(segs) && segs + [] == segs;
  }

  // ---------------------------------------------------------------- splitting a path

  function Slashes(s: string): nat { if s == "" then 0 else (if s[0] == '/' then 1 else 0) + Slashes(s[1..]) }

  lemma {:induction false} SplitCounts(s: string)
    ensures |Split(s, '/')| == Slashes(s) + 1
  {
    if s != "" {
      SplitCounts(s[1..]);
    }
  }

  function IndexOf(s: string, c: char): (at: int)
    ensures -1 <= at < |s| && (at == -1 <==> c !in s) && (at >= 0 ==> s[at] == c && c !in s[..at])
  {
    if s == "" then -1
    else if s[0] == c then 0
    else
      var at := IndexOf(s[1..], c);
      assert s == [s[0]] + s[1..];
      assert at >= 0 ==> s[..at + 1] == [s[0]] + s[1..][..at];
      if at == -1 then -1 else at + 1
  }

  /** A path whose last segment is never written: it is empty, or ends in a separator. */
  predicate LeavesLast(rel: string) { rel == "" || rel[|rel| - 1] == '/' }

  lemma {:induction false} LastIsEmpty(rel: string)
    ensures LeavesLast(rel) <==> Split(rel, '/')[|Split(rel, '/')| - 1] == ""
  {
    if |rel| > 1 {
      LastIsEmpty(rel[1..]);
      assert rel[1..][|rel[1..]| - 1] == rel[|rel| - 1];
    }
  }

  /** The segments of `rel` in a buffer that is used again and again; a path too deep for it is split afresh. What
      comes out is the plain split, but for a last segment that is left as the buffer had it. */
  method SplitPathSegs(rel: string, buf: array<string>) returns (segs: seq<string>)
    modifies buf
    ensures var plain := Split(rel, '/');
            segs == if |plain| <= buf.Length && LeavesLast(rel)
                    then plain[..|plain| - 1] + [old(buf[..])[|plain| - 1]] else plain
  {
    hide IndexOf, Slashes;
    var n := Slashes(rel) + 1;
    SplitCounts(rel);
    LastIsEmpty(rel);
    SplitUnbroken("", '/');
    if n > buf.Length {
      return Split(rel, '/');
    }
    hide Split, LeavesLast;
    ghost var plain, before := Split(rel, '/'), buf[..];
    var i, rest := 0, rel;
    while |rest| > 0
      invariant i <= n == |plain|
      invariant i < n ==> plain[i..] == Split(rest, '/')
      invariant i == n ==> rest == "" && plain[n - 1] != ""
      invariant buf[..i] == plain[..i] && buf[i..] == before[i..]
      decreases |rest|
    {
      var at := IndexOf(rest, '/');
      SplitStep(rest, at);
      ghost var held := buf[..];
      var segment := if at >= 0 then rest[..at] else rest;
      NextPart(plain, i, segment);
      buf[i] := segment;
      Filled(held, buf[..], plain, before, i);
      rest := if at >= 0 then rest[at + 1..] else "";
      i := i + 1;
    }
    segs := buf[..n];
    if i < n {
      assert plain[i..] == [""] && i == n - 1;
      assert segs == buf[..i] + [buf[i..][0]];
    } else {
      assert segs == plain;
    }
  }

  lemma NextPart(plain: seq<string>, i: nat, segment: string)
    requires i < |plain| && plain[i..][0] == segment
    ensures plain[i] == segment && plain[i + 1..] == plain[i..][1..]
  {
  }

  /** One more segment in the buffer. */
  lemma Filled(held: seq<string>, filled: seq<string>, plain: seq<string>, before: seq<string>, i: nat)
    requires i < |plain| <= |held| == |before| && filled == held[i := plain[i]]
    requires held[..i] == plain[..i] && held[i..] == before[i..]
    ensures filled[..i + 1] == plain[..i + 1] && filled[i + 1..] == before[i + 1..]
  {
    assert forall k :: i < k < |held| ==> filled[k] == held[i..][k - i] == before[i..][k - i];
    assert forall k :: 0 <= k < i ==> filled[k] == held[..i][k] == plain[..i][k];
  }

  lemma SplitStep(rest: string, at: int)
    requires rest != "" && at == IndexOf(rest, '/')
    ensures at >= 0 ==> Split(rest, '/') == [rest[..at]] + Split(rest[at + 1..], '/')
                        && (LeavesLast(rest) <==> LeavesLast(rest[at + 1..]))
    ensures at < 0 ==> Split(rest, '/') == [rest] && !LeavesLast(rest)
  {
    if at >= 0 {
      assert rest == rest[..at] + ['/'] + rest[at + 1..];
      SplitAtSeparator(rest[..at], rest[at + 1..], '/');
    } else {
      SplitUnbroken(rest, '/');
    }
  }

  /** Splitting into a used buffer is plain splitting exactly if the path fills its last segment, is too deep for
      the buffer, or finds the empty segment there by chance. */
  lemma StaleSegment(rel: string, before: seq<string>, segs: seq<string>)
    requires var plain := Split(rel, '/');
             segs == if |plain| <= |before| && LeavesLast(rel)
                     then plain[..|plain| - 1] + [before[|plain| - 1]] else plain
    ensures segs == Split(rel, '/') <==>
            |Split(rel, '/')| > |before| || !LeavesLast(rel) || before[|Split(rel, '/')| - 1] == ""
  {
    LastIsEmpty(rel);
    var plain := Split(rel, '/');
    assert plain == plain[..|plain| - 1] + [plain[|plain| - 1]];
  }

  // ---------------------------------------------------------------- one file

  function LastOrSelf(pat: seq<string>): string { if pat == [] then "*" else pat[|pat| - 1] }

  method MatchGlobEntry(pat: seq<string>, prefix: string, path: string, baseName: string, buf: array<string>,
                        m: SegMatch)
    returns (matched: bool)
    modifies buf
    ensures prefix == "" ==> (matched <==> m(LastOrSelf(pat), baseName))
    ensures prefix != "" && !LeavesLast(Unprefixed(path, prefix)) ==>
              (matched <==> Matches(pat, Split(Unprefixed(path, prefix), '/'), m))
  {
    if prefix == "" {
      return m(LastOrSelf(pat), baseName);
    }
    var rel := Unprefixed(path, prefix);
    var segs := SplitPathSegs(rel, buf);
    matched := MatchGlobSegments(pat, segs, m);
  }

  /** A file below the searched directory: its path relative to it, in segments, decides, whatever the buffer held. */
  lemma RelativePath(dir: string, segs: seq<string>)
    requires segs != [] && forall s :: s in segs ==> s != "" && '/' !in s
    ensures var rel := Unprefixed(dir + "/" + Join(segs, '/'), dir + "/");
            Split(rel, '/') == segs && !LeavesLast(rel)
  {
    var rel := Join(segs, '/');
    assert Unprefixed(dir + "/" + rel, dir + "/") == rel;
    SplitJoin(segs, '/');
    LastIsEmpty(rel);
    assert segs[|segs| - 1] in segs;
  }
}
