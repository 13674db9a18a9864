/** Strings as the program reads them: white space as Go's `strings.TrimSpace` sees it,
    and `strings.Split` / `strings.Join` on a one-character separator. */
module Text {

  /** The white space of Go's `unicode.IsSpace`. */
  predicate IsSpace(c: char) {
    c in "\t\n\U{000B}\U{000C}\r \U{0085}\U{00A0}\U{1680}\U{2028}\U{2029}\U{202F}\U{205F}\U{3000}"
    || '\U{2000}' <= c <= '\U{200A}'
  }

  function TrimLeft(s: string): string {
    if s != "" && IsSpace(s[0]) then TrimLeft(s[1..]) else s
  }

  function TrimRight(s: string): string {
    if s != "" && IsSpace(s[|s| - 1]) then TrimRight(s[..|s| - 1]) else s
  }

  function TrimSpace(s: string): string {
    TrimRight(TrimLeft(s))
  }

  predicate Blank(s: string) {
    forall c :: c in s ==> IsSpace(c)
  }

  lemma {:induction false} TrimLeftBlank(s: string)
    ensures TrimLeft(s) == "" <==> Blank(s)
    ensures TrimLeft(s) != "" ==> !IsSpace(TrimLeft(s)[0])
  {
    if s != "" && IsSpace(s[0]) {
      TrimLeftBlank(s[1..]);
      assert s == [s[0]] + s[1..];
    }
  }

  lemma {:induction false} TrimRightKeepsInk(s: string)
    requires s != "" && !IsSpace(s[0])
    ensures TrimRight(s) != ""
  {
    if IsSpace(s[|s| - 1]) {
      TrimRightKeepsInk(s[..|s| - 1]);
    }
  }

  /** Trimming leaves nothing exactly of a string of white space only. */
  lemma TrimSpaceEmptyIffBlank(s: string)
    ensures TrimSpace(s) == "" <==> Blank(s)
  {
    TrimLeftBlank(s);
    if TrimLeft(s) != "" {
      TrimRightKeepsInk(TrimLeft(s));
    }
  }

  lemma {:induction false} TrimLeftExact(s: string) returns (lead: string)
    ensures s == lead + TrimLeft(s) && Blank(lead)
  {
    hide IsSpace;
    lead := "";
    if s != "" && IsSpace(s[0]) {
      var c, rest := s[0], s[1..];
      var more := TrimLeftExact(rest);
      lead := [c] + more;
      assert s == [c] + rest == [c] + (more + TrimLeft(rest)) == lead + TrimLeft(rest);
    } else {
      assert lead + s == s;
    }
  }

  lemma {:induction false} TrimRightExact(s: string) returns (trail: string)
    ensures s == TrimRight(s) + trail && Blank(trail)
    ensures TrimRight(s) != "" ==> !IsSpace(TrimRight(s)[|TrimRight(s)| - 1])
  {
    hide IsSpace;
    trail := "";
    if s != "" && IsSpace(s[|s| - 1]) {
      var init, c := s[..|s| - 1], s[|s| - 1];
      var more := TrimRightExact(init);
      trail := more + [c];
      assert s == init + [c] == TrimRight(init) + more + [c] == TrimRight(init) + trail;
    } else {
      assert s + trail == s;
    }
  }

  /** Trimming takes white space off both ends, and nothing else, until there is none. */
  lemma TrimSpaceExact(s: string) returns (lead: string, trail: string)
    ensures var t := TrimSpace(s);
            && s == lead + t + trail && Blank(lead) && Blank(trail)
            && (t != "" ==> !IsSpace(t[0]) && !IsSpace(t[|t| - 1]))
  {
    hide IsSpace, Blank;
    lead := TrimLeftExact(s);
    TrimLeftBlank(s);
    var left := TrimLeft(s);
    trail := TrimRightExact(left);
    assert s == lead + (TrimRight(left) + trail);
  }

  /** And so what is between white space comes out as it is. */
  lemma TrimSpaceBetween(lead: string, s: string, trail: string)
    requires Blank(lead) && Blank(trail) && s != "" && !IsSpace(s[0]) && !IsSpace(s[|s| - 1])
    ensures TrimSpace(lead + s + trail) == s
  {
    hide IsSpace;
    assert lead + s + trail == lead + (s + trail);
    TrimLeftBehind(lead, s + trail);
    TrimRightBefore(s, trail);
  }

  lemma {:induction false} TrimLeftBehind(lead: string, s: string)
    requires Blank(lead) && s != "" && !IsSpace(s[0])
    ensures TrimLeft(lead + s) == s
  {
    hide IsSpace;
    if lead == "" {
      assert lead + s == s;
    } else {
      assert (lead + s)[0] == lead[0] && (lead + s)[1..] == lead[1..] + s;
      TrimLeftBehind(lead[1..], s);
    }
  }

  lemma {:induction false} TrimRightBefore(s: string, trail: string)
    requires Blank(trail) && s != "" && !IsSpace(s[|s| - 1])
    ensures TrimRight(s + trail) == s
    decreases |trail|
  {
    hide IsSpace;
    if trail == "" {
      assert s + trail == s;
    } else {
      var init := trail[..|trail| - 1];
      assert (s + trail)[..|s + trail| - 1] == s + init && (s + trail)[|s + trail| - 1] == trail[|trail| - 1];
      assert trail[|trail| - 1] in trail;
      TrimRightBefore(s, init);
    }
  }

  function Split(s: string, sep: char): (parts: seq<string>)
    ensures parts != []
  {
    if s == "" then [""]
    else
      var rest := Split(s[1..], sep);
      if s[0] == sep then [""] + rest else [[s[0]] + rest[0]] + rest[1..]
  }

  function Join(parts: seq<string>, sep: char): string {
    if parts == [] then ""
    else if |parts| == 1 then parts[0]
    else parts[0] + [sep] + Join(parts[1..], sep)
  }

  lemma {:induction false} JoinPrepend(c: char, parts: seq<string>, sep: char)
    requires parts != []
    ensures Join([[c] + parts[0]] + parts[1..], sep) == [c] + Join(parts, sep)
  {
    if |parts| > 1 {
      assert ([[c] + parts[0]] + parts[1..])[1..] == parts[1..];
    }
  }

  /** Splitting loses nothing: joining the parts gives the string back. */
  lemma {:induction false} JoinSplit(s: string, sep: char)
    ensures Join(Split(s, sep), sep) == s
  {
    if s != "" {
      JoinSplit(s[1..], sep);
      var rest := Split(s[1..], sep);
      if s[0] == sep {
        assert ([""] + rest)[1..] == rest;
      } else {
        JoinPrepend(s[0], rest, sep);
      }
    }
  }

  lemma {:induction false} SplitPartsFree(s: string, sep: char)
    ensures forall p :: p in Split(s, sep) ==> sep !in p
  {
    if s != "" {
      SplitPartsFree(s[1..], sep);
    }
  }

  lemma {:induction false} SplitUnbroken(s: string, sep: char)
    requires sep !in s
    ensures Split(s, sep) == [s]
  {
    if s != "" {
      SplitUnbroken(s[1..], sep);
      assert [s[0]] + s[1..] == s;
    }
  }

  lemma {:induction false} SplitAtSeparator(s: string, t: string, sep: char)
    requires sep !in s
    ensures Split(s + [sep] + t, sep) == [s] + Split(t, sep)
  {
    var w := s + [sep] + t;
    if s == "" {
      assert w[1..] == t;
    } else {
      assert w[1..] == s[1..] + [sep] + t;
      SplitAtSeparator(s[1..], t, sep);
      assert [s[0]] + s[1..] == s;
    }
  }

  /** Joining loses nothing either, as long as no part holds the separator. */
  lemma {:induction false} SplitJoin(parts: seq<string>, sep: char)
    requires parts != [] && forall p :: p in parts ==> sep !in p
    ensures Split(Join(parts, sep), sep) == parts
  {
    if |parts| == 1 {
      SplitUnbroken(parts[0], sep);
    } else {
      SplitJoin(parts[1..], sep);
      SplitAtSeparator(parts[0], Join(parts[1..], sep), sep);
    }
  }

  /** A separator between two strings keeps their parts apart. */
  lemma {:induction false} SplitBoth(s: string, t: string, sep: char)
    ensures Split(s + [sep] + t, sep) == Split(s, sep) + Split(t, sep)
  {
    hide Split;
    var w := s + [sep] + t;
    SplitFirst(w, sep);
    if s == "" {
      assert w[0] == sep && w[1..] == t;
      SplitUnbroken("", sep);
    } else {
      assert w[0] == s[0] && w[1..] == s[1..] + [sep] + t;
      SplitBoth(s[1..], t, sep);
      SplitFirst(s, sep);
      PartsBehind(s[0], Split(s[1..], sep), Split(t, sep), sep);
    }
  }

  lemma PartsBehind(c: char, rest: seq<string>, tail: seq<string>, sep: char)
    requires rest != []
    ensures [""] + (rest + tail) == [""] + rest + tail
    ensures [[c] + (rest + tail)[0]] + (rest + tail)[1..] == [[c] + rest[0]] + rest[1..] + tail
  {
    assert (rest + tail)[0] == rest[0] && (rest + tail)[1..] == rest[1..] + tail;
  }

  lemma SplitFirst(s: string, sep: char)
    requires s != ""
    ensures var rest := Split(s[1..], sep);
            Split(s, sep) == if s[0] == sep then [""] + rest else [[s[0]] + rest[0]] + rest[1..]
  {
  }
}
