/** What is in a file: after a write, an edit, a reading, and after whole runs of them. */
module FileContents {
  import opened Wrappers
  import opened EditMatching
  import opened FileState
  import opened FileStateSafety

  // ---------------------------------------------------------------- one operation

  /** What a file holds before it is written to; nothing, if there is none. */
  function Before(d: Desk, path: string): string { if path in d.files then d.files[path].content else "" }

  /** The file holds this since `now`, and every other file is as it was. */
  predicate Holds(d: Desk, t: Desk, path: string, content: string, now: int) {
    t.files == d.files[path := File(content, now)]
  }

  predicate RecordedAs(t: Desk, path: string, content: string, now: int) {
    path in t.table.entries && t.table.entries[path] == Stale(now, content)
  }

  /** A write leaves the very text it was given, and records it; an appending one leaves the old text, closed by a
      newline if it lacks one, and the new one behind it, and records nothing; a refused one changes nothing. */
  lemma WriteLeaves(d: Desk, path: string, content: string, append: bool, now: int)
    ensures var (t, outcome) := AfterWrite(d, path, content, append, now);
            && (outcome == Overwritten || outcome == New ==>
                  Holds(d, t, path, content, now) && RecordedAs(t, path, content, now))
            && (outcome == Appended ==>
                  var old_ := Before(d, path);
                  Holds(d, t, path, old_ + (if old_ == "" || old_[|old_| - 1] == '\n' then "" else "\n") + content, now)
                  && t.table == d.table)
            && (outcome.Refused? ==> t == d) && t.cache == d.cache
            && (outcome == Appended <==> append)
            && (outcome == New <==> !append && path !in d.files)
            && (outcome.Refused? <==> !append && path in d.files && Check(d.files, d.table, path) != Fresh)
  {
    hide Check;
    var old_ := Before(d, path);
    assert AppendedText(d.files, path, content)
        == old_ + (if old_ == "" || EndsInNewline(old_) then "" else "\n") + content by {
      assert "" + "" + content == content && old_ + "" == old_;
    }
  }

  /** An edit leaves its own text in an empty file it fills, and forgets the record of it; a successful one leaves the
      file as it was but for the replaced occurrences, and records that; any other outcome changes no file. */
  lemma EditLeaves(d: Desk, path: string, e: Edit, now: int)
    ensures var (t, outcome) := AfterEdit(d, path, e, now);
            && (outcome == Created <==> path in d.files && d.files[path].content == "" && e.named == "")
            && (outcome == Created ==> Holds(d, t, path, e.text, now) && path !in t.table.entries)
            && (outcome.Edited? ==>
                  var content := Before(d, path);
                  && path in d.files && FindEditMatch(content, e.named).Some?
                  && var actual := FindEditMatch(content, e.named).value;
                     var pieces := Cut(content, actual, Asked(e, Count(content, actual)));
                     Glued(pieces, actual) == content
                     && Holds(d, t, path, Glued(pieces, e.text), now)
                     && RecordedAs(t, path, Glued(pieces, e.text), now))
            && (!outcome.Edited? && outcome != Created ==> t.files == d.files) && t.cache == d.cache
  {
    hide Check, Checked, FindEditMatch, Count, Replaced, Cut, Glued, Occurrences;
    if AfterEdit(d, path, e, now).1.Edited? {
      var content := d.files[path].content;
      var actual := FindEditMatch(content, e.named).value;
      ReplacedIsGlued(content, actual, e.text, Asked(e, Count(content, actual)));
    }
  }

  /** How many occurrences a successful edit replaces, of how many: as many as it was asked for, if there are so many.
      It says so, too, but for -1, where it counts the new text's occurrences in the new file. */
  lemma EditCounts(d: Desk, path: string, e: Edit, now: int)
    requires AfterEdit(d, path, e, now).1.Edited?
    ensures var outcome := AfterEdit(d, path, e, now).1;
            && outcome.total > 0
            && (e.limit > 0 ==> outcome.count == if e.limit < outcome.total then e.limit else outcome.total)
            && (e.limit == 0 && e.replaceAll ==> outcome.count == outcome.total)
            && (e.limit == 0 && !e.replaceAll ==> outcome.count == outcome.total == 1)
            && e.limit >= -1 && (e.limit == -1 ==> e.replaceAll || outcome.total == 1)
            && path in d.files && FindEditMatch(d.files[path].content, e.named).Some?
            && var actual := FindEditMatch(d.files[path].content, e.named).value;
               var pieces := Cut(d.files[path].content, actual, Asked(e, Count(d.files[path].content, actual)));
               |pieces| - 1 == if 0 < e.limit < outcome.total then e.limit
                               else if e.limit != 0 || e.replaceAll then outcome.total else 1
  {
    hide Check, Checked, FindEditMatch, Count, Replaced, Occurrences;
    EditGlues(d, path, e, now);
  }

  /** A reading changes no file; what it shows is what the file holds. It shows it exactly if the window fits and is not
      cached under the file's time, and remembers that it did. */
  lemma ReadShows(d: Desk, key: ReadKey, fits: bool)
    ensures var (t, outcome) := AfterRead(d, key, fits);
            && t.files == d.files
            && (outcome == FileState.NoFile <==> key.path !in d.files)
            && (outcome.Content? <==> key.path in d.files && fits && !Cached(d, key))
            && (outcome.Content? ==>
                  && outcome.text == d.files[key.path].content && Cached(t, key)
                  && RecordedAs(t, key.path, d.files[key.path].content, d.files[key.path].mtime))
            && (!outcome.Content? ==> t == d)
  {
  }

  /** The verdict on a file that is to be changed: not read, gone, changed, or fresh, which is the file's recorded time
      or its recorded content. A fresh one is recorded with its own time from then on, and nothing else is touched. */
  lemma VerdictExact(d: Desk, path: string)
    ensures var verdict := Check(d.files, d.table, path); var t := Checked(d.files, d.table, path);
            && (verdict == NotRead <==> path !in d.table.entries)
            && (verdict == Gone <==> path in d.table.entries && path !in d.files)
            && (verdict == Fresh <==>
                  path in d.table.entries && path in d.files
                  && (d.files[path].mtime == d.table.entries[path].mtime
                      || d.files[path].content == d.table.entries[path].content))
            && (verdict != Fresh ==> t == d.table) && t.count == d.table.count
            && (verdict == Fresh ==>
                  && t.entries.Keys == d.table.entries.Keys && t.entries[path].mtime == d.files[path].mtime
                  && t.entries[path].content == d.table.entries[path].content
                  && forall other :: other in t.entries && other != path ==> t.entries[other] == d.table.entries[other])
  {
  }

  /** Why an edit does not go through: the file is missing; it is not empty and the edit names nothing; the verdict on
      it; the text is not there, even up to quotes; it is there more than once and neither all nor a number is asked
      for; or the number is below -1. */
  lemma EditRefused(d: Desk, path: string, e: Edit, now: int)
    ensures var outcome := AfterEdit(d, path, e, now).1;
            && (outcome == Missing <==> path !in d.files)
            && (outcome == NothingNamed <==> path in d.files && d.files[path].content != "" && e.named == "")
            && (outcome.Stalled? <==>
                  path in d.files && e.named != "" && Check(d.files, d.table, path) != Fresh)
            && (outcome.Stalled? ==> outcome.verdict == Check(d.files, d.table, path))
            && (outcome == NoMatch <==>
                  path in d.files && e.named != "" && Check(d.files, d.table, path) == Fresh
                  && !Contains(Normalized(d.files[path].content), Normalized(e.named)))
            && (outcome.Ambiguous? ==> outcome.total > 1 && !e.replaceAll && e.limit <= 0)
            && (outcome == BadLimit ==> e.limit < -1)
  {
    hide Check, Checked, FindEditMatch, Count, Replaced, Occurrences, Contains, Normalized;
    if path in d.files && e.named != "" {
      MatchExact(d.files[path].content, e.named);
    }
  }

  // ---------------------------------------------------------------- runs

  /** The event puts something into this file, or takes it away. */
  predicate Changes(d: Desk, e: Event, path: string) {
    match e
    case Reading(_, _) => false
    case Editing(p, edit, now) =>
      p == path && (AfterEdit(d, p, edit, now).1.Edited? || AfterEdit(d, p, edit, now).1 == Created)
    case Writing(p, content, append, now) => p == path && !AfterWrite(d, p, content, append, now).1.Refused?
    case Outside(p, _, _) => p == path
    case Removal(p) => p == path
  }

  function InFile(d: Desk, path: string): Option<File> { if path in d.files then Some(d.files[path]) else None }

  lemma OnlyChanges(d: Desk, e: Event, path: string)
    requires !Changes(d, e, path)
    ensures InFile(Apply(d, e), path) == InFile(d, path)
  {
    hide AfterEdit, AfterWrite, AfterRead;
    match e
    case Reading(key, fits) => ReadShows(d, key, fits);
    case Editing(p, edit, now) => EditLeaves(d, p, edit, now);
    case Writing(p, content, append, now) => WriteLeaves(d, p, content, append, now);
    case Outside(_, _, _) =>
    case Removal(_) =>
  }

  predicate NoneChanges(d: Desk, es: seq<Event>, path: string)
    decreases |es|
  {
    es == [] || (!Changes(d, es[0], path) && NoneChanges(Apply(d, es[0]), es[1..], path))
  }

  lemma {:induction false} NothingChanges(d: Desk, es: seq<Event>, path: string)
    requires NoneChanges(d, es, path)
    ensures InFile(Run(d, es), path) == InFile(d, path)
    decreases |es|
  {
    hide Changes, Apply;
    if es != [] {
      OnlyChanges(d, es[0], path);
      NothingChanges(Apply(d, es[0]), es[1..], path);
    }
  }

  lemma {:induction false} RunAppend(d: Desk, a: seq<Event>, b: seq<Event>)
    ensures Run(d, a + b) == Run(Run(d, a), b)
    decreases |a|
  {
    hide Apply;
    if a == [] {
      assert a + b == b;
    } else {
      assert (a + b)[0] == a[0] && (a + b)[1..] == a[1..] + b;
      RunAppend(Apply(d, a[0]), a[1..], b);
    }
  }

  /** What one event that changes a file puts there; None if it takes the file away. */
  function Puts(d: Desk, e: Event, path: string): Option<File> {
    match e
    case Outside(_, content, now) => Some(File(content, now))
    case Removal(_) => None
    case Writing(_, content, append, now) =>
      var old_ := Before(d, path);
      Some(File(if !append then content
                else old_ + (if old_ == "" || old_[|old_| - 1] == '\n' then "" else "\n") + content, now))
    case Editing(_, edit, now) =>
      var content := Before(d, path);
      var actual := FindEditMatch(content, edit.named);
      Some(File(if edit.named == "" || actual.None? || actual.value == "" then edit.text
                else Glued(Cut(content, actual.value, Asked(edit, Count(content, actual.value))), edit.text), now))
    case Reading(_, _) => None
  }

  lemma ChangePuts(d: Desk, e: Event, path: string)
    requires Changes(d, e, path)
    ensures InFile(Apply(d, e), path) == Puts(d, e, path)
  {
    match e
    case Editing(p, edit, now) =>
      EditLeaves(d, p, edit, now);
      NamedIsFound(d, p, edit, now);
      hide AfterEdit, FindEditMatch, Cut, Glued, Count;
    case Writing(p, content, append, now) =>
      WriteLeaves(d, p, content, append, now);
      hide AfterWrite;
    case _ =>
  }

  lemma NamedIsFound(d: Desk, path: string, e: Edit, now: int)
    ensures AfterEdit(d, path, e, now).1.Edited? ==>
              e.named != "" && path in d.files && FindEditMatch(d.files[path].content, e.named).Some?
              && FindEditMatch(d.files[path].content, e.named).value != ""
  {
    hide FindEditMatch, EditText, Check, Checked;
    if path in d.files && e.named != "" {
      MatchExact(d.files[path].content, e.named);
    }
  }

  /** Over every run of readings, edits, writes and outside changes a file holds what the last event that changed it put
      there. */
  lemma LastWriter(d: Desk, before: seq<Event>, e: Event, behind: seq<Event>, path: string)
    requires Changes(Run(d, before), e, path)
    requires NoneChanges(Apply(Run(d, before), e), behind, path)
    ensures InFile(Run(d, before + ([e] + behind)), path) == Puts(Run(d, before), e, path)
  {
    hide Changes, Apply, Puts;
    RunAppend(d, before, [e] + behind);
    assert ([e] + behind)[0] == e && ([e] + behind)[1..] == behind;
    ChangePuts(Run(d, before), e, path);
    NothingChanges(Apply(Run(d, before), e), behind, path);
  }
}
