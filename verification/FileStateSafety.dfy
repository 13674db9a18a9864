/** No update is lost: what a successful edit or overwrite replaces is what was recorded of the file before. */
module FileStateSafety {
  import opened Text
  import opened EditMatching
  import opened FileState

  // ---------------------------------------------------------------- events

  datatype Event =
    | Reading(key: ReadKey, fits: bool)
    | Editing(path: string, edit: Edit, now: int)
    | Writing(path: string, content: string, append: bool, now: int)
    | Outside(path: string, content: string, now: int)
    | Removal(path: string)

  function Apply(d: Desk, e: Event): Desk {
    match e
    case Reading(key, fits) => AfterRead(d, key, fits).0
    case Editing(path, edit, now) => AfterEdit(d, path, edit, now).0
    case Writing(path, content, append, now) => AfterWrite(d, path, content, append, now).0
    case Outside(path, content, now) => Write(d, path, content, now)
    case Removal(path) => d.(files := d.files - {path})
  }

  function Run(d: Desk, es: seq<Event>): Desk
    decreases |es|
  {
    if es == [] then d else Run(Apply(d, es[0]), es[1..])
  }

  // ---------------------------------------------------------------- the table stays small

  predicate Bounded(t: Table) { |t.entries| <= t.count <= MAX_ENTRIES }

  lemma RecordedBounded(t: Table, path: string, s: Stale)
    requires Bounded(t)
    ensures Bounded(Recorded(t, path, s))
  {
    assert t.entries[path := s].Keys == t.entries.Keys + {path};
    var only: map<string, Stale> := map[path := s];
    assert only.Keys == {path};
  }

  lemma ForgottenBounded(t: Table, path: string)
    requires Bounded(t)
    ensures Bounded(Forgotten(t, path))
  {
    assert (t.entries - {path}).Keys == t.entries.Keys - {path};
  }

  lemma CheckedBounded(files: Files, t: Table, path: string)
    requires Bounded(t)
    ensures Bounded(Checked(files, t, path))
  {
    if Check(files, t, path) == Fresh {
      assert Checked(files, t, path).entries.Keys == t.entries.Keys;
    }
  }

  lemma EditBounded(d: Desk, path: string, edit: Edit, now: int)
    requires Bounded(d.table)
    ensures Bounded(AfterEdit(d, path, edit, now).0.table)
  {
    hide Bounded, EditText, FindEditMatch, Check, Checked, Recorded;
    ForgottenBounded(d.table, path);
    CheckedBounded(d.files, d.table, path);
    if path in d.files && edit.named != "" {
      var actual := FindEditMatch(d.files[path].content, edit.named);
      if actual.Some? {
        var updated := EditText(d.files[path].content, edit, actual.value).1;
        RecordedBounded(Checked(d.files, d.table, path), path, Stale(now, updated));
      }
    }
  }

  lemma ApplyBounded(d: Desk, e: Event)
    requires Bounded(d.table)
    ensures Bounded(Apply(d, e).table)
  {
    hide Bounded, Recorded, Checked, Forgotten, EditText, FindEditMatch, Check;
    match e
    case Reading(key, fits) =>
      if key.path in d.files {
        RecordedBounded(d.table, key.path, Stale(d.files[key.path].mtime, d.files[key.path].content));
      }
    case Editing(path, edit, now) =>
      EditBounded(d, path, edit, now);
    case Writing(path, content, append, now) =>
      ForgottenBounded(d.table, path);
      RecordedBounded(Forgotten(d.table, path), path, Stale(now, content));
      CheckedBounded(d.files, d.table, path);
      ForgottenBounded(Checked(d.files, d.table, path), path);
      RecordedBounded(Forgotten(Checked(d.files, d.table, path), path), path, Stale(now, content));
    case Outside(path, content, now) =>
    case Removal(path) =>
  }

  /** Over every run the table holds no more entries than its counter says, and the counter stays at its limit. */
  lemma {:induction false} RunBounded(d: Desk, es: seq<Event>)
    requires Bounded(d.table)
    ensures Bounded(Run(d, es).table)
    decreases |es|
  {
    hide Apply;
    if es != [] {
      ApplyBounded(d, es[0]);
      RunBounded(Apply(d, es[0]), es[1..]);
    }
  }

  // ---------------------------------------------------------------- no lost updates

  /** A file with its recorded time has its recorded content. */
  predicate Honest(d: Desk) {
    forall path :: path in d.table.entries && path in d.files
                   && d.files[path].mtime == d.table.entries[path].mtime ==>
      d.files[path].content == d.table.entries[path].content
  }

  /** A write behind the tools' back, or an append, that reuses the recorded time for other content. */
  predicate Disguised(d: Desk, path: string, content: string, now: int) {
    path in d.table.entries && d.table.entries[path].mtime == now && d.table.entries[path].content != content
  }

  predicate Disguise(d: Desk, e: Event) {
    match e
    case Outside(path, content, now) => Disguised(d, path, content, now)
    case Writing(path, content, append, now) => append && Disguised(d, path, AppendedText(d.files, path, content), now)
    case _ => false
  }

  /** Writes that pass the check leave file and record in step; a check settles a touched file. */
  lemma RecordedHonest(d: Desk, t: Table, path: string, content: string, now: int)
    requires forall p :: p in t.entries && p != path ==> p in d.table.entries && t.entries[p] == d.table.entries[p]
    requires Honest(d)
    ensures Honest(WriteRecorded(d.(table := t), path, content, now))
  {
  }

  lemma CheckedHonest(d: Desk, path: string)
    requires Honest(d)
    ensures Honest(d.(table := Checked(d.files, d.table, path)))
    ensures forall p :: p in Checked(d.files, d.table, path).entries && p != path ==>
              p in d.table.entries && Checked(d.files, d.table, path).entries[p] == d.table.entries[p]
  {
  }

  /** One event keeps files and records honest exactly unless it disguises other content under a recorded time. */
  lemma ApplyHonest(d: Desk, e: Event)
    requires Honest(d)
    ensures Honest(Apply(d, e)) <==> !Disguise(d, e)
  {
    match e
    case Reading(key, fits) =>
    case Editing(path, edit, now) => EditHonest(d, path, edit, now);
    case Writing(path, content, append, now) =>
      if !append {
        WriteHonest(d, path, content, now);
      }
    case Outside(path, content, now) =>
    case Removal(path) =>
  }

  lemma EditHonest(d: Desk, path: string, edit: Edit, now: int)
    requires Honest(d)
    ensures Honest(AfterEdit(d, path, edit, now).0)
  {
    hide Honest, EditText, FindEditMatch, Check, Checked, Recorded;
    CheckedHonest(d, path);
    CheckedStays(d, path);
    if path in d.files && edit.named != "" {
      var actual := FindEditMatch(d.files[path].content, edit.named);
      if actual.Some? {
        var updated := EditText(d.files[path].content, edit, actual.value).1;
        RecordedHonest(d, Checked(d.files, d.table, path), path, updated, now);
      }
    } else if path in d.files {
      assert Honest(Write(d, path, edit.text, now).(table := Forgotten(d.table, path))) by {
        UnrecordedHonest(d, path, edit.text, now);
      }
    }
  }

  lemma UnrecordedHonest(d: Desk, path: string, content: string, now: int)
    requires Honest(d)
    ensures Honest(Write(d, path, content, now).(table := Forgotten(d.table, path)))
  {
  }

  lemma WriteHonest(d: Desk, path: string, content: string, now: int)
    requires Honest(d)
    ensures Honest(AfterWrite(d, path, content, false, now).0)
  {
    hide Honest, Check, Checked, Recorded;
    CheckedHonest(d, path);
    RecordedHonest(d, Forgotten(d.table, path), path, content, now);
    RecordedHonest(d, Forgotten(Checked(d.files, d.table, path), path), path, content, now);
  }

  /** With honest records, a file is fresh exactly if it was read and its content is what was recorded. */
  lemma FreshExact(d: Desk, path: string)
    requires Honest(d)
    ensures Check(d.files, d.table, path) == Fresh <==>
            path in d.table.entries && path in d.files && d.files[path].content == d.table.entries[path].content
  {
  }

  /** A successful edit or overwrite, which replaces what the file held. */
  predicate Replaces(d: Desk, e: Event) {
    || (e.Editing? && AfterEdit(d, e.path, e.edit, e.now).1.Edited?)
    || (e.Writing? && AfterWrite(d, e.path, e.content, e.append, e.now).1 == Overwritten)
  }

  lemma ReplacesFresh(d: Desk, e: Event)
    requires Replaces(d, e)
    ensures (e.Editing? || e.Writing?) && Check(d.files, d.table, e.path) == Fresh
  {
  }

  /** Every event of the run that replaces content replaces what was recorded. */
  predicate NothingLost(d: Desk, es: seq<Event>)
    decreases |es|
  {
    es == [] ||
    ((Replaces(d, es[0]) ==>
        es[0].path in d.files && es[0].path in d.table.entries &&
        d.files[es[0].path].content == d.table.entries[es[0].path].content)
     && NothingLost(Apply(d, es[0]), es[1..]))
  }

  predicate NeverDisguised(d: Desk, es: seq<Event>)
    decreases |es|
  {
    es == [] || (!Disguise(d, es[0]) && NeverDisguised(Apply(d, es[0]), es[1..]))
  }

  /** Over every interleaving of readings, edits, writes and outside changes in which no change hides behind a
      recorded time, no update is lost. */
  lemma {:induction false} NoLostUpdates(d: Desk, es: seq<Event>)
    requires Honest(d) && NeverDisguised(d, es)
    ensures NothingLost(d, es)
    decreases |es|
  {
    hide Honest, Apply, Disguise, Replaces;
    if es != [] {
      ApplyHonest(d, es[0]);
      if Replaces(d, es[0]) {
        ReplacesFresh(d, es[0]);
        FreshExact(d, es[0].path);
      }
      NoLostUpdates(Apply(d, es[0]), es[1..]);
    }
  }

  /** An outside change of a recorded file, and an overwrite behind it: content that nobody has seen is lost exactly
      if the change hides behind the recorded time. */
  lemma DisguisedChangeIsLost(d: Desk, path: string, other: string, now: int, content: string, later: int)
    requires path in d.files && path in d.table.entries
    ensures NothingLost(d, [Outside(path, other, now), Writing(path, content, false, later)])
       <==> !Disguised(d, path, other, now)
  {
    var es := [Outside(path, other, now), Writing(path, content, false, later)];
    var changed := Apply(d, es[0]);
    assert es[1..] == [es[1]] && [es[1]][1..] == [];
    assert Replaces(changed, es[1]) <==> Check(changed.files, changed.table, path) == Fresh;
    assert NothingLost(Apply(changed, es[1]), []);
  }

  // ---------------------------------------------------------------- what an edit does to the text

  /** A successful edit of an unambiguous text replaces its one occurrence and leaves everything else alone; in
      general it takes the file apart at the occurrences it was asked to replace, and glues it with the new text. */
  lemma EditGlues(d: Desk, path: string, e: Edit, now: int)
    requires AfterEdit(d, path, e, now).1.Edited?
    ensures path in d.files && e.named != "" && FindEditMatch(d.files[path].content, e.named).Some?
    ensures var before, after := d.files[path].content, AfterEdit(d, path, e, now).0.files[path].content;
            var actual := FindEditMatch(before, e.named).value;
            var total := Count(before, actual);
            var pieces := Cut(before, actual, Asked(e, total));
            && Glued(pieces, actual) == before && Glued(pieces, e.text) == after
            && |pieces| == 1 + Least(Asked(e, total), total) && total > 0
            && (!e.replaceAll && e.limit == 0 ==> total == 1 && |pieces| == 2)
  {
    hide Count, Replaced, Cut, Glued, FindEditMatch, Recorded, Check, Checked;
    var before := d.files[path].content;
    var actual := FindEditMatch(before, e.named).value;
    ReplacedIsGlued(before, actual, e.text, Asked(e, Count(before, actual)));
    MatchExact(before, e.named);
    ContainedCounts(before, actual);
  }

  lemma ContainedCounts(s: string, sub: string)
    requires sub != "" && Contains(s, sub)
    ensures Count(s, sub) > 0
  {
  }

  /** `limit` -1 is to replace all occurrences; where there are several it is refused without `replaceAll`. */
  lemma UnlimitedRefused(d: Desk, path: string, e: Edit, now: int)
    requires path in d.files && e.named != "" && Check(d.files, d.table, path) == Fresh
    requires FindEditMatch(d.files[path].content, e.named).Some? && e.limit == -1 && !e.replaceAll
    ensures var total := Count(d.files[path].content, FindEditMatch(d.files[path].content, e.named).value);
            AfterEdit(d, path, e, now).1.Edited? <==> total <= 1
  {
    hide Count, Replaced, FindEditMatch, Check, Checked;
  }

  /** Appending never joins lines: what was there keeps its lines, and the appended text starts on one of its own. */
  lemma AppendAddsLines(files: Files, path: string, content: string)
    requires path in files && files[path].content != ""
    ensures var before, after := files[path].content, AppendedText(files, path, content);
            var closed := if EndsInNewline(before) then before[..|before| - 1] else before;
            Split(after, '\n') == Split(closed, '\n') + Split(content, '\n')
  {
    var before := files[path].content;
    var closed := if EndsInNewline(before) then before[..|before| - 1] else before;
    assert AppendedText(files, path, content) == closed + ['\n'] + content;
    SplitBoth(closed, content, '\n');
  }

  // ---------------------------------------------------------------- readings that record nothing

  /** Recording one file keeps what is known of the others exactly while the counter is below the limit. */
  lemma RecordingForgets(t: Table, path: string, s: Stale)
    ensures (forall other :: other in t.entries && other != path ==> other in Recorded(t, path, s).entries)
       <==> (t.count < MAX_ENTRIES || forall other :: other in t.entries ==> other == path)
  {
    if t.count >= MAX_ENTRIES && exists other :: other in t.entries && other != path {
      var other :| other in t.entries && other != path;
      assert other !in Recorded(t, path, s).entries;
    }
  }

  /** This window of the file is cached under the file's current time. */
  predicate Cached(d: Desk, key: ReadKey) {
    key in d.cache && key.path in d.files && d.cache[key] == d.files[key.path].mtime
  }

  predicate Readings(es: seq<Event>, path: string) { forall e :: e in es ==> e.Reading? && e.key.path == path }

  /** Some reading fits, of a window that is not cached already. */
  predicate Tells(d: Desk, es: seq<Event>) { exists e :: e in es && e.Reading? && e.fits && !Cached(d, e.key) }

  lemma ReadingOne(d: Desk, path: string, e: Event)
    requires path in d.files && Readings([e], path)
    ensures var after := Apply(d, e);
            && after.files == d.files
            && (e.fits && !Cached(d, e.key) ==> Check(after.files, after.table, path) == Fresh)
            && (!(e.fits && !Cached(d, e.key)) ==> after == d)
  {
    assert e in [e];
  }

  /** Reading a file over and over makes it fit to be edited exactly if it was so before, or one of the readings fits
      and its window is not cached under the file's time at the start: readings answered from the cache do not. */
  lemma {:induction false} ReadingsMakeFresh(d: Desk, path: string, es: seq<Event>)
    requires path in d.files && Readings(es, path)
    ensures var after := Run(d, es);
            && after.files == d.files
            && (Check(after.files, after.table, path) == Fresh <==>
                Check(d.files, d.table, path) == Fresh || Tells(d, es))
            && (!Tells(d, es) ==> after == d)
    decreases |es|
  {
    hide Apply, Check;
    if es != [] {
      assert es == [es[0]] + es[1..];
      assert es[0] in es;
      ReadingOne(d, path, es[0]);
      ReadingsMakeFresh(Apply(d, es[0]), path, es[1..]);
      if !(es[0].fits && !Cached(d, es[0].key)) {
        assert Tells(d, es) <==> Tells(d, es[1..]);
      } else {
        assert Tells(d, es);
      }
    }
  }
}
