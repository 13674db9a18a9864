/** Read before write: what the file tools remember of a file, and what they refuse to overwrite. A content hash
    is modelled by the content itself, so equal hashes mean equal contents. */
module FileState {
  import opened EditMatching

  const MAX_ENTRIES: nat := 256

  /** A file, with its modification time in milliseconds. */
  datatype File = File(content: string, mtime: int)

  /** What was recorded of a file: its time and (the hash of) its content. */
  datatype Stale = Stale(mtime: int, content: string)

  type Files = map<string, File>

  /** The table of recorded states, with its own count of entries. */
  datatype Table = Table(entries: map<string, Stale>, count: nat)

  /** What one reading of a window of lines is cached under. */
  datatype ReadKey = ReadKey(session: string, path: string, offset: int, limit: int)

  datatype Desk = Desk(files: Files, table: Table, cache: map<ReadKey, int>)

  // ---------------------------------------------------------------- the table

  /** Records a state; at the limit the whole table is emptied first. */
  function Recorded(t: Table, path: string, s: Stale): Table {
    if t.count + 1 > MAX_ENTRIES then Table(map[path := s], 1) else Table(t.entries[path := s], t.count + 1)
  }

  function Forgotten(t: Table, path: string): Table { t.(entries := t.entries - {path}) }

  datatype Verdict = Fresh | NotRead | Gone | Changed

  function Check(files: Files, t: Table, path: string): Verdict {
    if path !in t.entries then NotRead
    else if path !in files then Gone
    else if files[path].mtime == t.entries[path].mtime then Fresh
    else if files[path].content == t.entries[path].content then Fresh
    else Changed
  }

  /** A file that was only touched gets its new time recorded. */
  function Checked(files: Files, t: Table, path: string): Table {
    if Check(files, t, path) == Fresh
    then t.(entries := t.entries[path := t.entries[path].(mtime := files[path].mtime)]) else t
  }

  // ---------------------------------------------------------------- edit

  datatype Edit = Edit(named: string, text: string, replaceAll: bool, limit: int)

  datatype EditOutcome =
    | Missing
    | NothingNamed
    | Stalled(verdict: Verdict)
    | NoMatch
    | Ambiguous(total: nat)
    | BadLimit
    | Created
    | Edited(total: nat, count: nat)

  /** Occurrences as the library counts them: an empty text occurs around every character. */
  function Occurrences(s: string, sub: string): nat { if sub == "" then |s| + 1 else Count(s, sub) }

  /** How many occurrences an edit asks to replace. */
  function Asked(e: Edit, total: nat): nat {
    if e.limit == -1 then total else if e.limit > 0 then e.limit else if e.replaceAll then total else 1
  }

  function EditText(content: string, e: Edit, actual: string): (EditOutcome, string)
    requires actual != ""
  {
    var total := Count(content, actual);
    if !e.replaceAll && e.limit <= 0 && total > 1 then (Ambiguous(total), content)
    else if e.limit < -1 then (BadLimit, content)
    else
      var updated := Replaced(content, actual, e.text, Asked(e, total));
      (Edited(total, if e.limit == -1 then Occurrences(updated, e.text)
                     else if e.limit > 0 then Least(e.limit, total) else Asked(e, total)), updated)
  }

  function Write(d: Desk, path: string, content: string, now: int): Desk {
    d.(files := d.files[path := File(content, now)])
  }

  function WriteRecorded(d: Desk, path: string, content: string, now: int): Desk {
    Write(d, path, content, now).(table := Recorded(d.table, path, Stale(now, content)))
  }

  function AfterEdit(d: Desk, path: string, e: Edit, now: int): (Desk, EditOutcome) {
    if path !in d.files then (d, Missing)
    else if d.files[path].content == "" && e.named == "" then
      (Write(d, path, e.text, now).(table := Forgotten(d.table, path)), Created)
    else if e.named == "" then (d, NothingNamed)
    else if Check(d.files, d.table, path) != Fresh then (d, Stalled(Check(d.files, d.table, path)))
    else
      var content := d.files[path].content;
      var checked := d.(table := Checked(d.files, d.table, path));
      var actual := FindEditMatch(content, e.named);
      if actual.None? then (checked, NoMatch)
      else
        var (outcome, updated) := EditText(content, e, actual.value);
        if outcome.Edited? then (WriteRecorded(checked, path, updated, now), outcome) else (checked, outcome)
  }

  // ---------------------------------------------------------------- write

  datatype WriteOutcome = Refused(verdict: Verdict) | Overwritten | New | Appended

  predicate EndsInNewline(s: string) { s != "" && s[|s| - 1] == '\n' }

  function AppendedText(files: Files, path: string, content: string): string {
    if path !in files then content
    else if files[path].content != "" && !EndsInNewline(files[path].content)
    then files[path].content + "\n" + content
    else files[path].content + content
  }

  function AfterWrite(d: Desk, path: string, content: string, append: bool, now: int): (Desk, WriteOutcome) {
    if append then (Write(d, path, AppendedText(d.files, path, content), now), Appended)
    else if path !in d.files then (WriteRecorded(d.(table := Forgotten(d.table, path)), path, content, now), New)
    else if Check(d.files, d.table, path) != Fresh then (d, Refused(Check(d.files, d.table, path)))
    else
      var forgotten := Forgotten(Checked(d.files, d.table, path), path);
      (WriteRecorded(d.(table := forgotten), path, content, now), Overwritten)
  }

  // ---------------------------------------------------------------- read

  datatype ReadOutcome = NoFile | Unchanged | TooMuch | Content(text: string)

  /** A repeated reading of an unchanged file is answered from the cache, and records nothing. */
  function AfterRead(d: Desk, key: ReadKey, fits: bool): (Desk, ReadOutcome) {
    if key.path !in d.files then (d, NoFile)
    else
      var f := d.files[key.path];
      if key in d.cache && d.cache[key] == f.mtime then (d, Unchanged)
      else if !fits then (d, TooMuch)
      else (d.(cache := d.cache[key := f.mtime], table := Recorded(d.table, key.path, Stale(f.mtime, f.content))),
            Content(f.content))
  }

  // ---------------------------------------------------------------- the tools

  class FileTools {
    var files: Files
    var entries: map<string, Stale>
    var count: nat
    var cache: map<ReadKey, int>

    ghost function View(): Desk
      reads this
    {
      Desk(files, Table(entries, count), cache)
    }

    constructor (files: Files)
      ensures View() == Desk(files, Table(map[], 0), map[])
    {
      this.files := files;
      entries, count, cache := map[], 0, map[];
    }

    method SetStale(path: string, readAt: int, content: string)
      modifies this`entries, this`count
      ensures Table(entries, count)
           == Recorded(old(View().table), path, Stale(if path in files then files[path].mtime else readAt, content))
    {
      var mtime := readAt;
      if path in files {
        mtime := files[path].mtime;
      }
      count := count + 1;
      if count > MAX_ENTRIES {
        entries := map[];
        count := 1;
      }
      entries := entries[path := Stale(mtime, content)];
    }

    method CheckStale(path: string) returns (verdict: Verdict)
      modifies this`entries
      ensures verdict == Check(files, old(View().table), path)
      ensures Table(entries, count) == Checked(files, old(View().table), path)
    {
      if path !in entries {
        return NotRead;
      }
      var s := entries[path];
      if path !in files {
        return Gone;
      }
      if files[path].mtime == s.mtime {
        assert entries[path := s] == entries;
        return Fresh;
      }
      if files[path].content == s.content {
        entries := entries[path := s.(mtime := files[path].mtime)];
        return Fresh;
      }
      verdict := Changed;
    }

    method DeleteStale(path: string)
      modifies this`entries
      ensures entries == old(entries) - {path}
    {
      entries := entries - {path};
    }

    method PerformEdit(path: string, e: Edit, now: int) returns (outcome: EditOutcome)
      modifies this`files, this`entries, this`count
      ensures (View(), outcome) == AfterEdit(old(View()), path, e, now)
    {
      hide FindEditMatch, Count, Replaced, Recorded, Check, Checked, Occurrences;
      if path !in files {
        return Missing;
      }
      if |files[path].content| == 0 && e.named == "" {
        files := files[path := File(e.text, now)];
        DeleteStale(path);
        return Created;
      }
      if e.named == "" {
        return NothingNamed;
      }
      var verdict := CheckStale(path);
      CheckedStays(old(View()), path);
      if verdict != Fresh {
        return Stalled(verdict);
      }
      var content := files[path].content;
      var actual := FindEditMatch(content, e.named);
      if actual.None? {
        return NoMatch;
      }
      var total := Count(content, actual.value);
      if !e.replaceAll && e.limit <= 0 && total > 1 {
        return Ambiguous(total);
      }
      if e.limit < -1 {
        return BadLimit;
      }
      var updated, count;
      if e.limit == -1 {
        updated := Replaced(content, actual.value, e.text, total);
        count := Occurrences(updated, e.text);
      } else if e.limit > 0 {
        updated := Replaced(content, actual.value, e.text, e.limit);
        count := e.limit;
        if count > total {
          count := total;
        }
      } else if e.replaceAll {
        updated := Replaced(content, actual.value, e.text, total);
        count := total;
      } else {
        updated := Replaced(content, actual.value, e.text, 1);
        count := 1;
      }
      files := files[path := File(updated, now)];
      SetStale(path, now, updated);
      outcome := Edited(total, count);
    }

    method PerformWrite(path: string, content: string, append: bool, now: int) returns (outcome: WriteOutcome)
      modifies this`files, this`entries, this`count
      ensures (View(), outcome) == AfterWrite(old(View()), path, content, append, now)
    {
      hide Recorded, Check, Checked;
      if append {
        var text := content;
        if path in files && |files[path].content| > 0 && !EndsInNewline(files[path].content) {
          text := "\n" + content;
        }
        if path in files {
          text := files[path].content + text;
        }
        assert text == AppendedText(files, path, content);
        files := files[path := File(text, now)];
        return Appended;
      }
      if path in files {
        var verdict := CheckStale(path);
        CheckedStays(old(View()), path);
        if verdict != Fresh {
          return Refused(verdict);
        }
        outcome := Overwritten;
      } else {
        outcome := New;
      }
      files := files[path := File(content, now)];
      DeleteStale(path);
      SetStale(path, now, content);
    }

    method ReadText(key: ReadKey, fits: bool, now: int) returns (outcome: ReadOutcome)
      modifies this`entries, this`count, this`cache
      ensures (View(), outcome) == AfterRead(old(View()), key, fits)
    {
      if key.path !in files {
        return NoFile;
      }
      var f := files[key.path];
      if key in cache && cache[key] == f.mtime {
        return Unchanged;
      }
      if !fits {
        return TooMuch;
      }
      cache := cache[key := f.mtime];
      SetStale(key.path, now, f.content);
      outcome := Content(f.content);
    }
  }

  lemma CheckedStays(d: Desk, path: string)
    ensures Check(d.files, d.table, path) != Fresh ==> Checked(d.files, d.table, path) == d.table
    ensures Checked(d.files, d.table, path).count == d.table.count
  {
  }
}
