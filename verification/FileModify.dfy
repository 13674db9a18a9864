/** Tracked file modifications: a backup at first touch, and confirming or rolling back later. File operations
    succeed here, paths are clean and absolute, and no two paths share a backup key. */
module FileModify {
  import opened Wrappers

  /** `backups` are kept by path; `legacy` are old backups, kept by the bare file name. */
  datatype Disk = Disk(files: map<string, string>, backups: map<string, string>, legacy: map<string, string>)

  datatype Tracker = Tracker(disk: Disk, tracked: seq<string>)

  function Base(path: string): string {
    if path == "" then "" else if path[|path| - 1] == '/' then "" else Base(path[..|path| - 1]) + [path[|path| - 1]]
  }

  /** The bare name of a path is what stands behind its last separator. */
  lemma {:induction false} BaseIs(path: string) returns (dir: string)
    ensures path == dir + Base(path) && '/' !in Base(path) && (dir == "" || dir[|dir| - 1] == '/')
  {
    dir := path;
    if path != "" && path[|path| - 1] != '/' {
      var init, c := path[..|path| - 1], path[|path| - 1];
      dir := BaseIs(init);
      assert path == init + [c] == dir + (Base(init) + [c]);
    }
  }

  function Without(list: seq<string>, path: string): seq<string> {
    if list == [] then []
    else Without(list[..|list| - 1], path) + if list[|list| - 1] != path then [list[|list| - 1]] else []
  }

  /** The backup a path reads: its own, else an old one under its bare name. */
  function BackupOf(d: Disk, path: string): Option<string> {
    if path in d.backups then Some(d.backups[path])
    else if Base(path) in d.legacy then Some(d.legacy[Base(path)])
    else None
  }

  function BackupDropped(d: Disk, path: string): Disk {
    if path in d.backups then d.(backups := d.backups - {path})
    else if Base(path) in d.legacy then d.(legacy := d.legacy - {Base(path)})
    else d
  }

  function AfterTrack(t: Tracker, path: string): Tracker {
    if path in t.tracked then t
    else
      var disk := if path in t.disk.files
                  then t.disk.(backups := t.disk.backups[path := t.disk.files[path]]) else t.disk;
      Tracker(disk, t.tracked + [path])
  }

  function ConfirmOne(t: Tracker, path: string): Tracker {
    Tracker(BackupDropped(t.disk, path), Without(t.tracked, path))
  }

  function RollbackOne(t: Tracker, path: string): Tracker {
    var backup := BackupOf(t.disk, path);
    var disk := if backup.None? then t.disk
                else BackupDropped(t.disk.(files := t.disk.files[path := backup.value]), path);
    Tracker(disk, Without(t.tracked, path))
  }

  function ConfirmAll(t: Tracker, targets: seq<string>): Tracker {
    if targets == [] then t else ConfirmOne(ConfirmAll(t, targets[..|targets| - 1]), targets[|targets| - 1])
  }

  function RollbackAll(t: Tracker, targets: seq<string>): Tracker {
    if targets == [] then t else RollbackOne(RollbackAll(t, targets[..|targets| - 1]), targets[|targets| - 1])
  }

  function Among(tracked: seq<string>, names: seq<string>): seq<string> {
    if names == [] then []
    else Among(tracked, names[..|names| - 1]) + if names[|names| - 1] in tracked then [names[|names| - 1]] else []
  }

  /** The named files that are tracked; all tracked ones, if none is named. */
  function Targets(tracked: seq<string>, names: seq<string>): seq<string> {
    if names == [] then tracked else Among(tracked, names)
  }

  class ModifySession {
    var disk: Disk
    var modifyFiles: seq<string>

    ghost function View(): Tracker
      reads this
    {
      Tracker(disk, modifyFiles)
    }

    constructor (disk: Disk)
      ensures View() == Tracker(disk, [])
    {
      this.disk, modifyFiles := disk, [];
    }

    method ContainsModifyFile(path: string) returns (found: bool)
      ensures found <==> path in modifyFiles
    {
      for i := 0 to |modifyFiles|
        invariant path !in modifyFiles[..i]
      {
        if modifyFiles[i] == path {
          return true;
        }
      }
      return false;
    }

    method TrackModify(path: string)
      modifies this
      ensures View() == AfterTrack(old(View()), path)
    {
      var known := ContainsModifyFile(path);
      if known {
        return;
      }
      if path in disk.files {
        disk := disk.(backups := disk.backups[path := disk.files[path]]);
      }
      modifyFiles := modifyFiles + [path];
    }

    /** Filters the list in its own space: what is kept moves forward over what has been looked at. */
    method RemoveModifyFile(path: string)
      modifies this`modifyFiles
      ensures modifyFiles == Without(old(modifyFiles), path)
    {
      ghost var before := modifyFiles;
      var kept := 0;
      for i := 0 to |modifyFiles|
        invariant kept <= i && |modifyFiles| == |before| && modifyFiles[i..] == before[i..]
        invariant modifyFiles[..kept] == Without(before[..i], path)
      {
        assert before[..i + 1][..i] == before[..i];
        var f := modifyFiles[i];
        assert f == before[i];
        if f != path {
          ghost var rest := modifyFiles[i + 1..];
          modifyFiles := modifyFiles[kept := f];
          assert modifyFiles[i + 1..] == rest;
          kept := kept + 1;
        }
      }
      assert before[..|before|] == before;
      modifyFiles := modifyFiles[..kept];
    }

    method ResolveTargets(names: seq<string>) returns (targets: seq<string>)
      ensures targets == Targets(modifyFiles, names)
    {
      if |names| == 0 {
        return modifyFiles;
      }
      targets := [];
      for i := 0 to |names|
        invariant targets == Among(modifyFiles, names[..i])
      {
        assert names[..i + 1][..i] == names[..i];
        var known := ContainsModifyFile(names[i]);
        if known {
          targets := targets + [names[i]];
        }
      }
      assert names[..|names|] == names;
    }

    /** Removes the backup the path reads, if there is one. */
    method RemoveBackup(path: string)
      modifies this`disk
      ensures disk == BackupDropped(old(disk), path)
    {
      if path in disk.backups {
        disk := disk.(backups := disk.backups - {path});
      } else if Base(path) in disk.legacy {
        disk := disk.(legacy := disk.legacy - {Base(path)});
      }
    }

    method ConfirmModify(names: seq<string>) returns (confirmed: seq<string>)
      modifies this
      ensures confirmed == Targets(old(modifyFiles), names)
      ensures View() == ConfirmAll(old(View()), confirmed)
    {
      hide BackupDropped, Without, Targets;
      var targets := ResolveTargets(names);
      confirmed := [];
      for i := 0 to |targets|
        invariant confirmed == targets[..i]
        invariant View() == ConfirmAll(old(View()), confirmed)
      {
        assert targets[..i + 1][..i] == targets[..i];
        var path := targets[i];
        RemoveBackup(path);
        RemoveModifyFile(path);
        confirmed := confirmed + [path];
        assert confirmed == targets[..i + 1];
      }
    }

    method Rollback(names: seq<string>) returns (rolledBack: seq<string>)
      modifies this
      ensures rolledBack == Targets(old(modifyFiles), names)
      ensures View() == RollbackAll(old(View()), rolledBack)
    {
      hide BackupDropped, BackupOf, Without, Targets;
      var targets := ResolveTargets(names);
      rolledBack := [];
      for i := 0 to |targets|
        invariant rolledBack == targets[..i]
        invariant View() == RollbackAll(old(View()), rolledBack)
      {
        assert targets[..i + 1][..i] == targets[..i];
        var path := targets[i];
        var backup := BackupOf(disk, path);
        if backup.Some? {
          disk := disk.(files := disk.files[path := backup.value]);
          RemoveBackup(path);
        }
        RemoveModifyFile(path);
        rolledBack := rolledBack + [path];
        assert rolledBack == targets[..i + 1];
      }
    }
  }

  // ---------------------------------------------------------------- lists

  predicate Distinct(list: seq<string>) { forall i, j :: 0 <= i < j < |list| ==> list[i] != list[j] }

  lemma {:induction false} WithoutExact(list: seq<string>, path: string)
    ensures forall f :: f in Without(list, path) <==> f in list && f != path
    ensures Distinct(list) ==> Distinct(Without(list, path))
  {
    if list != [] {
      var init, last := list[..|list| - 1], list[|list| - 1];
      WithoutExact(init, path);
      assert list == init + [last];
      if Distinct(list) {
        assert last !in init;
      }
    }
  }

  lemma {:induction false} AmongExact(tracked: seq<string>, names: seq<string>)
    ensures forall f :: f in Among(tracked, names) <==> f in names && f in tracked
  {
    if names != [] {
      AmongExact(tracked, names[..|names| - 1]);
      assert names == names[..|names| - 1] + [names[|names| - 1]];
    }
  }

  // ---------------------------------------------------------------- runs

  /** What a tracked file held when it was first tracked since it was last confirmed or rolled back; None if there
      was no such file. */
  type Baseline = map<string, Option<string>>

  /** `since` are the tracked files whose tracking began in the run; the others were tracked before it, perhaps when
      backups were still kept by bare names. */
  datatype State = State(t: Tracker, baseline: Baseline, since: set<string>)

  datatype Event =
    | Track(path: string)
    | Change(path: string, content: Option<string>)
    | Confirm(names: seq<string>)
    | Rollback(names: seq<string>)

  function Held(d: Disk, path: string): Option<string> {
    if path in d.files then Some(d.files[path]) else None
  }

  function SetOf(list: seq<string>): set<string> { set f | f in list }

  function Apply(s: State, e: Event): State {
    match e
    case Track(path) =>
      if path in s.t.tracked then s
      else State(AfterTrack(s.t, path), s.baseline[path := Held(s.t.disk, path)], s.since + {path})
    case Change(path, content) =>
      s.(t := s.t.(disk := s.t.disk.(files := if content.Some? then s.t.disk.files[path := content.value]
                                              else s.t.disk.files - {path})))
    case Confirm(names) =>
      var targets := Targets(s.t.tracked, names);
      State(ConfirmAll(s.t, targets), s.baseline - SetOf(targets), s.since - SetOf(targets))
    case Rollback(names) =>
      var targets := Targets(s.t.tracked, names);
      State(RollbackAll(s.t, targets), s.baseline - SetOf(targets), s.since - SetOf(targets))
  }

  function Run(s: State, es: seq<Event>): State
    decreases |es|
  {
    if es == [] then s else Run(Apply(s, es[0]), es[1..])
  }

  /** No file is tracked twice, every backup is the baseline of a tracked file, and files that existed when their
      tracking began in the run have one; of old backups, and of files tracked before, nothing is asked. */
  ghost predicate Faithful(s: State) {
    && Distinct(s.t.tracked)
    && (forall f :: f in s.t.tracked <==> f in s.baseline)
    && (forall f :: f in s.t.disk.backups ==> f in s.baseline && s.baseline[f] == Some(s.t.disk.backups[f]))
    && (forall f :: f in s.since ==> f in s.baseline && (s.baseline[f].Some? ==> f in s.t.disk.backups))
  }

  // ---------------------------------------------------------------- who takes an old backup

  /** Behind the turns of `done`, f has no backup of its own. */
  predicate OwnGone(d: Disk, done: seq<string>, f: string) { f !in d.backups || f in done }

  /** The bare names of the turns that found no backup of their own: old backups under them are gone. */
  function Spent(d: Disk, done: seq<string>): set<string> {
    if done == [] then {}
    else
      var init, last := done[..|done| - 1], done[|done| - 1];
      Spent(d, init) + if OwnGone(d, init, last) then {Base(last)} else {}
  }

  /** Some turn of f finds no backup of its own, but an old one that no turn before it has used up. */
  predicate TakesOld(d: Disk, targets: seq<string>, f: string) {
    targets != [] &&
    var init, last := targets[..|targets| - 1], targets[|targets| - 1];
    TakesOld(d, init, f)
    || (last == f && OwnGone(d, init, f) && Base(f) in d.legacy && Base(f) !in Spent(d, init))
  }

  lemma {:induction false} TakenIsSpent(d: Disk, targets: seq<string>, f: string)
    requires TakesOld(d, targets, f)
    ensures f in targets && Base(f) in d.legacy && Base(f) in Spent(d, targets)
  {
    hide Base;
    var init, last := targets[..|targets| - 1], targets[|targets| - 1];
    assert targets == init + [last];
    if TakesOld(d, init, f) {
      TakenIsSpent(d, init, f);
    }
  }

  // ---------------------------------------------------------------- confirming and rolling back

  /** What the turns of `done` leave of the lists and the backups. */
  ghost predicate Dropped(before: Tracker, after: Tracker, done: seq<string>) {
    && (forall f :: f in after.tracked <==> f in before.tracked && f !in done)
    && (Distinct(before.tracked) ==> Distinct(after.tracked))
    && (forall f :: f in after.disk.backups <==> f in before.disk.backups && f !in done)
    && (forall f :: f in after.disk.backups ==> after.disk.backups[f] == before.disk.backups[f])
    && (forall b :: b in after.disk.legacy <==> b in before.disk.legacy && b !in Spent(before.disk, done))
    && (forall b :: b in after.disk.legacy ==> after.disk.legacy[b] == before.disk.legacy[b])
  }

  lemma OneDropped(t: Tracker, before: Tracker, after: Tracker, done: seq<string>, path: string)
    requires Dropped(t, before, done)
    requires after.tracked == Without(before.tracked, path)
    requires after.disk.backups == BackupDropped(before.disk, path).backups
    requires after.disk.legacy == BackupDropped(before.disk, path).legacy
    ensures Dropped(t, after, done + [path])
  {
    hide Base, Spent, BackupDropped;
    WithoutExact(before.tracked, path);
    BackupsDropped(t, before, after, done, path);
    LegacyDropped(t, before, after, done, path);
  }

  lemma BackupsDropped(t: Tracker, before: Tracker, after: Tracker, done: seq<string>, path: string)
    requires Dropped(t, before, done) && after.disk.backups == BackupDropped(before.disk, path).backups
    ensures forall f :: f in after.disk.backups <==> f in t.disk.backups && f !in done + [path]
    ensures forall f :: f in after.disk.backups ==> after.disk.backups[f] == t.disk.backups[f]
  {
    hide Base, Spent;
  }

  lemma LegacyDropped(t: Tracker, before: Tracker, after: Tracker, done: seq<string>, path: string)
    requires Dropped(t, before, done) && after.disk.legacy == BackupDropped(before.disk, path).legacy
    ensures forall b :: b in after.disk.legacy <==> b in t.disk.legacy && b !in Spent(t.disk, done + [path])
    ensures forall b :: b in after.disk.legacy ==> after.disk.legacy[b] == t.disk.legacy[b]
  {
    hide Base;
    assert (done + [path])[..|done|] == done;
    assert path in before.disk.backups <==> !OwnGone(t.disk, done, path);
  }

  lemma {:induction false} ConfirmDrops(t: Tracker, targets: seq<string>)
    ensures Dropped(t, ConfirmAll(t, targets), targets)
  {
    if targets != [] {
      var init, last := targets[..|targets| - 1], targets[|targets| - 1];
      ConfirmDrops(t, init);
      hide Dropped, BackupDropped, Without;
      assert targets == init + [last];
      OneDropped(t, ConfirmAll(t, init), ConfirmAll(t, targets), init, last);
    }
  }

  /** The files after a roll-back: a target that takes an old backup has its bytes, any other target with a backup
      of its own has that back, and all other files are as before. */
  ghost predicate Restored(before: Tracker, after: Tracker, targets: seq<string>) {
    forall f :: Held(after.disk, f) == RestoredOne(before, targets, f)
  }

  function RestoredOne(before: Tracker, targets: seq<string>, f: string): Option<string> {
    if TakesOld(before.disk, targets, f) && Base(f) in before.disk.legacy then Some(before.disk.legacy[Base(f)])
    else if f in targets && f in before.disk.backups then Some(before.disk.backups[f])
    else Held(before.disk, f)
  }

  lemma OneRestored(t: Tracker, before: Tracker, done: seq<string>, path: string, f: string)
    requires Dropped(t, before, done) && Restored(t, before, done)
    ensures Held(RollbackOne(before, path).disk, f) == RestoredOne(t, done + [path], f)
  {
    hide Without, Base, Spent;
    var all := done + [path];
    assert all[..|done|] == done && all[|done|] == path;
    assert Held(before.disk, f) == RestoredOne(t, done, f);
    if TakesOld(t.disk, done, f) {
      TakenIsSpent(t.disk, done, f);
    }
  }

  lemma RollbackDisk(t: Tracker, path: string)
    ensures RollbackOne(t, path).tracked == Without(t.tracked, path)
    ensures RollbackOne(t, path).disk.backups == BackupDropped(t.disk, path).backups
    ensures RollbackOne(t, path).disk.legacy == BackupDropped(t.disk, path).legacy
  {
  }

  lemma {:induction false} RollbackDrops(t: Tracker, targets: seq<string>)
    ensures Dropped(t, RollbackAll(t, targets), targets) && Restored(t, RollbackAll(t, targets), targets)
  {
    if targets != [] {
      var init, last := targets[..|targets| - 1], targets[|targets| - 1];
      RollbackDrops(t, init);
      hide Dropped, RollbackOne, BackupDropped, Without, RestoredOne;
      assert targets == init + [last];
      var before := RollbackAll(t, init);
      RollbackDisk(before, last);
      OneDropped(t, before, RollbackAll(t, targets), init, last);
      forall f
        ensures Held(RollbackAll(t, targets).disk, f) == RestoredOne(t, targets, f)
      {
        OneRestored(t, before, init, last, f);
      }
    }
  }

  lemma TargetsExact(tracked: seq<string>, names: seq<string>)
    ensures forall f :: f in Targets(tracked, names) <==> f in tracked && (names == [] || f in names)
  {
    AmongExact(tracked, names);
  }

  /** Every event keeps backups and baselines in step. */
  lemma ApplyFaithful(s: State, e: Event)
    requires Faithful(s)
    ensures Faithful(Apply(s, e))
  {
    match e
    case Track(path) =>
    case Change(path, content) =>
    case Confirm(names) =>
      var targets := Targets(s.t.tracked, names);
      ConfirmDrops(s.t, targets);
      DroppedFaithful(s, ConfirmAll(s.t, targets), targets);
    case Rollback(names) =>
      var targets := Targets(s.t.tracked, names);
      RollbackDrops(s.t, targets);
      DroppedFaithful(s, RollbackAll(s.t, targets), targets);
  }

  lemma DroppedFaithful(s: State, after: Tracker, targets: seq<string>)
    requires Faithful(s) && Dropped(s.t, after, targets)
    ensures Faithful(State(after, s.baseline - SetOf(targets), s.since - SetOf(targets)))
  {
    hide Spent;
  }

  /** Tracked from before, and so with the baseline of before. */
  ghost predicate Carried(start: State, s: State) {
    forall f :: f in s.baseline && f !in s.since ==>
      f in start.baseline && f !in start.since && s.baseline[f] == start.baseline[f]
  }

  lemma ApplyCarried(start: State, s: State, e: Event)
    requires Carried(start, s) && forall f :: f in s.t.tracked <==> f in s.baseline
    ensures Carried(start, Apply(s, e))
  {
    hide AfterTrack, ConfirmAll, RollbackAll, Targets;
  }

  /** Over every run, from every session, old backups about or not: backups exist for tracked files only, nothing is
      tracked twice, every backup is what its file held when it was first tracked, and a tracked file that existed then
      has one, or was tracked before the run without a break. */
  lemma RunFaithful(s: State, es: seq<Event>)
    requires Faithful(s)
    ensures Faithful(Run(s, es)) && Carried(s, Run(s, es))
  {
    RunCarries(s, s, es);
  }

  lemma {:induction false} RunCarries(start: State, s: State, es: seq<Event>)
    requires Faithful(s) && Carried(start, s)
    ensures Faithful(Run(s, es)) && Carried(start, Run(s, es))
    decreases |es|
  {
    if es != [] {
      ApplyCarried(start, s, es[0]);
      hide Faithful, Apply, Carried;
      ApplyFaithful(s, es[0]);
      RunCarries(start, Apply(s, es[0]), es[1..]);
    }
  }

  /** Behind any run, a roll-back gives a target the bytes it had when it was first tracked since it was last confirmed
      or rolled back, exactly if it takes an old backup with these bytes, or takes none but has a backup of its own, or
      is so already: a file that was new is not deleted, and one without any backup left stays as it is. Other files
      keep their bytes. */
  lemma RollbackRestores(start: State, es: seq<Event>, names: seq<string>, f: string)
    requires Faithful(start)
    ensures var s := Run(start, es);
            var targets := Targets(s.t.tracked, names);
            var after := Apply(s, Rollback(names)).t.disk;
            if f in targets
            then f in s.baseline
                 && (Held(after, f) == s.baseline[f] <==>
                     if TakesOld(s.t.disk, targets, f)
                     then Base(f) in s.t.disk.legacy && s.baseline[f] == Some(s.t.disk.legacy[Base(f)])
                     else f in s.t.disk.backups || Held(s.t.disk, f) == s.baseline[f])
            else Held(after, f) == Held(s.t.disk, f)
  {
    RunFaithful(start, es);
    var s := Run(start, es);
    hide Run, Base, Spent, RollbackAll, ConfirmAll;
    var targets := Targets(s.t.tracked, names);
    TargetsExact(s.t.tracked, names);
    RollbackDrops(s.t, targets);
    assert Held(RollbackAll(s.t, targets).disk, f) == RestoredOne(s.t, targets, f);
    if TakesOld(s.t.disk, targets, f) {
      TakenIsSpent(s.t.disk, targets, f);
    }
  }

  /** Where every target is named once, the old backup of a bare name goes to the first target of that name without
      a backup of its own. */
  lemma {:induction false} OldGoesToFirst(d: Disk, targets: seq<string>, f: string)
    requires Distinct(targets)
    ensures TakesOld(d, targets, f) <==>
            f !in d.backups && Base(f) in d.legacy
            && exists i :: 0 <= i < |targets| && targets[i] == f
                           && forall j :: 0 <= j < i ==> targets[j] in d.backups || Base(targets[j]) != Base(f)
    ensures forall b :: b in Spent(d, targets) <==> exists g :: g in targets && g !in d.backups && Base(g) == b
  {
    hide Base;
    if targets != [] {
      var init, last := targets[..|targets| - 1], targets[|targets| - 1];
      OldGoesToFirst(d, init, f);
      assert targets == init + [last] && last !in init;
      var n := |init|;
      if TakesOld(d, targets, f) && !TakesOld(d, init, f) {
        assert targets[n] == f;
      }
    }
  }

  /** A new file that is rolled back alone is absent exactly if it is absent now and no old backup has its name. */
  lemma NewFileStays(s: State, f: string)
    requires Faithful(s) && f in s.baseline && s.baseline[f].None?
    ensures Held(Apply(s, Rollback([f])).t.disk, f).None? <==>
            Held(s.t.disk, f).None? && Base(f) !in s.t.disk.legacy
  {
    hide Base;
    RollbackRestores(s, [], [f], f);
    assert Among(s.t.tracked, [f]) == Among(s.t.tracked, []) + [f];
    assert Targets(s.t.tracked, [f]) == [f] && [f][..0] == [];
    assert Spent(s.t.disk, []) == {};
  }

  /** A file that is named twice loses its bytes to an old backup of its name: the first turn restores it, the second
      one finds no backup but the old one. */
  lemma NamedTwice(s: State, f: string)
    requires Faithful(s) && f in s.t.disk.backups
    ensures Held(Apply(s, Rollback([f, f])).t.disk, f) ==
            if Base(f) in s.t.disk.legacy then Some(s.t.disk.legacy[Base(f)]) else s.baseline[f]
  {
    TwoTargets(s.t.tracked, f, f);
    hide Base, RollbackAll, TakesOld, Spent, Targets, Dropped, Distinct;
    RollbackDrops(s.t, [f, f]);
    TwoTurns(s.t.disk, f);
    assert Held(RollbackAll(s.t, [f, f]).disk, f) == RestoredOne(s.t, [f, f], f);
  }

  /** Two files of one bare name, tracked when backups were kept by that: the first one to be rolled back takes the one
      old backup, whosever it was, and the second one stays as it is. */
  lemma OneBackupForTwo(s: State, f: string, g: string)
    requires Faithful(s) && f in s.baseline && g in s.baseline && f != g && Base(f) == Base(g)
    requires f !in s.t.disk.backups && g !in s.t.disk.backups && Base(f) in s.t.disk.legacy
    ensures var after := Apply(s, Rollback([f, g])).t.disk;
            Held(after, f) == Some(s.t.disk.legacy[Base(f)]) && Held(after, g) == Held(s.t.disk, g)
  {
    TwoTargets(s.t.tracked, f, g);
    hide Base, RollbackAll, TakesOld, Spent, Targets, Dropped;
    RollbackDrops(s.t, [f, g]);
    OldGoesToFirst(s.t.disk, [f, g], f);
    OldGoesToFirst(s.t.disk, [f, g], g);
    assert [f, g][0] == f && [f, g][1] == g;
    assert Held(RollbackAll(s.t, [f, g]).disk, f) == RestoredOne(s.t, [f, g], f);
    assert Held(RollbackAll(s.t, [f, g]).disk, g) == RestoredOne(s.t, [f, g], g);
  }

  lemma TwoTargets(tracked: seq<string>, f: string, g: string)
    requires f in tracked && g in tracked
    ensures Targets(tracked, [f, g]) == [f, g]
  {
    assert [f, g][..1] == [f] && [f][..0] == [];
    assert Among(tracked, [f]) == Among(tracked, []) + [f];
  }

  lemma TwoTurns(d: Disk, f: string)
    requires f in d.backups
    ensures TakesOld(d, [f, f], f) <==> Base(f) in d.legacy
  {
    hide Base;
    var none: seq<string>, one, two := [], [f], [f, f];
    assert two[..|two| - 1] == one && one[..|one| - 1] == none;
    assert Spent(d, none) == {} && !TakesOld(d, none, f);
    assert Spent(d, one) == Spent(d, none) && !TakesOld(d, one, f);
    assert OwnGone(d, one, f);
  }

  /** Confirming leaves every file alone, even with old backups about. */
  lemma {:induction false} ConfirmKeepsFiles(t: Tracker, targets: seq<string>)
    ensures ConfirmAll(t, targets).disk.files == t.disk.files
  {
    if targets != [] {
      ConfirmKeepsFiles(t, targets[..|targets| - 1]);
    }
  }
}
