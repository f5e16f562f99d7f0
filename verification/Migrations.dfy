/** The migration runner (internal/database/postgres.go:27-71): files in sorted order, one
    transaction per file that runs the file and records its name. A run may stop anywhere. */
module Migrations {
  import opened Common

  // ---------------------------------------------------------------- sort.Strings

  /** Byte order of UTF-8 strings, which is code point order. */
  predicate Less(a: string, b: string) {
    b != "" && (a == "" || a[0] < b[0] || (a[0] == b[0] && Less(a[1..], b[1..])))
  }

  lemma {:induction false} LessIsTotal(a: string, b: string)
    ensures a == b || Less(a, b) || Less(b, a)
  {
    if a != "" && b != "" && a[0] == b[0] {
      LessIsTotal(a[1..], b[1..]);
      assert a[1..] == b[1..] ==> a == [a[0]] + a[1..] == b;
    }
  }

  lemma {:induction false} LessIsTransitive(a: string, b: string, c: string)
    requires Less(a, b) && Less(b, c)
    ensures Less(a, c)
  {
    if a != "" && a[0] == b[0] == c[0] {
      LessIsTransitive(a[1..], b[1..], c[1..]);
    }
  }

  lemma {:induction false} LessIsIrreflexive(a: string)
    ensures !Less(a, a)
  {
    if a != "" {
      LessIsIrreflexive(a[1..]);
    }
  }

  /** The order by the first character that differs; a prefix comes first. */
  lemma {:induction false} LessIff(a: string, b: string)
    ensures Less(a, b) <==>
            exists i | 0 <= i <= |a| && i < |b| :: a[..i] == b[..i] && (i == |a| || a[i] < b[i])
  {
    if a != "" && b != "" && a[0] == b[0] {
      LessIff(a[1..], b[1..]);
      if i :| 0 <= i <= |a[1..]| && i < |b[1..]| && a[1..][..i] == b[1..][..i]
              && (i == |a[1..]| || a[1..][i] < b[1..][i]) {
        assert a[..i + 1] == [a[0]] + a[1..][..i] == [b[0]] + b[1..][..i] == b[..i + 1];
      }
      if i :| 0 <= i <= |a| && i < |b| && a[..i] == b[..i] && (i == |a| || a[i] < b[i]) {
        assert i > 0;
        assert a[1..][..i - 1] == a[..i][1..] == b[..i][1..] == b[1..][..i - 1];
      }
    } else if b != "" {
      assert a[..0] == b[..0];
      forall i | 0 < i <= |a| && i < |b| ensures a[..i] != b[..i] {
        assert a[..i][0] == a[0] && b[..i][0] == b[0];
      }
    }
  }

  predicate Sorted(names: seq<string>) {
    forall i, j | 0 <= i < j < |names| :: Less(names[i], names[j])
  }

  function Insert(x: string, names: seq<string>): seq<string> {
    if names == [] || Less(x, names[0]) then [x] + names else [names[0]] + Insert(x, names[1..])
  }

  function Sort(names: seq<string>): seq<string> {
    if names == [] then [] else Insert(names[0], Sort(names[1..]))
  }

  lemma {:induction false} InsertSorts(x: string, names: seq<string>)
    requires Sorted(names) && x !in names
    ensures Sorted(Insert(x, names))
    ensures forall y :: y in Insert(x, names) <==> y == x || y in names
  {
    if names != [] && !Less(x, names[0]) {
      var rest := names[1..];
      assert forall y :: y in names <==> y == names[0] || y in rest;
      InsertSorts(x, rest);
      LessIsTotal(x, names[0]);
      assert names[0] in names;
      assert forall y <- Insert(x, rest) :: Less(names[0], y);
      forall i, j | 0 <= i < j < |Insert(x, names)| ensures Less(Insert(x, names)[i], Insert(x, names)[j]) {
        if i == 0 {
          assert Insert(x, names)[j] == Insert(x, rest)[j - 1];
        }
      }
    } else if names != [] {
      forall i | 0 <= i < |names| ensures Less(x, names[i]) {
        if i > 0 {
          LessIsTransitive(x, names[0], names[i]);
        }
      }
    }
  }

  /** Sorting the names of a directory gives the same names in strictly increasing order. */
  lemma {:induction false} SortSorts(names: seq<string>)
    requires Distinct(names)
    ensures Sorted(Sort(names))
    ensures forall y :: y in Sort(names) <==> y in names
  {
    if names != [] {
      SortSorts(names[1..]);
      assert names[0] !in names[1..];
      assert forall y :: y in names <==> y == names[0] || y in names[1..];
      InsertSorts(names[0], Sort(names[1..]));
    }
  }

  lemma SortedIsDistinct(names: seq<string>)
    requires Sorted(names)
    ensures Distinct(names)
  {
    forall i, j | 0 <= i < j < |names| ensures names[i] != names[j] {
      LessIsIrreflexive(names[i]);
    }
  }

  // ---------------------------------------------------------------- one run

  datatype DirEntry = DirEntry(name: string, isDir: bool)

  predicate IsMigration(e: DirEntry) {
    !e.isDir && |e.name| >= 4 && e.name[|e.name| - 4..] == ".sql"
  }

  function MigrationNames(entries: seq<DirEntry>): seq<string> {
    if entries == [] then []
    else
      var front := MigrationNames(entries[..|entries| - 1]);
      if IsMigration(entries[|entries| - 1]) then front + [entries[|entries| - 1].name] else front
  }

  lemma {:induction false} NamesAreMigrations(entries: seq<DirEntry>, name: string)
    ensures name in MigrationNames(entries) <==> exists e <- entries :: IsMigration(e) && e.name == name
  {
    if entries != [] {
      var front, last := entries[..|entries| - 1], entries[|entries| - 1];
      NamesAreMigrations(front, name);
      assert entries == front + [last];
      assert forall e :: e in entries <==> e in front || e == last;
    }
  }

  lemma IsMigrationIff(e: DirEntry)
    ensures IsMigration(e) <==> !e.isDir && exists stem: string :: e.name == stem + ".sql"
  {
    if IsMigration(e) {
      assert e.name == e.name[..|e.name| - 4] + ".sql";
    }
    if stem: string :| e.name == stem + ".sql" {
      assert (stem + ".sql")[|stem|..] == ".sql";
    }
  }

  /** The files of a run are the directory's entries that are no directories and end in .sql. */
  lemma FilesOf(entries: seq<DirEntry>, name: string)
    requires Distinct(MigrationNames(entries))
    ensures name in Sort(MigrationNames(entries)) <==>
            DirEntry(name, false) in entries && exists stem: string :: name == stem + ".sql"
  {
    SortSorts(MigrationNames(entries));
    NamesAreMigrations(entries, name);
    IsMigrationIff(DirEntry(name, false));
    forall e | e in entries && IsMigration(e) && e.name == name ensures e == DirEntry(name, false) {
    }
  }

  /** What a file does to the schema; None is an SQL error, which rolls the transaction back. */
  type Effect<!S> = (S, string) -> Option<S>

  /** `recorded` is the schema_migrations table; `applied` is the history of committed files. */
  datatype Db<S> = Db(schema: S, recorded: set<string>, applied: seq<string>)

  /** Where a run is interrupted: not at all, before the i-th file is committed, or right after
      (a commit whose acknowledgement is lost). */
  datatype Stop = Never | Before(i: nat) | After(i: nat)

  /** The transaction of one file. */
  function Commit<S>(db: Db<S>, schema: S, name: string): Db<S> {
    Db(schema, db.recorded + {name}, db.applied + [name])
  }

  datatype Outcome<S> = Outcome(db: Db<S>, ok: bool)

  /** The file loop from file i on. */
  function RunFrom<S>(db: Db<S>, files: seq<string>, i: nat, run: Effect<S>, stop: Stop): Outcome<S>
    requires i <= |files|
    decreases |files| - i
  {
    if i == |files| then Outcome(db, true)
    else if stop == Before(i) then Outcome(db, false)
    else if files[i] in db.recorded then
      if stop == After(i) then Outcome(db, false) else RunFrom(db, files, i + 1, run, stop)
    else
      var next := run(db.schema, files[i]);
      if next.None? then Outcome(db, false)
      else
        var after := Commit(db, next.value, files[i]);
        if stop == After(i) then Outcome(after, false) else RunFrom(after, files, i + 1, run, stop)
  }

  class Database<S> {
    var db: Db<S>

    constructor (schema: S)
      ensures db == Db(schema, {}, [])
    {
      db := Db(schema, {}, []);
    }

    method Migrate(entries: seq<DirEntry>, run: Effect<S>, stop: Stop) returns (ok: bool)
      modifies this
      ensures Outcome(db, ok) == RunFrom(old(db), Sort(MigrationNames(entries)), 0, run, stop)
    {
      var names: seq<string> := [];
      for i := 0 to |entries|
        invariant names == MigrationNames(entries[..i])
      {
        assert entries[..i + 1][..i] == entries[..i];
        if IsMigration(entries[i]) {
          names := names + [entries[i].name];
        }
      }
      assert entries[..|entries|] == entries;
      var files := Sort(names);
      for i := 0 to |files|
        invariant RunFrom(db, files, i, run, stop) == RunFrom(old(db), files, 0, run, stop)
      {
        if stop == Before(i) {
          return false;
        }
        if files[i] !in db.recorded {
          var next := run(db.schema, files[i]);
          if next.None? {
            return false;
          }
          db := Commit(db, next.value, files[i]);
        }
        if stop == After(i) {
          return false;
        }
      }
      return true;
    }
  }

  // ---------------------------------------------------------------- convergence

  /** The schema after the given files, each applied once and in order. */
  function Fold<S>(schema: S, files: seq<string>, run: Effect<S>): Option<S> {
    if files == [] then Some(schema)
    else
      var front := Fold(schema, files[..|files| - 1], run);
      if front.None? then None else run(front.value, files[|files| - 1])
  }

  function SetOf(names: seq<string>): set<string> {
    set x | x in names
  }

  /** The recorded versions are exactly the applied files, which are the first k of the sorted
      list, each applied once. */
  predicate UpTo<S(==)>(db: Db<S>, base: S, files: seq<string>, k: nat, run: Effect<S>) {
    && k <= |files|
    && db.applied == files[..k]
    && db.recorded == SetOf(files[..k])
    && Fold(base, files[..k], run) == Some(db.schema)
  }

  ghost predicate Prefix<S>(db: Db<S>, base: S, files: seq<string>, run: Effect<S>) {
    exists k: nat :: UpTo(db, base, files, k, run)
  }

  lemma UpToNext<S>(db: Db<S>, base: S, files: seq<string>, k: nat, run: Effect<S>)
    requires UpTo(db, base, files, k, run) && k < |files| && run(db.schema, files[k]).Some?
    ensures UpTo(Commit(db, run(db.schema, files[k]).value, files[k]), base, files, k + 1, run)
  {
    assert files[..k + 1] == files[..k] + [files[k]] && files[..k + 1][..k] == files[..k];
  }

  /** A file is recorded exactly when it is among the first k. */
  lemma RecordedIff<S>(db: Db<S>, base: S, files: seq<string>, i: nat, k: nat, run: Effect<S>)
    requires Distinct(files) && i < |files| && UpTo(db, base, files, k, run)
    ensures files[i] in db.recorded <==> i < k
  {
    if i < k {
      assert files[..k][i] == files[i];
    }
  }

  /** A recorded file is skipped. */
  lemma RunSkips<S>(db: Db<S>, files: seq<string>, i: nat, run: Effect<S>, stop: Stop)
    requires i < |files| && files[i] in db.recorded
    ensures RunFrom(db, files, i, run, stop) ==
            if stop == Before(i) || stop == After(i) then Outcome(db, false) else RunFrom(db, files, i + 1, run, stop)
  {
  }

  /** Another one is applied, unless it fails. */
  lemma RunApplies<S>(db: Db<S>, files: seq<string>, i: nat, run: Effect<S>, stop: Stop)
    requires i < |files| && files[i] !in db.recorded
    ensures var next := run(db.schema, files[i]);
            RunFrom(db, files, i, run, stop) ==
            if stop == Before(i) || next.None? then Outcome(db, false)
            else if stop == After(i) then Outcome(Commit(db, next.value, files[i]), false)
            else RunFrom(Commit(db, next.value, files[i]), files, i + 1, run, stop)
  {
  }

  /** What every run keeps: a prefix, and all files once it reports success. */
  ghost predicate Kept<S>(out: Outcome<S>, base: S, files: seq<string>, run: Effect<S>) {
    Prefix(out.db, base, files, run) && (out.ok ==> UpTo(out.db, base, files, |files|, run))
  }

  lemma StoppedIsKept<S>(db: Db<S>, base: S, files: seq<string>, k: nat, run: Effect<S>)
    requires UpTo(db, base, files, k, run)
    ensures Kept(Outcome(db, false), base, files, run)
  {
  }

  lemma {:induction false} RunKeepsPrefix<S>(
    db: Db<S>, base: S, files: seq<string>, i: nat, k: nat, run: Effect<S>, stop: Stop)
    requires Distinct(files) && i <= k && UpTo(db, base, files, k, run)
    ensures Kept(RunFrom(db, files, i, run, stop), base, files, run)
    decreases |files| - i, 1
  {
    StoppedIsKept(db, base, files, k, run);
    if i < |files| && stop != Before(i) {
      RecordedIff(db, base, files, i, k, run);
      if i < k {
        RunSkips(db, files, i, run, stop);
        if stop != After(i) {
          RunKeepsPrefix(db, base, files, i + 1, k, run, stop);
        }
      } else {
        RunApplies(db, files, i, run, stop);
        if run(db.schema, files[i]).Some? {
          AppliedIsKept(db, base, files, k, run, stop);
        }
      }
    }
  }

  lemma {:induction false} AppliedIsKept<S>(db: Db<S>, base: S, files: seq<string>, k: nat, run: Effect<S>, stop: Stop)
    requires Distinct(files) && k < |files| && UpTo(db, base, files, k, run) && run(db.schema, files[k]).Some?
    ensures var after := Commit(db, run(db.schema, files[k]).value, files[k]);
            && Kept(Outcome(after, false), base, files, run)
            && Kept(RunFrom(after, files, k + 1, run, stop), base, files, run)
    decreases |files| - k, 0
  {
    var after := Commit(db, run(db.schema, files[k]).value, files[k]);
    UpToNext(db, base, files, k, run);
    StoppedIsKept(after, base, files, k + 1, run);
    RunKeepsPrefix(after, base, files, k + 1, k + 1, run, stop);
  }

  /** Any number of runs, each interrupted as `stops` says. */
  function Runs<S>(db: Db<S>, files: seq<string>, run: Effect<S>, stops: seq<Stop>): Outcome<S> {
    if stops == [] then Outcome(db, false)
    else RunFrom(Runs(db, files, run, stops[..|stops| - 1]).db, files, 0, run, stops[|stops| - 1])
  }

  /** At every moment the applied files are a prefix of the sorted list and equal the recorded
      versions; and once some run reports success, the schema is the one of all files in order. */
  lemma {:induction false} RunsConverge<S>(base: S, files: seq<string>, run: Effect<S>, stops: seq<Stop>)
    requires Distinct(files)
    ensures var out := Runs(Db(base, {}, []), files, run, stops);
            && Prefix(out.db, base, files, run)
            && (out.ok ==> UpTo(out.db, base, files, |files|, run))
  {
    if stops == [] {
      assert UpTo(Db(base, {}, []), base, files, 0, run);
    } else {
      RunsConverge(base, files, run, stops[..|stops| - 1]);
      var db := Runs(Db(base, {}, []), files, run, stops[..|stops| - 1]).db;
      var k: nat :| UpTo(db, base, files, k, run);
      RunKeepsPrefix(db, base, files, 0, k, run, stops[|stops| - 1]);
    }
  }

  lemma {:induction false} FoldPrefix<S>(base: S, files: seq<string>, k: nat, run: Effect<S>)
    requires k <= |files| && Fold(base, files, run).Some?
    ensures Fold(base, files[..k], run).Some?
    decreases |files|
  {
    if k < |files| {
      FoldPrefix(base, files[..|files| - 1], k, run);
      assert files[..|files| - 1][..k] == files[..k];
    } else {
      assert files[..k] == files;
    }
  }

  lemma NextApplies<S>(db: Db<S>, base: S, files: seq<string>, i: nat, run: Effect<S>)
    requires i < |files| && UpTo(db, base, files, i, run) && Fold(base, files, run).Some?
    ensures run(db.schema, files[i]).Some?
  {
    FoldPrefix(base, files, i + 1, run);
    assert files[..i + 1][..i] == files[..i] && files[..i + 1][i] == files[i];
  }

  lemma {:induction false} CleanRunSucceeds<S>(db: Db<S>, base: S, files: seq<string>, i: nat, run: Effect<S>)
    requires Distinct(files) && UpTo(db, base, files, i, run) && Fold(base, files, run).Some?
    ensures RunFrom(db, files, i, run, Never).ok
    decreases |files| - i
  {
    if i < |files| {
      RecordedIff(db, base, files, i, i, run);
      RunApplies(db, files, i, run, Never);
      NextApplies(db, base, files, i, run);
      UpToNext(db, base, files, i, run);
      CleanRunSucceeds(Commit(db, run(db.schema, files[i]).value, files[i]), base, files, i + 1, run);
    }
  }

  /** Interrupted runs followed by a complete one leave exactly the database of one clean run of
      the directory, and that clean run succeeds. */
  lemma SameAsCleanRun<S>(base: S, entries: seq<DirEntry>, run: Effect<S>, stops: seq<Stop>)
    requires Distinct(MigrationNames(entries))
    requires Runs(Db(base, {}, []), Sort(MigrationNames(entries)), run, stops).ok
    ensures var files := Sort(MigrationNames(entries));
            RunFrom(Db(base, {}, []), files, 0, run, Never)
              == Outcome(Runs(Db(base, {}, []), files, run, stops).db, true)
  {
    var files := Sort(MigrationNames(entries));
    SortSorts(MigrationNames(entries));
    SortedIsDistinct(files);
    RunsConverge(base, files, run, stops);
    assert files[..|files|] == files;
    var untouched := Db(base, {}, []);
    assert UpTo(untouched, base, files, 0, run);
    CleanRunSucceeds(untouched, base, files, 0, run);
    RunKeepsPrefix(untouched, base, files, 0, 0, run, Never);
  }
}
