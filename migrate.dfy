/**
 * The migration command line: `up` runs the `.sql` files of the migrations
 * directory in sorted order and stops at the first failure, `create` names a
 * new numbered migration file, `down` only prints a notice. The directory
 * listing and the database's answer to each file are inputs.
 */
module Migrate {

  import opened Wrappers
  import opened Text

  const SqlSuffix := ".sql"

  predicate StartsWith(s: string, prefix: string)
  {
    |s| >= |prefix| && s[..|prefix|] == prefix
  }

  predicate EndsWith(s: string, suffix: string)
  {
    |s| >= |suffix| && s[|s| - |suffix|..] == suffix
  }

  /** `entries.filter(f => f.endsWith('.sql'))`. */
  function SqlFiles(entries: seq<string>): (r: seq<string>)
    ensures |r| <= |entries|
    ensures forall f :: f in r <==> f in entries && EndsWith(f, SqlSuffix)
  {
    if entries == [] then []
    else
      var init := SqlFiles(entries[..|entries| - 1]);
      var last := entries[|entries| - 1];
      assert entries == entries[..|entries| - 1] + [last];
      if EndsWith(last, SqlSuffix) then init + [last] else init
  }

  lemma SqlFilesAppend(entries: seq<string>, f: string)
    ensures SqlFiles(entries + [f]) == SqlFiles(entries) + (if EndsWith(f, SqlSuffix) then [f] else [])
  {
    assert (entries + [f])[..|entries|] == entries;
  }

  /** The files `up` runs, in the order it runs them: the `.sql` entries, sorted. */
  function MigrationOrder(entries: seq<string>): (r: seq<string>)
    ensures Sorted(r)
    ensures multiset(r) == multiset(SqlFiles(entries))
    ensures forall f :: f in r ==> EndsWith(f, SqlSuffix)
  {
    var r := Sort(SqlFiles(entries));
    assert forall f :: f in r ==> f in multiset(SqlFiles(entries));
    r
  }

  // ---------------------------------------------------------------- up

  /** The position of the first file the database rejects, if any. */
  function FirstFailure(files: seq<string>, outcome: string -> Outcome<string>): (r: Option<nat>)
    ensures r.Some? ==> r.value < |files| && outcome(files[r.value]).Fail?
    ensures r.Some? ==> forall j :: 0 <= j < r.value ==> outcome(files[j]).Pass?
    ensures r.None? ==> forall j :: 0 <= j < |files| ==> outcome(files[j]).Pass?
  {
    if files == [] then None
    else if outcome(files[0]).Fail? then Some(0)
    else match FirstFailure(files[1..], outcome)
      case None => None
      case Some(k) => Some(k + 1)
  }

  /** What a run of `up` did: the files it executed, its exit code, and whether it closed the pool. */
  datatype RunReport = RunReport(executed: seq<string>, exitCode: nat, poolEnded: bool)

  /** The run of `up` as a function of the listing and of the database's answer to each file. */
  function RunPlan(entries: seq<string>, outcome: string -> Outcome<string>): (r: RunReport)
    ensures |r.executed| <= |MigrationOrder(entries)| && r.executed == MigrationOrder(entries)[..|r.executed|]
    ensures r.exitCode == 0 || r.exitCode == 1
    ensures r.poolEnded <==> r.exitCode == 0
  {
    var files := MigrationOrder(entries);
    match FirstFailure(files, outcome)
    case Some(k) => RunReport(files[..k + 1], 1, false)
    case None => RunReport(files, 0, true)
  }

  /**
   * `runMigration`: executes each file in order; the first one the database
   * rejects ends the process with exit code 1 before the pool is closed;
   * otherwise all run and the pool is closed.
   */
  method RunMigration(entries: seq<string>, outcome: string -> Outcome<string>) returns (report: RunReport)
    ensures report == RunPlan(entries, outcome)
  {
    var files := MigrationOrder(entries);
    var executed: seq<string> := [];
    for i := 0 to |files|
      invariant executed == files[..i]
      invariant forall j :: 0 <= j < i ==> outcome(files[j]).Pass?
    {
      executed := executed + [files[i]];
      if outcome(files[i]).Fail? {
        assert FirstFailure(files, outcome) == Some(i) by {
          FirstFailureAt(files, outcome, i);
        }
        return RunReport(executed, 1, false);
      }
    }
    assert files[..|files|] == files;
    assert FirstFailure(files, outcome).None?;
    report := RunReport(executed, 0, true);
  }

  lemma FirstFailureAt(files: seq<string>, outcome: string -> Outcome<string>, i: nat)
    requires i < |files| && outcome(files[i]).Fail?
    requires forall j :: 0 <= j < i ==> outcome(files[j]).Pass?
    ensures FirstFailure(files, outcome) == Some(i)
  {
  }

  /**
   * `up` runs `.sql` files only, in ascending order, as a prefix of the
   * sorted listing; every file but the last it ran succeeded; it exits with
   * code 1 exactly when a file failed, and then the failing file is the last
   * one run and no later file is run; it closes the pool exactly when all
   * files succeeded.
   */
  lemma RunStopsAtFirstFailure(entries: seq<string>, outcome: string -> Outcome<string>)
    ensures var report := RunPlan(entries, outcome);
      && var files := MigrationOrder(entries);
      && |report.executed| <= |files| && report.executed == files[..|report.executed|]
      && Sorted(report.executed)
      && (forall f :: f in report.executed ==> EndsWith(f, SqlSuffix))
      && (forall j :: 0 <= j < |report.executed| - 1 ==> outcome(report.executed[j]).Pass?)
      && (report.exitCode == 1 <==> exists f :: f in files && outcome(f).Fail?)
      && (report.exitCode == 1 ==> outcome(report.executed[|report.executed| - 1]).Fail?)
      && (report.exitCode == 0 ==> report.executed == files)
      && (report.poolEnded <==> report.exitCode == 0)
  {
    var files := MigrationOrder(entries);
    match FirstFailure(files, outcome)
    case Some(k) =>
      FailedRun(files, outcome, k);
      SortedPrefix(files, k + 1);
    case None =>
      CleanRun(files, outcome);
  }

  lemma FailedRun(files: seq<string>, outcome: string -> Outcome<string>, k: nat)
    requires FirstFailure(files, outcome) == Some(k)
    ensures k < |files|
    ensures var e := files[..k + 1];
      && (forall f :: f in e ==> f in files)
      && outcome(e[k]).Fail?
      && (forall j :: 0 <= j < k ==> outcome(e[j]).Pass?)
      && (exists f :: f in files && outcome(f).Fail?)
  {
    assert files[k] in files;
  }

  lemma CleanRun(files: seq<string>, outcome: string -> Outcome<string>)
    requires FirstFailure(files, outcome).None?
    ensures files[..|files|] == files
    ensures forall f :: f in files ==> outcome(f).Pass?
  {
    assert files[..|files|] == files;
  }

  lemma SortedPrefix(s: seq<string>, n: nat)
    requires Sorted(s) && n <= |s|
    ensures Sorted(s[..n])
  {
  }

  // ---------------------------------------------------------------- create

  /** The number of the next migration: the `.sql` count plus one, zero-padded to three digits. */
  function MigrationNumber(count: nat): (r: string)
    ensures |r| >= 3
  {
    PadStart(NatToDecimal(count + 1), 3, '0')
  }

  /** `createMigration`: a missing or empty name is refused; otherwise the new file's name. */
  function CreateMigration(name: Option<string>, entries: seq<string>): (r: Result<string, string>)
    ensures r.Failure? <==> name.None? || name.value == ""
    ensures r.Success? ==> EndsWith(r.value, SqlSuffix)
    ensures r.Success? ==> StartsWith(r.value, MigrationNumber(|SqlFiles(entries)|) + "_")
    ensures r.Success? ==> r.value == MigrationNumber(|SqlFiles(entries)|) + "_" + CollapseSpaces(name.value, "_") + SqlSuffix
  {
    if name.None? || name.value == "" then Failure("Please provide a migration name")
    else
      var head := MigrationNumber(|SqlFiles(entries)|) + "_";
      var stem := head + CollapseSpaces(name.value, "_");
      Affixes(head, CollapseSpaces(name.value, "_"));
      Affixes(stem, SqlSuffix);
      StartsWithLonger(stem, head, SqlSuffix);
      Success(stem + SqlSuffix)
  }

  /** A concatenation starts with its first part and ends with its second. */
  lemma Affixes(p: string, s: string)
    ensures StartsWith(p + s, p) && EndsWith(p + s, s)
  {
    assert (p + s)[..|p|] == p;
    assert (p + s)[|p|..] == s;
  }

  /** Text appended at the end keeps a prefix. */
  lemma StartsWithLonger(x: string, p: string, y: string)
    requires StartsWith(x, p)
    ensures StartsWith(x + y, p)
  {
    assert (x + y)[..|p|] == x[..|p|];
  }

  /** The number at the head of a created file name reads back as the `.sql` count plus one. */
  lemma MigrationNumberRoundTrip(count: nat)
    ensures ParseInt(MigrationNumber(count), 10) == Some(count + 1)
    ensures count + 1 < 1000 ==> |MigrationNumber(count)| == 3
  {
    PaddedDecimalRoundTrip(count + 1, 3);
    if count + 1 < 1000 {
      DecimalLength(count + 1, 3);
    }
  }

  /** A created file name has no white space: each run of it in the name became one `_`. */
  lemma CreatedNameHasNoSpaces(name: string, entries: seq<string>)
    requires name != ""
    ensures CreateMigration(Some(name), entries).Success?
    ensures NoSpaces(CreateMigration(Some(name), entries).value)
  {
    var number := MigrationNumber(|SqlFiles(entries)|);
    var stem := CollapseSpaces(name, "_");
    CollapseSpacesClean(name, "_");
    NumberHasNoSpaces(|SqlFiles(entries)|);
    FileNameHasNoSpaces(number, stem);
    assert CreateMigration(Some(name), entries).value == number + "_" + stem + SqlSuffix;
  }

  /**
   * The user's words survive in the file name: a name made of two words
   * separated by a run of white space becomes `NNN_first_second.sql`.
   */
  lemma CreatedNameKeepsWords(first: string, gap: string, second: string, entries: seq<string>)
    requires first != [] && NoSpaces(first) && NoSpaces(second)
    requires gap != [] && forall i :: 0 <= i < |gap| ==> IsSpace(gap[i])
    ensures CreateMigration(Some(first + gap + second), entries)
         == Success(MigrationNumber(|SqlFiles(entries)|) + "_" + first + "_" + second + SqlSuffix)
  {
    var name := first + gap + second;
    var number := MigrationNumber(|SqlFiles(entries)|);
    var r := CreateMigration(Some(name), entries);
    assert r.Success?;
    RunBecomesOne(first, gap, second, "_");
    Regroup(number, first, second);
  }

  lemma Regroup(number: string, first: string, second: string)
    ensures number + "_" + (first + "_" + second) + SqlSuffix == number + "_" + first + "_" + second + SqlSuffix
  {
  }

  /** A name without white space is kept as it is. */
  lemma CreatedNameKeepsPlainName(name: string, entries: seq<string>)
    requires name != "" && NoSpaces(name)
    ensures CreateMigration(Some(name), entries) == Success(MigrationNumber(|SqlFiles(entries)|) + "_" + name + SqlSuffix)
  {
    CollapseSpacesClean(name, "_");
  }

  lemma FileNameHasNoSpaces(number: string, stem: string)
    requires NoSpaces(number) && NoSpaces(stem)
    ensures NoSpaces(number + "_" + stem + SqlSuffix)
  {
    assert NoSpaces("_") && NoSpaces(SqlSuffix);
    NoSpacesConcat("_", stem);
    NoSpacesConcat("_" + stem, SqlSuffix);
    NoSpacesConcat(number, "_" + stem + SqlSuffix);
    assert number + "_" + stem + SqlSuffix == number + ("_" + stem + SqlSuffix);
  }

  /** A created file ends in `.sql`, so the next `create` counts it and numbers one higher. */
  lemma CreatedFileCounts(name: string, entries: seq<string>)
    requires name != ""
    ensures CreateMigration(Some(name), entries).Success?
    ensures var f := CreateMigration(Some(name), entries).value;
      |SqlFiles(entries + [f])| == |SqlFiles(entries)| + 1
  {
    SqlFilesAppend(entries, CreateMigration(Some(name), entries).value);
  }

  lemma NumberHasNoSpaces(count: nat)
    ensures NoSpaces(MigrationNumber(count))
  {
    var number := MigrationNumber(count);
    PaddedDigits(count + 1, 3);
    forall i | 0 <= i < |number|
      ensures !IsSpace(number[i])
    {
      DigitIsNoSpace(number[i]);
    }
  }

  lemma NoSpacesConcat(a: string, b: string)
    requires NoSpaces(a) && NoSpaces(b)
    ensures NoSpaces(a + b)
  {
    assert forall i :: 0 <= i < |a + b| ==> (a + b)[i] == if i < |a| then a[i] else b[i - |a|];
  }

  /**
   * Up to migration 999, files created one after another run in the order
   * they were created: a smaller number sorts first whatever the names.
   */
  lemma CreatedInOrderRunInOrder(n: nat, m: nat, x: string, y: string)
    requires n < m < 999
    ensures Before(MigrationNumber(n) + x, MigrationNumber(m) + y)
  {
    DecimalLength(n + 1, 3);
    DecimalLength(m + 1, 3);
    PaddedDigits(n + 1, 3);
    PaddedDigits(m + 1, 3);
    DigitOrder(MigrationNumber(n), MigrationNumber(m), x, y);
  }

  // ---------------------------------------------------------------- command line

  /** What the command did. */
  datatype Effect =
    | Migrated(report: RunReport)
    | DownNotice
    | Created(filename: string)
    | MissingName
    | Usage

  /**
   * The command dispatch on `argv[2]` and `argv[3]`, with the exit code:
   * `up` runs the migrations, `down` prints a notice, `create` creates a file
   * or refuses a missing name, and anything else prints the usage with exit
   * code 1.
   */
  function Dispatch(command: Option<string>, arg: Option<string>, entries: seq<string>,
                    outcome: string -> Outcome<string>): (r: (Effect, nat))
    ensures command == Some("up") ==> r == (Migrated(RunPlan(entries, outcome)), RunPlan(entries, outcome).exitCode)
    ensures command == Some("down") ==> r == (DownNotice, 0)
    ensures command == Some("create") && CreateMigration(arg, entries).Success? ==>
      r == (Created(CreateMigration(arg, entries).value), 0)
    ensures command == Some("create") && CreateMigration(arg, entries).Failure? ==> r == (MissingName, 1)
    ensures command !in {Some("up"), Some("down"), Some("create")} ==> r == (Usage, 1)
  {
    if command == Some("up") then
      var report := RunPlan(entries, outcome);
      (Migrated(report), report.exitCode)
    else if command == Some("down") then (DownNotice, 0)
    else if command == Some("create") then
      match CreateMigration(arg, entries)
      case Success(filename) => (Created(filename), 0)
      case Failure(_) => (MissingName, 1)
    else (Usage, 1)
  }

  /**
   * The command line succeeds (exit code 0) exactly for `down`, for `create`
   * with a name, and for `up` when every migration succeeded.
   */
  lemma DispatchExitCode(command: Option<string>, arg: Option<string>, entries: seq<string>,
                         outcome: string -> Outcome<string>)
    ensures Dispatch(command, arg, entries, outcome).1 == 0 <==>
      || command == Some("down")
      || (command == Some("create") && arg.Some? && arg.value != "")
      || (command == Some("up") && forall f :: f in MigrationOrder(entries) ==> outcome(f).Pass?)
    ensures Dispatch(command, arg, entries, outcome).1 in {0, 1}
  {
    RunStopsAtFirstFailure(entries, outcome);
  }
}
