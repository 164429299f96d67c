module Migrations {
  /**
   The migration runner of `pkg/db/migrations.go`: runs that may fail at any file, runs to a target,
   the table `schema_migrations`, and the status report.
   */

  import GoStrings
  import opened Wrappers

  datatype Migration = Migration(version: string, name: string)

  /** `schema_migrations`: the recorded versions with their times; `version` is the primary key. */
  type Rows = map<string, int>

  // ---------- names and versions ----------

  function Lower(c: char): char {
    if 'A' <= c <= 'Z' then (c as int - 'A' as int + 'a' as int) as char else c
  }

  /** The name ends in `.sql` in any case. */
  predicate HasSqlSuffix(name: string) {
    var n := |name|;
    n >= 4 && name[n - 4] == '.' && Lower(name[n - 3]) == 's' && Lower(name[n - 2]) == 'q' && Lower(name[n - 1]) == 'l'
  }

  /** `filepath.Ext`: from the last dot on, if there is one. */
  function Ext(name: string): string {
    if name == "" then ""
    else if name[|name| - 1] == '.' then "."
    else
      var e := Ext(name[..|name| - 1]);
      if e == "" then "" else e + [name[|name| - 1]]
  }

  /** `strings.TrimSuffix(name, filepath.Ext(name))`. */
  function VersionOf(name: string): string {
    var e := Ext(name);
    if |e| <= |name| && name[|name| - |e|..] == e then name[..|name| - |e|] else name
  }

  function NormalizeVersion(v: string): string {
    if |v| > 4 && HasSqlSuffix(v) then v[..|v| - 4] else v
  }

  lemma SqlExt(name: string)
    requires HasSqlSuffix(name)
    ensures VersionOf(name) == name[..|name| - 4]
  {
    var n := |name|;
    var a, b, c := name[..n - 1], name[..n - 2], name[..n - 3];
    assert a[..n - 2] == b && b[..n - 3] == c;
    assert Ext(c) == ".";
    assert Ext(b) == "." + [name[n - 3]];
    assert Ext(a) == "." + [name[n - 3]] + [name[n - 2]];
    assert Ext(name) == "." + [name[n - 3]] + [name[n - 2]] + [name[n - 1]];
    assert name[n - 4..] == Ext(name);
  }

  /** A recorded file name is read back as the version of the file exactly when it is longer than ".sql". */
  lemma RecordedNameCounts(name: string)
    requires HasSqlSuffix(name)
    ensures NormalizeVersion(name) == VersionOf(name) <==> |name| > 4
  {
    SqlExt(name);
    if |name| == 4 {
      assert VersionOf(name) == "";
    }
  }

  /** The versions that count as applied. */
  function Applied(rows: set<string>): (r: set<string>) {
    set v | v in rows :: NormalizeVersion(v)
  }

  // ---------- one run ----------

  /** The file is tried by a run that finds these rows. */
  predicate IsPending(rows: set<string>, m: Migration) {
    m.version !in Applied(rows)
  }

  /** Where a run over the first `limit` files stops: at the first file that is tried and fails. */
  function Stop(rows: set<string>, files: seq<Migration>, fails: nat -> bool, i: nat, limit: nat): (r: nat)
    requires i <= limit <= |files|
    ensures i <= r <= limit
    decreases limit - i
  {
    if i == limit then limit
    else if IsPending(rows, files[i]) && (fails(i) || files[i].name in rows) then i
    else Stop(rows, files, fails, i + 1, limit)
  }

  /** The files among the first `i` that are tried, in order. */
  function Tried(rows: set<string>, files: seq<Migration>, i: nat): seq<Migration>
    requires i <= |files|
  {
    if i == 0 then []
    else
      var before := Tried(rows, files, i - 1);
      if IsPending(rows, files[i - 1]) then before + [files[i - 1]] else before
  }

  function Passed(rows: set<string>, files: seq<Migration>, i: nat): seq<Migration>
    requires i <= |files|
  {
    if i == 0 then []
    else
      var before := Passed(rows, files, i - 1);
      if IsPending(rows, files[i - 1]) then before else before + [files[i - 1]]
  }

  function Names(files: seq<Migration>): (r: seq<string>)
    ensures |r| == |files| && forall i :: 0 <= i < |files| ==> r[i] == files[i].name
  {
    seq(|files|, i requires 0 <= i < |files| => files[i].name)
  }

  function Versions(files: seq<Migration>): (r: seq<string>)
    ensures |r| == |files| && forall i :: 0 <= i < |files| ==> r[i] == files[i].version
  {
    seq(|files|, i requires 0 <= i < |files| => files[i].version)
  }

  function AsSet(names: seq<string>): set<string> {
    set n | n in names
  }

  /** What a run over the first `limit` files commits, in order. */
  function Committed(rows: set<string>, files: seq<Migration>, fails: nat -> bool, limit: nat): seq<string>
    requires limit <= |files|
  {
    Names(Tried(rows, files, Stop(rows, files, fails, 0, limit)))
  }

  /** A file list as `findMigrations` makes it from a directory, whose names are distinct. */
  ghost predicate IsFileList(files: seq<Migration>) {
    && (forall m :: m in files ==> HasSqlSuffix(m.name) && m.version == VersionOf(m.name))
    && (forall i, j :: 0 <= i < j < |files| ==> files[i].name != files[j].name)
  }

  ghost predicate DistinctVersions(files: seq<Migration>) {
    forall i, j :: 0 <= i < j < |files| ==> files[i].version != files[j].version
  }

  // ---------- one file ----------

  /** The text up to the Down section, if there is one. */
  function UpSection(sql: string): string {
    var idx := GoStrings.Index(sql, "-- +goose Down");
    if idx != -1 then sql[..idx] else sql
  }

  /** The file cannot be read, has nothing in it, or the database does not execute and commit it. */
  predicate FileFails(content: Option<string>, executes: string -> bool) {
    content.None? || GoStrings.TrimSpace(content.value) == "" || !executes(UpSection(content.value))
  }

  /** Which files fail, from what reading each gives and what the database executes at its turn. */
  function FailsOf(contents: nat -> Option<string>, executes: nat -> string -> bool): nat -> bool {
    (i: nat) => FileFails(contents(i), executes(i))
  }

  /** A file without a Down marker is executed as it stands. */
  lemma NoDownRunsAll(sql: string, executes: string -> bool)
    requires forall i: nat :: !GoStrings.OccursAt(sql, "-- +goose Down", i)
    ensures UpSection(sql) == sql
    ensures FileFails(Some(sql), executes) <==> GoStrings.TrimSpace(sql) == "" || !executes(sql)
  {
  }

  /** What follows the Down marker is never executed. */
  lemma DownIsCut(up: string, down: string, executes: string -> bool)
    requires GoStrings.Index(up + "-- +goose Down", "-- +goose Down") == |up|
    ensures UpSection(up + "-- +goose Down" + down) == up
    ensures FileFails(Some(up + "-- +goose Down" + down), executes) <==>
            GoStrings.TrimSpace(up + "-- +goose Down" + down) == "" || !executes(up)
  {
    var mark := "-- +goose Down";
    var s, t := up + mark, up + mark + down;
    assert t[|up|..|up| + |mark|] == mark;
    forall k: nat | k < |up| ensures !GoStrings.OccursAt(t, mark, k) {
      assert !GoStrings.OccursAt(s, mark, k);
      assert s[k..k + |mark|] == t[k..k + |mark|];
    }
    GoStrings.IndexIs(t, mark, |up|);
    assert t[..|up|] == up;
  }

  // ---------- when a run without failures succeeds ----------

  ghost predicate NeverFails(fails: nat -> bool) {
    forall i: nat :: !fails(i)
  }

  /** A recorded file that does not count as applied is tried again, and its row is there already. */
  ghost predicate Stuck(rows: set<string>, m: Migration) {
    m.name in rows && IsPending(rows, m)
  }

  lemma {:induction false} StopsAtStuck(rows: set<string>, files: seq<Migration>, fails: nat -> bool,
                                        i: nat, limit: nat)
    requires NeverFails(fails) && i <= limit <= |files|
    ensures Stop(rows, files, fails, i, limit) == limit <==> forall j :: i <= j < limit ==> !Stuck(rows, files[j])
    decreases limit - i
  {
    if i < limit {
      StopsAtStuck(rows, files, fails, i + 1, limit);
    }
  }

  /** A recorded file longer than ".sql" is never stuck; one called ".sql" is, unless there is a row "". */
  lemma StuckExactly(rows: set<string>, m: Migration)
    requires HasSqlSuffix(m.name) && m.version == VersionOf(m.name) && m.name in rows
    ensures Stuck(rows, m) <==> |m.name| == 4 && "" !in rows
  {
    if |m.name| == 4 {
      BareIsPendingExactly(rows, m);
    } else {
      RecordedNameCounts(m.name);
      CountsAsApplied(rows, m.name, m);
    }
  }

  /** A run that nothing disturbs gets through unless a file called ".sql" was recorded before. */
  lemma UndisturbedRunSucceeds(rows: set<string>, files: seq<Migration>, fails: nat -> bool)
    requires IsFileList(files) && NeverFails(fails)
    ensures Stop(rows, files, fails, 0, |files|) == |files| <==>
            forall m :: m in files && m.name in rows && |m.name| == 4 ==> "" in rows
  {
    hide Stop, NeverFails;
    StopsAtStuck(rows, files, fails, 0, |files|);
    forall m | m in files && m.name in rows ensures Stuck(rows, m) <==> |m.name| == 4 && "" !in rows {
      StuckExactly(rows, m);
    }
    forall j | 0 <= j < |files| ensures files[j] in files {
    }
  }

  const BARE := Migration("", ".sql")

  lemma BareIsPending(rows: set<string>)
    requires rows == {} || rows == {".sql"}
    ensures IsPending(rows, BARE) && IsFileList([BARE])
  {
    hide Ext, VersionOf, Lower;
    assert HasSqlSuffix(BARE.name) by { BareHasSuffix(); }
    SqlExt(BARE.name);
    assert BARE.name[..0] == "";
    assert forall v :: v in rows ==> NormalizeVersion(v) == BARE.name;
  }

  lemma BareHasSuffix()
    ensures HasSqlSuffix(BARE.name)
  {
  }

  /** After a file called ".sql" was recorded no run gets past it, even with nothing else wrong. */
  lemma BareNameStopsEveryRun(works: nat -> bool, fails: nat -> bool)
    requires NeverFails(works)
    ensures IsFileList([BARE])
    ensures Committed({}, [BARE], works, 1) == [".sql"]
    ensures Stop({".sql"}, [BARE], fails, 0, 1) == 0
  {
    assert BARE.name == ".sql";
    hide *;
    BareIsPending({});
    BareIsPending({".sql"});
    assert !works(0) by { NoFailure(works); }
    RunOfOne({}, BARE, works);
    RunOfOne({".sql"}, BARE, fails);
  }

  lemma NoFailure(works: nat -> bool)
    requires NeverFails(works)
    ensures !works(0)
  {
  }

  /** A run over one file that is tried. */
  lemma RunOfOne(rows: set<string>, m: Migration, fails: nat -> bool)
    requires IsPending(rows, m)
    ensures Stop(rows, [m], fails, 0, 1) == if fails(0) || m.name in rows then 0 else 1
    ensures !fails(0) && m.name !in rows ==> Committed(rows, [m], fails, 1) == [m.name]
  {
    hide IsPending;
    assert Stop(rows, [m], fails, 1, 1) == 1;
    assert Tried(rows, [m], 0) == [];
    assert Tried(rows, [m], 1) == [] + [m] == [m];
  }

  // ---------- the status ----------

  /** Every file is in exactly one of the two lists, once. */
  lemma {:induction false} StatusPartitions(rows: set<string>, files: seq<Migration>, i: nat, m: Migration)
    requires i <= |files|
    ensures multiset(Tried(rows, files, i))[m] + multiset(Passed(rows, files, i))[m] == multiset(files[..i])[m]
    ensures m in Tried(rows, files, i) ==> IsPending(rows, m)
    ensures m in Passed(rows, files, i) ==> !IsPending(rows, m)
  {
    hide *;
    if i == 0 {
      NoFile(rows, files);
      assert files[..0] == [];
    } else {
      StatusPartitions(rows, files, i - 1, m);
      assert files[..i] == files[..i - 1] + [files[i - 1]];
      CountSnoc(files[..i - 1], files[i - 1], m);
      NextFile(rows, files, i - 1);
      CountSnoc(Tried(rows, files, i - 1), files[i - 1], m);
      CountSnoc(Passed(rows, files, i - 1), files[i - 1], m);
    }
  }

  lemma NoFile(rows: set<string>, files: seq<Migration>)
    ensures Tried(rows, files, 0) == Passed(rows, files, 0) == []
  {
  }

  lemma NextFile(rows: set<string>, files: seq<Migration>, i: nat)
    requires i < |files|
    ensures var m, tried, passed := files[i], Tried(rows, files, i), Passed(rows, files, i);
      && Tried(rows, files, i + 1) == (if IsPending(rows, m) then tried + [m] else tried)
      && Passed(rows, files, i + 1) == (if IsPending(rows, m) then passed else passed + [m])
  {
  }

  ghost predicate IsAmong(files: seq<Migration>, i: nat, m: Migration)
    requires i <= |files|
  {
    exists p :: 0 <= p < i && files[p] == m
  }

  ghost predicate StandBefore(files: seq<Migration>, i: nat, m: Migration, m': Migration)
    requires i <= |files|
  {
    exists p, q :: 0 <= p < q < i && files[p] == m && files[q] == m'
  }

  lemma StandBeforeGrows(files: seq<Migration>, i: nat, m: Migration, m': Migration)
    requires i < |files|
    ensures IsAmong(files, i, m) ==> IsAmong(files, i + 1, m) && StandBefore(files, i + 1, m, files[i])
    ensures StandBefore(files, i, m, m') ==> StandBefore(files, i + 1, m, m')
    ensures IsAmong(files, i + 1, files[i])
  {
  }

  /** The list has files from the first `i` only, and in their order. */
  ghost predicate IsSublist(files: seq<Migration>, i: nat, list: seq<Migration>)
    requires i <= |files|
  {
    && (forall a :: 0 <= a < |list| ==> IsAmong(files, i, list[a]))
    && (forall a, b :: 0 <= a < b < |list| ==> StandBefore(files, i, list[a], list[b]))
  }

  lemma SublistGrows(files: seq<Migration>, i: nat, list: seq<Migration>)
    requires i < |files| && IsSublist(files, i, list)
    ensures IsSublist(files, i + 1, list) && IsSublist(files, i + 1, list + [files[i]])
  {
    hide IsAmong, StandBefore;
    forall a, b | 0 <= a < |list| && 0 <= b < |list|
      ensures IsAmong(files, i + 1, list[a]) && StandBefore(files, i + 1, list[a], files[i])
      ensures a < b ==> StandBefore(files, i + 1, list[a], list[b])
    {
      StandBeforeGrows(files, i, list[a], list[b]);
    }
    StandBeforeGrows(files, i, files[i], files[i]);
  }

  /** Both lists keep the order of the files. */
  lemma {:induction false} StatusKeepsOrder(rows: set<string>, files: seq<Migration>, i: nat)
    requires i <= |files|
    ensures IsSublist(files, i, Passed(rows, files, i)) && IsSublist(files, i, Tried(rows, files, i))
  {
    if i == 0 {
      NoFile(rows, files);
    } else {
      hide *;
      StatusKeepsOrder(rows, files, i - 1);
      NextFile(rows, files, i - 1);
      SublistGrows(files, i - 1, Passed(rows, files, i - 1));
      SublistGrows(files, i - 1, Tried(rows, files, i - 1));
    }
  }

  lemma CountSnoc(files: seq<Migration>, last: Migration, m: Migration)
    ensures multiset(files + [last])[m] == multiset(files)[m] + if last == m then 1 else 0
    ensures m in files + [last] <==> m in files || m == last
  {
  }

  datatype StatusEntry = StatusEntry(version: string, name: string, appliedAt: Option<int>)

  datatype MigrationStatus =
    MigrationStatus(applied: seq<StatusEntry>, pending: seq<StatusEntry>, drift: seq<StatusEntry>)

  /** Every version counts with the time of one of its rows. */
  ghost predicate AreTimes(times: map<string, int>, rows: Rows) {
    && times.Keys == Applied(rows.Keys)
    && forall v :: v in times ==> IsTimeOf(v, times[v], rows)
  }

  ghost predicate IsTimeOf(version: string, time: int, rows: Rows) {
    exists r :: r in rows && NormalizeVersion(r) == version && rows[r] == time
  }

  // ---------- the methods ----------

  datatype MigrationResult = MigrationResult(applied: seq<string>, skipped: seq<string>, errors: seq<string>)

  lemma {:induction false} TriedAreEarlier(rows: set<string>, files: seq<Migration>, i: nat, m: Migration)
    requires i <= |files| && m in Tried(rows, files, i)
    ensures exists j :: 0 <= j < i && files[j] == m
  {
    if m == files[i - 1] {
    } else {
      TriedAreEarlier(rows, files, i - 1, m);
    }
  }

  /** No file of a run has the name of one the same run committed before. */
  lemma NameIsNew(rows: set<string>, files: seq<Migration>, i: nat)
    requires IsFileList(files) && i < |files|
    ensures files[i].name !in AsSet(Names(Tried(rows, files, i)))
  {
    var tried := Tried(rows, files, i);
    forall k | 0 <= k < |tried| ensures tried[k].name != files[i].name {
      TriedAreEarlier(rows, files, i, tried[k]);
      var j :| 0 <= j < i && files[j] == tried[k];
    }
  }

  /** A run has dealt with the first `i` files. */
  ghost predicate Halfway(before: Rows, files: seq<Migration>, i: nat, rows: Rows, result: MigrationResult)
    requires i <= |files|
  {
    && rows.Keys == before.Keys + AsSet(Names(Tried(before.Keys, files, i)))
    && (forall v :: v in before ==> v in rows && rows[v] == before[v])
    && result == MigrationResult(Versions(Tried(before.Keys, files, i)), Versions(Passed(before.Keys, files, i)), [])
  }

  lemma SkippingKeepsHalfway(before: Rows, files: seq<Migration>, i: nat, rows: Rows, result: MigrationResult)
    requires i < |files| && Halfway(before, files, i, rows, result) && !IsPending(before.Keys, files[i])
    ensures Halfway(before, files, i + 1, rows, result.(skipped := result.skipped + [files[i].version]))
  {
    hide IsPending, AsSet;
    assert Versions(Passed(before.Keys, files, i) + [files[i]]) ==
           Versions(Passed(before.Keys, files, i)) + [files[i].version];
  }

  lemma ApplyingKeepsHalfway(before: Rows, files: seq<Migration>, i: nat, rows: Rows, result: MigrationResult,
                             time: int)
    requires i < |files| && Halfway(before, files, i, rows, result) && IsPending(before.Keys, files[i])
    requires files[i].name !in rows
    ensures Halfway(before, files, i + 1, rows[files[i].name := time],
                    result.(applied := result.applied + [files[i].version]))
  {
    hide IsPending;
    var tried := Tried(before.Keys, files, i);
    assert Versions(tried + [files[i]]) == Versions(tried) + [files[i].version];
    assert Names(tried + [files[i]]) == Names(tried) + [files[i].name];
    assert AsSet(Names(tried) + [files[i].name]) == AsSet(Names(tried)) + {files[i].name};
  }

  lemma StopStep(rows: set<string>, files: seq<Migration>, fails: nat -> bool, i: nat, limit: nat)
    requires i <= limit <= |files|
    ensures i == limit ==> Stop(rows, files, fails, i, limit) == limit
    ensures i < limit && files[i].version !in Applied(rows) && (fails(i) || files[i].name in rows) ==>
      Stop(rows, files, fails, i, limit) == i
    ensures i < limit && !(files[i].version !in Applied(rows) && (fails(i) || files[i].name in rows)) ==>
      Stop(rows, files, fails, i, limit) == Stop(rows, files, fails, i + 1, limit)
    ensures i < limit ==> (IsPending(rows, files[i]) <==> files[i].version !in Applied(rows))
  {
  }

  /** At its turn a file has a row exactly when it had one before the run. */
  lemma NameIsFree(before: Rows, files: seq<Migration>, i: nat, rows: Rows, result: MigrationResult)
    requires IsFileList(files) && i < |files| && Halfway(before, files, i, rows, result)
    ensures files[i].name in rows <==> files[i].name in before.Keys
  {
    NameIsNew(before.Keys, files, i);
  }

  lemma RunEnds(before: Rows, files: seq<Migration>, fails: nat -> bool, i: nat, limit: nat, rows: Rows,
                result: MigrationResult)
    requires i <= limit <= |files| && Halfway(before, files, i, rows, result)
    requires Stop(before.Keys, files, fails, 0, limit) == i
    ensures RunIs(before, files, fails, limit, rows,
                  result.(errors := if i < limit then [files[i].version] else []), i < limit)
  {
    hide Tried, Passed, Stop, AsSet, Applied;
  }

  lemma NothingDone(before: Rows, files: seq<Migration>)
    ensures Halfway(before, files, 0, before, MigrationResult([], [], []))
  {
  }

  lemma FailsOfIs(contents: nat -> Option<string>, executes: nat -> string -> bool, i: nat)
    ensures FailsOf(contents, executes)(i) == FileFails(contents(i), executes(i))
  {
  }

  /** The first file from `i` on with the version, or the number of files. */
  function FirstWith(files: seq<Migration>, version: string, i: nat): (r: nat)
    requires i <= |files|
    ensures i <= r <= |files|
    ensures forall j :: i <= j < r ==> files[j].version != version
    ensures r < |files| ==> files[r].version == version
    decreases |files| - i
  {
    if i == |files| || files[i].version == version then i else FirstWith(files, version, i + 1)
  }

  class Database {
    var rows: Rows

    constructor ()
      ensures rows == map[]
    {
      rows := map[];
    }

    /** One transaction: the file and its row, or nothing. */
    method ApplyMigration(m: Migration, content: Option<string>, executes: string -> bool, now: int) returns (ok: bool)
      modifies this
      ensures ok <==> !FileFails(content, executes) && m.name !in old(rows)
      ensures rows == if ok then old(rows)[m.name := now] else old(rows)
    {
      if content.None? {
        return false;
      }
      var sql := content.value;
      if GoStrings.TrimSpace(sql) == "" {
        return false;
      }
      var idx := GoStrings.Index(sql, "-- +goose Down");
      if idx != -1 {
        sql := sql[..idx];
      }
      if !executes(sql) || m.name in rows {
        return false;
      }
      rows := rows[m.name := now];
      return true;
    }

    method GetAppliedMigrations() returns (applied: set<string>)
      ensures applied == Applied(rows.Keys)
    {
      applied := {};
      var left := rows.Keys;
      while left != {}
        invariant left <= rows.Keys && applied == Applied(rows.Keys - left)
        decreases |left|
      {
        var version :| version in left;
        applied := applied + {NormalizeVersion(version)};
        assert rows.Keys - (left - {version}) == rows.Keys - left + {version};
        left := left - {version};
      }
      assert rows.Keys - left == rows.Keys;
    }

    /** The loop of both runs. */
    method ApplyUpTo(files: seq<Migration>, limit: nat, contents: nat -> Option<string>,
                     executes: nat -> string -> bool, now: nat -> int)
        returns (result: MigrationResult, failed: bool)
      requires IsFileList(files) && limit <= |files|
      modifies this
      ensures RunIs(old(rows), files, FailsOf(contents, executes), limit, rows, result, failed)
    {
      hide *;
      ghost var before := rows;
      ghost var fails := FailsOf(contents, executes);
      var applied := GetAppliedMigrations();
      result := MigrationResult([], [], []);
      NothingDone(before, files);
      for i := 0 to limit
        invariant Halfway(before, files, i, rows, result) && result.errors == []
        invariant Stop(before.Keys, files, fails, i, limit) == Stop(before.Keys, files, fails, 0, limit)
      {
        var m := files[i];
        StopStep(before.Keys, files, fails, i, limit);
        FailsOfIs(contents, executes, i);
        if m.version in applied {
          SkippingKeepsHalfway(before, files, i, rows, result);
          result := result.(skipped := result.skipped + [m.version]);
          continue;
        }
        NameIsFree(before, files, i, rows, result);
        ghost var current := rows;
        var ok := ApplyMigration(m, contents(i), executes(i), now(i));
        if !ok {
          RunEnds(before, files, fails, i, limit, rows, result);
          result := result.(errors := [m.version]);
          return result, true;
        }
        ApplyingKeepsHalfway(before, files, i, current, result, now(i));
        result := result.(applied := result.applied + [m.version]);
      }
      StopStep(before.Keys, files, fails, limit, limit);
      RunEnds(before, files, fails, limit, limit, rows, result);
      return result, false;
    }

    method RunMigrations(files: seq<Migration>, contents: nat -> Option<string>, executes: nat -> string -> bool,
                         now: nat -> int)
        returns (result: MigrationResult, failed: bool)
      requires IsFileList(files)
      modifies this
      ensures RunIs(old(rows), files, FailsOf(contents, executes), |files|, rows, result, failed)
    {
      result, failed := ApplyUpTo(files, |files|, contents, executes, now);
    }

    method FindTarget(files: seq<Migration>, targetVersion: string) returns (targetIndex: int)
      ensures var t := FirstWith(files, targetVersion, 0);
        targetIndex == if t < |files| then t else -1
    {
      for i := 0 to |files|
        invariant FirstWith(files, targetVersion, 0) == FirstWith(files, targetVersion, i)
      {
        if files[i].version == targetVersion {
          return i;
        }
      }
      return -1;
    }

    method RunMigrationsToTarget(files: seq<Migration>, targetVersion: string, contents: nat -> Option<string>,
                                 executes: nat -> string -> bool, now: nat -> int)
        returns (r: Result<MigrationResult, string>, failed: bool)
      requires IsFileList(files)
      modifies this
      ensures var t := FirstWith(files, targetVersion, 0);
        if files == [] then r == Ok(MigrationResult([], [], [])) && !failed && rows == old(rows)
        else if t == |files| then r == Err(targetVersion) && failed && rows == old(rows)
        else r.Ok? && RunIs(old(rows), files, FailsOf(contents, executes), t + 1, rows, r.value, failed)
    {
      hide *;
      if |files| == 0 {
        return Ok(MigrationResult([], [], [])), false;
      }
      var targetIndex := FindTarget(files, targetVersion);
      if targetIndex == -1 {
        return Err(targetVersion), true;
      }
      var result;
      result, failed := ApplyUpTo(files, targetIndex + 1, contents, executes, now);
      return Ok(result), failed;
    }

    method GetAppliedMigrationsWithTimestamps() returns (applied: map<string, int>)
      ensures AreTimes(applied, rows)
    {
      applied := map[];
      var left := rows.Keys;
      while left != {}
        invariant left <= rows.Keys && applied.Keys == Applied(rows.Keys - left)
        invariant forall v :: v in applied ==> IsTimeOf(v, applied[v], rows)
        decreases |left|
      {
        var version :| version in left;
        assert IsTimeOf(NormalizeVersion(version), rows[version], rows);
        applied := applied[NormalizeVersion(version) := rows[version]];
        assert rows.Keys - (left - {version}) == rows.Keys - left + {version};
        left := left - {version};
      }
      assert rows.Keys - left == rows.Keys;
    }

    method GetPendingMigrations(files: seq<Migration>) returns (pending: seq<Migration>)
      ensures pending == Tried(rows.Keys, files, |files|)
    {
      var applied := GetAppliedMigrations();
      pending := [];
      for i := 0 to |files|
        invariant pending == Tried(rows.Keys, files, i)
      {
        if files[i].version !in applied {
          pending := pending + [files[i]];
        }
      }
    }

    method GetMigrationStatus(files: seq<Migration>) returns (status: MigrationStatus)
      ensures EntriesOf(status.pending, Tried(rows.Keys, files, |files|))
      ensures EntriesOf(status.applied, Passed(rows.Keys, files, |files|))
      ensures forall e :: e in status.pending ==> e.appliedAt == None
      ensures forall e :: e in status.applied ==> e.appliedAt.Some? && IsTimeOf(e.version, e.appliedAt.value, rows)
      ensures IsDrift(status.drift, rows, files)
    {
      var appliedMap := GetAppliedMigrationsWithTimestamps();
      var applied, pending := [], [];
      for i := 0 to |files|
        invariant EntriesOf(pending, Tried(rows.Keys, files, i))
        invariant EntriesOf(applied, Passed(rows.Keys, files, i))
        invariant forall e :: e in pending ==> e.appliedAt == None
        invariant forall e :: e in applied ==> e.appliedAt.Some? && IsTimeOf(e.version, e.appliedAt.value, rows)
      {
        var m := files[i];
        if m.version in appliedMap {
          applied := applied + [StatusEntry(m.version, m.name, Some(appliedMap[m.version]))];
        } else {
          pending := pending + [StatusEntry(m.version, m.name, None)];
        }
      }
      var drift := DriftOf(appliedMap, files);
      return MigrationStatus(applied, pending, drift);
    }

    method DriftOf(appliedMap: map<string, int>, files: seq<Migration>) returns (drift: seq<StatusEntry>)
      requires AreTimes(appliedMap, rows)
      ensures IsDrift(drift, rows, files)
    {
      hide IsTimeOf, Applied, NormalizeVersion;
      var fileVersions := set m | m in files :: m.version;
      drift := [];
      var left := appliedMap.Keys;
      while left != {}
        invariant left <= appliedMap.Keys
        invariant forall e :: e in drift ==> IsDriftEntry(e, rows, files) && e.version !in left
        invariant forall v :: v in appliedMap.Keys - left && v !in fileVersions ==> HasEntry(drift, v)
        invariant forall i, j :: 0 <= i < j < |drift| ==> drift[i].version != drift[j].version
        decreases |left|
      {
        var version :| version in left;
        left := left - {version};
        if version !in fileVersions {
          ghost var before := drift;
          var e := StatusEntry(version, version + ".sql", Some(appliedMap[version]));
          drift := drift + [e];
          assert drift[|before|] == e;
          forall v | HasEntry(before, v) ensures HasEntry(drift, v) {
            var i :| 0 <= i < |before| && before[i].version == v;
            assert drift[i].version == v;
          }
        }
      }
    }
  }

  // ---------- what the methods promise ----------

  ghost predicate EntriesOf(entries: seq<StatusEntry>, files: seq<Migration>) {
    && |entries| == |files|
    && forall i :: 0 <= i < |files| ==> entries[i].version == files[i].version && entries[i].name == files[i].name
  }

  ghost predicate HasEntry(entries: seq<StatusEntry>, version: string) {
    exists i :: 0 <= i < |entries| && entries[i].version == version
  }

  /** An applied version no file has, with its time. */
  ghost predicate IsDriftEntry(e: StatusEntry, rows: Rows, files: seq<Migration>) {
    && e.version in Applied(rows.Keys)
    && (forall m :: m in files ==> m.version != e.version)
    && e.name == e.version + ".sql"
    && e.appliedAt.Some? && IsTimeOf(e.version, e.appliedAt.value, rows)
  }

  /** The drift lists every applied version without a file, once, and nothing else. */
  ghost predicate IsDrift(drift: seq<StatusEntry>, rows: Rows, files: seq<Migration>) {
    && (forall e :: e in drift ==> IsDriftEntry(e, rows, files))
    && (forall v :: v in Applied(rows.Keys) && (forall m :: m in files ==> m.version != v) ==> HasEntry(drift, v))
    && (forall i, j :: 0 <= i < j < |drift| ==> drift[i].version != drift[j].version)
  }

  /** What a run over the first `limit` files leaves and reports. */
  ghost predicate RunIs(before: Rows, files: seq<Migration>, fails: nat -> bool, limit: nat,
                        after: Rows, result: MigrationResult, failed: bool)
    requires limit <= |files|
  {
    var stop := Stop(before.Keys, files, fails, 0, limit);
    && after.Keys == before.Keys + AsSet(Committed(before.Keys, files, fails, limit))
    && (forall v :: v in before ==> v in after && after[v] == before[v])
    && (failed <==> stop < limit)
    && result.applied == Versions(Tried(before.Keys, files, stop))
    && result.skipped == Versions(Passed(before.Keys, files, stop))
    && result.errors == if stop < limit then [files[stop].version] else []
  }

  lemma {:induction false} TriedHas(rows: set<string>, files: seq<Migration>, i: nat, j: nat)
    requires j < i <= |files| && IsPending(rows, files[j])
    ensures files[j] in Tried(rows, files, i)
  {
    if j < i - 1 {
      TriedHas(rows, files, i - 1, j);
    }
  }

  /** After a full run without failure no file is pending, except a ".sql" while there is no row with no text. */
  lemma SuccessLeavesNothingPending(before: Rows, files: seq<Migration>, fails: nat -> bool, after: Rows,
                                    result: MigrationResult, j: nat)
    requires IsFileList(files) && RunIs(before, files, fails, |files|, after, result, false) && j < |files|
    ensures IsPending(after.Keys, files[j]) <==> |files[j].name| == 4 && "" !in before
  {
    assert files[j] in files;
    RunKeepsRows(before, files, fails, after, result);
    if |files[j].name| == 4 {
      RunAddsNoEmptyName(before, files, fails, after, result);
      BareIsPendingExactly(after.Keys, files[j]);
    } else if IsPending(before.Keys, files[j]) {
      RunRecordsTried(before, files, fails, after, result, j);
      RecordedNameCounts(files[j].name);
      CountsAsApplied(after.Keys, files[j].name, files[j]);
    } else {
      AppliedGrows(before.Keys, after.Keys, files[j]);
    }
    hide *;
  }

  /** A ".sql" counts as applied only by a row with no text. */
  lemma BareIsPendingExactly(rows: set<string>, m: Migration)
    requires HasSqlSuffix(m.name) && m.version == VersionOf(m.name) && |m.name| == 4
    ensures IsPending(rows, m) <==> "" !in rows
  {
    SqlExt(m.name);
    if "" in rows {
      assert NormalizeVersion("") in Applied(rows);
    } else {
      forall v | v in rows ensures NormalizeVersion(v) != "" {
      }
    }
  }

  lemma RunAddsNoEmptyName(before: Rows, files: seq<Migration>, fails: nat -> bool, after: Rows,
                           result: MigrationResult)
    requires IsFileList(files) && RunIs(before, files, fails, |files|, after, result, false)
    ensures "" in after <==> "" in before
  {
    var tried := Tried(before.Keys, files, Stop(before.Keys, files, fails, 0, |files|));
    var names := Names(tried);
    forall t | 0 <= t < |names| ensures names[t] != "" {
      TriedAreEarlier(before.Keys, files, Stop(before.Keys, files, fails, 0, |files|), tried[t]);
      assert tried[t] in files;
    }
    hide Tried, Stop;
    assert names == Committed(before.Keys, files, fails, |files|);
  }

  lemma RunKeepsRows(before: Rows, files: seq<Migration>, fails: nat -> bool, after: Rows, result: MigrationResult)
    requires RunIs(before, files, fails, |files|, after, result, false)
    ensures before.Keys <= after.Keys
  {
  }

  lemma RunRecordsTried(before: Rows, files: seq<Migration>, fails: nat -> bool, after: Rows,
                        result: MigrationResult, j: nat)
    requires RunIs(before, files, fails, |files|, after, result, false)
    requires j < |files| && IsPending(before.Keys, files[j])
    ensures files[j].name in after.Keys
  {
    hide IsPending;
    var tried := Tried(before.Keys, files, |files|);
    TriedHas(before.Keys, files, |files|, j);
    var k :| 0 <= k < |tried| && tried[k] == files[j];
    hide Tried, Stop;
    assert Names(tried)[k] == files[j].name;
  }

  lemma CountsAsApplied(rows: set<string>, name: string, m: Migration)
    requires name in rows && NormalizeVersion(name) == m.version
    ensures !IsPending(rows, m)
  {
  }

  /** Once a file is recorded, no other file of its version is ever tried: such a file may be left out. */
  lemma SameVersionIsShadowed(rows: set<string>, files: seq<Migration>, i: nat, j: nat)
    requires IsFileList(files) && i < |files| && j < |files| && i != j
    requires files[i].version == files[j].version && |files[i].name| > 4
    requires files[i].name in rows
    ensures files[j].name != files[i].name && !IsPending(rows, files[j])
  {
    assert files[i] in files;
    RecordedNameCounts(files[i].name);
    CountsAsApplied(rows, files[i].name, files[j]);
  }

  lemma AppliedGrows(before: set<string>, after: set<string>, m: Migration)
    requires before <= after && !IsPending(before, m)
    ensures !IsPending(after, m)
  {
  }
}
