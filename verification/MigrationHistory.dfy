module MigrationHistory {
  /**
   What any sequence of migration runs commits, each to a target or over all files and each failing
   anywhere: for which lists of files it is always a prefix, and when a run to a target matters.
   */

  import opened Migrations

  // ---------- histories ----------

  /** A run over all files, or up to the file of some place; each may fail anywhere. */
  datatype Run = Full(fails: nat -> bool) | ToTarget(target: nat, fails: nat -> bool)

  function Limit(run: Run, files: seq<Migration>): (r: nat)
    ensures r <= |files|
  {
    match run
    case Full(_) => |files|
    case ToTarget(target, _) => if target < |files| then target + 1 else 0
  }

  /** Everything a history of runs commits, in order, starting with an empty table. */
  function History(files: seq<Migration>, runs: seq<Run>): seq<string> {
    if runs == [] then []
    else
      var before := History(files, runs[..|runs| - 1]);
      var run := runs[|runs| - 1];
      before + Committed(AsSet(before), files, run.fails, Limit(run, files))
  }

  /** How far a run that starts behind `k` files gets. */
  function Reach(k: nat, fails: nat -> bool, limit: nat): (r: nat)
    ensures k <= r && (k <= limit ==> r <= limit)
    decreases limit - k
  {
    if k >= limit || fails(k) then k else Reach(k + 1, fails, limit)
  }

  /** One of the first `k` files is called ".sql"; recorded, it stops every run. */
  predicate AnyBare(files: seq<Migration>, k: nat)
    requires k <= |files|
  {
    exists i :: 0 <= i < k && |files[i].name| == 4
  }

  /** One of the first `k` files has the version of file `i`. */
  predicate Shadowed(files: seq<Migration>, k: nat, i: nat)
    requires k <= |files| && i < |files|
  {
    exists h :: 0 <= h < k && files[h].version == files[i].version
  }

  /** The first file from `i` on that the first `k` shadow, or the number of files. */
  function Open(files: seq<Migration>, k: nat, i: nat): (r: nat)
    requires k <= |files| && i <= |files|
    ensures i <= r <= |files|
    ensures forall j :: i <= j < r ==> !Shadowed(files, k, j)
    ensures r < |files| ==> Shadowed(files, k, r)
    decreases |files| - i
  {
    if i == |files| || Shadowed(files, k, i) then i else Open(files, k, i + 1)
  }

  /** How many files are committed after a run that finds the first `k` committed. */
  function Next(files: seq<Migration>, k: nat, fails: nat -> bool, limit: nat): (r: nat)
    requires k <= |files| && limit <= |files|
    ensures k <= r <= |files|
  {
    if AnyBare(files, k) then k
    else
      var open := Open(files, k, k);
      Reach(k, fails, if limit < open then limit else open)
  }

  /** Behind the first `k` files one that is shadowed is followed by such files only. */
  ghost predicate ClosesAt(files: seq<Migration>, k: nat)
    requires k <= |files|
  {
    forall i, l :: k <= i < l < |files| && Shadowed(files, k, i) ==> Shadowed(files, k, l)
  }

  /** A version that no ".sql" stands before is shared by a later file, which one of yet another version follows. */
  ghost predicate Gapped(files: seq<Migration>) {
    exists h, i, l :: 0 <= h < i < l < |files| && IsGap(files, h, i, l)
  }

  ghost predicate IsGap(files: seq<Migration>, h: nat, i: nat, l: nat)
    requires h < i < l < |files|
  {
    files[h].version == files[i].version && !AnyBare(files, h + 1) && !Shadowed(files, h + 1, l)
  }

  lemma NotGappedCloses(files: seq<Migration>, k: nat)
    requires k <= |files| && !Gapped(files) && !AnyBare(files, k)
    ensures ClosesAt(files, k)
  {
    forall i, l | k <= i < l < |files| && Shadowed(files, k, i) ensures Shadowed(files, k, l) {
      var h :| 0 <= h < k && files[h].version == files[i].version;
      assert !IsGap(files, h, i, l);
    }
  }

  lemma LongNamesCount(files: seq<Migration>, k: nat)
    requires IsFileList(files) && k <= |files| && !AnyBare(files, k)
    ensures forall j :: 0 <= j < k ==> NormalizeVersion(files[j].name) == files[j].version
  {
    forall j | 0 <= j < k ensures NormalizeVersion(files[j].name) == files[j].version {
      assert files[j] in files;
      RecordedNameCounts(files[j].name);
    }
  }

  lemma RecordedAre(files: seq<Migration>, k: nat, name: string)
    requires k <= |files|
    ensures name in AsSet(Names(files[..k])) <==> exists j :: 0 <= j < k && files[j].name == name
  {
    var names := Names(files[..k]);
    assert forall j :: 0 <= j < k ==> names[j] == files[j].name;
    if name in AsSet(names) {
      var j :| 0 <= j < |names| && names[j] == name;
    }
  }

  /** What the rows of the first `k` files make of file `i`, when no ".sql" is among them. */
  lemma PrefixIsApplied(files: seq<Migration>, k: nat, i: nat)
    requires IsFileList(files) && k <= |files| && i < |files| && !AnyBare(files, k)
    ensures IsPending(AsSet(Names(files[..k])), files[i]) <==> !Shadowed(files, k, i)
    ensures files[i].name in AsSet(Names(files[..k])) <==> i < k
  {
    LongNamesCount(files, k);
    RecordedAre(files, k, files[i].name);
    var rows := AsSet(Names(files[..k]));
    hide NormalizeVersion, HasSqlSuffix, VersionOf, AsSet, Names, AnyBare;
    if Shadowed(files, k, i) {
      var h :| 0 <= h < k && files[h].version == files[i].version;
      RecordedAre(files, k, files[h].name);
    }
    if files[i].version in Applied(rows) {
      var v :| v in rows && NormalizeVersion(v) == files[i].version;
      RecordedAre(files, k, v);
    }
  }

  /** So the files from the first that is not recorded to the first shadowed one are tried. */
  lemma PrefixPending(files: seq<Migration>, k: nat)
    requires IsFileList(files) && k <= |files| && !AnyBare(files, k) && ClosesAt(files, k)
    ensures var rows, s := AsSet(Names(files[..k])), Open(files, k, k);
      && (forall j :: 0 <= j < |files| ==> (IsPending(rows, files[j]) <==> k <= j < s))
      && forall j :: 0 <= j < |files| ==> (files[j].name in rows <==> j < k)
  {
    hide *;
    var rows, s := AsSet(Names(files[..k])), Open(files, k, k);
    forall j | 0 <= j < |files|
      ensures IsPending(rows, files[j]) <==> k <= j < s
      ensures files[j].name in rows <==> j < k
    {
      PrefixIsApplied(files, k, j);
      ShadowedWhen(files, k, j);
    }
  }

  lemma ShadowedWhen(files: seq<Migration>, k: nat, j: nat)
    requires k <= |files| && j < |files| && ClosesAt(files, k)
    ensures Shadowed(files, k, j) <==> !(k <= j < Open(files, k, k))
  {
    assert j < k ==> files[j].version == files[j].version;
    assert Open(files, k, k) < |files| ==> Shadowed(files, k, Open(files, k, k));
    hide Shadowed;
  }

  /** A recorded ".sql" is tried again. */
  lemma BareIsStuck(files: seq<Migration>, k: nat, p: nat)
    requires IsFileList(files) && p < k <= |files| && |files[p].name| == 4
    ensures Stuck(AsSet(Names(files[..k])), files[p])
  {
    RecordedAre(files, k, files[p].name);
    RecordedAre(files, k, "");
    assert forall j :: 0 <= j < k ==> files[j] in files;
    hide AsSet, Names;
    StuckExactly(AsSet(Names(files[..k])), files[p]);
  }

  /** Where a run stops when exactly the files from `k` to `s` are tried. */
  lemma {:induction false} StopBetween(rows: set<string>, files: seq<Migration>, fails: nat -> bool, k: nat, s: nat,
                                       i: nat, limit: nat)
    requires k <= s <= |files| && i <= limit <= |files|
    requires forall j :: 0 <= j < |files| ==> (IsPending(rows, files[j]) <==> k <= j < s)
    requires forall j :: k <= j < s ==> files[j].name !in rows
    ensures var e := if limit < s then limit else s;
            var r := Reach(if i < k then k else i, fails, e);
            Stop(rows, files, fails, i, limit) == if r < e then r else limit
    decreases limit - i
  {
    hide IsPending;
    if i < limit {
      StopBetween(rows, files, fails, k, s, i + 1, limit);
    }
  }

  lemma {:induction false} TriedBetween(rows: set<string>, files: seq<Migration>, k: nat, s: nat, i: nat)
    requires k <= s <= |files| && i <= |files|
    requires forall j :: 0 <= j < |files| ==> (IsPending(rows, files[j]) <==> k <= j < s)
    ensures Tried(rows, files, i) == if i <= k then [] else files[k..if i < s then i else s]
  {
    hide IsPending;
    if i > 0 {
      TriedBetween(rows, files, k, s, i - 1);
      if k < i <= s {
        SliceGrows(files, k, i - 1);
      }
    }
  }

  lemma SliceGrows(files: seq<Migration>, k: nat, i: nat)
    requires k <= i < |files|
    ensures files[k..i + 1] == files[k..i] + [files[i]]
  {
  }

  /** A run stops at a recorded file that is tried, with nothing tried before when all those are recorded. */
  lemma {:induction false} StuckRun(rows: set<string>, files: seq<Migration>, fails: nat -> bool, i: nat, p: nat,
                                    limit: nat)
    requires i <= p < |files| && i <= limit <= |files| && Stuck(rows, files[p])
    requires forall j :: 0 <= j <= p ==> files[j].name in rows
    ensures Stop(rows, files, fails, i, limit) <= p
    ensures forall j :: i <= j < Stop(rows, files, fails, i, limit) ==> !IsPending(rows, files[j])
    decreases limit - i
  {
    hide IsPending;
    if i < limit && i < p {
      StuckRun(rows, files, fails, i + 1, p, limit);
    }
  }

  lemma {:induction false} NothingTried(rows: set<string>, files: seq<Migration>, i: nat)
    requires i <= |files| && forall j :: 0 <= j < i ==> !IsPending(rows, files[j])
    ensures Tried(rows, files, i) == []
  {
    if i > 0 {
      NothingTried(rows, files, i - 1);
    }
  }

  /** A run from a prefix of the files that closes commits exactly the next ones, up to the first that fails. */
  lemma RunExtendsPrefix(files: seq<Migration>, k: nat, fails: nat -> bool, limit: nat)
    requires IsFileList(files) && k <= |files| && limit <= |files|
    requires AnyBare(files, k) || ClosesAt(files, k)
    ensures var names := Names(files[..k]);
      names + Committed(AsSet(names), files, fails, limit) == Names(files[..Next(files, k, fails, limit)])
  {
    if AnyBare(files, k) {
      RunIsStuck(files, k, fails, limit);
    } else {
      RunGoesOn(files, k, fails, limit);
    }
    hide *;
  }

  lemma RunIsStuck(files: seq<Migration>, k: nat, fails: nat -> bool, limit: nat)
    requires IsFileList(files) && k <= |files| && limit <= |files| && AnyBare(files, k)
    ensures var names := Names(files[..k]);
      names + Committed(AsSet(names), files, fails, limit) == names
  {
    var p :| 0 <= p < k && |files[p].name| == 4;
    hide *;
    BareIsStuck(files, k, p);
    var rows := AsSet(Names(files[..k]));
    forall j | 0 <= j < k ensures files[j].name in rows {
      RecordedAre(files, k, files[j].name);
    }
    StuckRun(rows, files, fails, 0, p, limit);
    NothingTried(rows, files, Stop(rows, files, fails, 0, limit));
    CommitsTried(rows, files, fails, limit, []);
    NamesAppend(files[..k], []);
    assert files[..k] + [] == files[..k];
  }

  lemma CommitsTried(rows: set<string>, files: seq<Migration>, fails: nat -> bool, limit: nat, tried: seq<Migration>)
    requires limit <= |files| && Tried(rows, files, Stop(rows, files, fails, 0, limit)) == tried
    ensures Committed(rows, files, fails, limit) == Names(tried)
  {
  }

  lemma RunGoesOn(files: seq<Migration>, k: nat, fails: nat -> bool, limit: nat)
    requires IsFileList(files) && k <= |files| && limit <= |files|
    requires !AnyBare(files, k) && ClosesAt(files, k)
    ensures var names := Names(files[..k]);
      names + Committed(AsSet(names), files, fails, limit) == Names(files[..Next(files, k, fails, limit)])
  {
    hide *;
    var r := Next(files, k, fails, limit);
    var rows, s := AsSet(Names(files[..k])), Open(files, k, k);
    NextReaches(files, k, fails, limit);
    PrefixPending(files, k);
    TriedUpTo(rows, files, fails, k, s, limit);
    CommitsTried(rows, files, fails, limit, files[k..r]);
    assert files[..r] == files[..k] + files[k..r];
    NamesAppend(files[..k], files[k..r]);
  }

  lemma NextReaches(files: seq<Migration>, k: nat, fails: nat -> bool, limit: nat)
    requires k <= |files| && limit <= |files| && !AnyBare(files, k)
    ensures var s := Open(files, k, k);
      Next(files, k, fails, limit) == Reach(k, fails, if limit < s then limit else s)
  {
  }

  lemma TriedUpTo(rows: set<string>, files: seq<Migration>, fails: nat -> bool, k: nat, s: nat, limit: nat)
    requires k <= s <= |files| && limit <= |files|
    requires forall j :: 0 <= j < |files| ==> (IsPending(rows, files[j]) <==> k <= j < s)
    requires forall j :: k <= j < s ==> files[j].name !in rows
    ensures var r := Reach(k, fails, if limit < s then limit else s);
      k <= r <= |files| && Tried(rows, files, Stop(rows, files, fails, 0, limit)) == files[k..r]
  {
    hide IsPending, Stop, Tried, Reach;
    StopBetween(rows, files, fails, k, s, 0, limit);
    var e := if limit < s then limit else s;
    TriedBetween(rows, files, k, s, Stop(rows, files, fails, 0, limit));
    ReachBeyond(k, fails, e);
  }

  lemma NamesAppend(a: seq<Migration>, b: seq<Migration>)
    ensures Names(a + b) == Names(a) + Names(b)
  {
  }

  lemma ReachBeyond(k: nat, fails: nat -> bool, limit: nat)
    ensures limit <= k ==> Reach(k, fails, limit) == k
  {
  }

  function Progress(files: seq<Migration>, runs: seq<Run>): (r: nat)
    ensures r <= |files|
  {
    if runs == [] then 0
    else
      var run := runs[|runs| - 1];
      Next(files, Progress(files, runs[..|runs| - 1]), run.fails, Limit(run, files))
  }

  /**
   Without a gap, whatever runs there have been and wherever they failed: what is committed is a
   prefix of the version order, in that order.
   */
  lemma {:induction false} HistoryIsPrefix(files: seq<Migration>, runs: seq<Run>)
    requires IsFileList(files) && !Gapped(files)
    ensures History(files, runs) == Names(files[..Progress(files, runs)])
  {
    hide Gapped, IsFileList, Next;
    if runs != [] {
      var before, run := runs[..|runs| - 1], runs[|runs| - 1];
      HistoryIsPrefix(files, before);
      var k := Progress(files, before);
      if !AnyBare(files, k) {
        NotGappedCloses(files, k);
      }
      RunExtendsPrefix(files, k, run.fails, Limit(run, files));
    }
  }

  // ---------- when every history is a prefix ----------

  ghost predicate AlwaysPrefix(files: seq<Migration>) {
    forall runs :: History(files, runs) <= Names(files)
  }

  lemma NoneShadowed(files: seq<Migration>)
    ensures ClosesAt(files, 0) && !AnyBare(files, 0) && Open(files, 0, 0) == |files|
  {
  }

  /** One run from an empty table. */
  lemma FirstRun(files: seq<Migration>, run: Run)
    requires IsFileList(files)
    ensures History(files, [run]) == Names(files[..Reach(0, run.fails, Limit(run, files))])
  {
    NoneShadowed(files);
    RunExtendsPrefix(files, 0, run.fails, Limit(run, files));
    assert [run][..0] == [] && files[..0] == [];
    assert History(files, [run][..0]) == [] == Names(files[..0]);
  }

  lemma {:induction false} ReachAll(k: nat, fails: nat -> bool, limit: nat)
    requires NeverFails(fails) && k <= limit
    ensures Reach(k, fails, limit) == limit
    decreases limit - k
  {
    if k < limit {
      ReachAll(k + 1, fails, limit);
    }
  }

  lemma HistorySnoc(files: seq<Migration>, runs: seq<Run>, run: Run)
    ensures var before := History(files, runs);
      History(files, runs + [run]) == before + Committed(AsSet(before), files, run.fails, Limit(run, files))
  {
    assert (runs + [run])[..|runs|] == runs;
  }

  /** An undisturbed full run behind the first `k` files tries every file those do not shadow. */
  lemma WholeRun(files: seq<Migration>, k: nat, works: nat -> bool)
    requires IsFileList(files) && k <= |files| && !AnyBare(files, k) && NeverFails(works)
    ensures var rows := AsSet(Names(files[..k]));
      Committed(rows, files, works, |files|) == Names(Tried(rows, files, |files|))
  {
    var rows := AsSet(Names(files[..k]));
    forall j | 0 <= j < |files| ensures !Stuck(rows, files[j]) {
      PrefixIsApplied(files, k, j);
      if j < k {
        assert files[j].version == files[j].version;
      }
    }
    hide Stuck;
    StopsAtStuck(rows, files, works, 0, |files|);
  }

  lemma FirstTarget(files: seq<Migration>, h: nat, works: nat -> bool)
    requires IsFileList(files) && h < |files| && NeverFails(works)
    ensures History(files, [ToTarget(h, works)]) == Names(files[..h + 1])
  {
    FirstRun(files, ToTarget(h, works));
    ReachAll(0, works, h + 1);
    hide *;
  }

  lemma HistoryOfTwo(files: seq<Migration>, first: Run, fails: nat -> bool)
    ensures var before := History(files, [first]);
      History(files, [first, Full(fails)]) == before + Committed(AsSet(before), files, fails, |files|)
  {
    assert [first] + [Full(fails)] == [first, Full(fails)];
    HistorySnoc(files, [first], Full(fails));
    hide History, Committed, AsSet;
  }

  /** Two such runs from an empty table, the first to the file of some place. */
  lemma TargetAndWhole(files: seq<Migration>, h: nat, works: nat -> bool)
    requires IsFileList(files) && h < |files| && !AnyBare(files, h + 1) && NeverFails(works)
    ensures var names := Names(files[..h + 1]);
      History(files, [ToTarget(h, works), Full(works)]) == names + Names(Tried(AsSet(names), files, |files|))
  {
    hide *;
    FirstTarget(files, h, works);
    HistoryOfTwo(files, ToTarget(h, works), works);
    WholeRun(files, h + 1, works);
  }

  lemma TriedNames(rows: set<string>, files: seq<Migration>, i: nat)
    requires IsFileList(files) && i < |files|
    ensures files[i].name in Names(Tried(rows, files, |files|)) <==> IsPending(rows, files[i])
  {
    var tried := Tried(rows, files, |files|);
    hide IsPending, Tried;
    if IsPending(rows, files[i]) {
      TriedHas(rows, files, |files|, i);
      var t :| 0 <= t < |tried| && tried[t] == files[i];
      assert Names(tried)[t] == files[i].name;
    }
    if files[i].name in Names(tried) {
      var t :| 0 <= t < |tried| && Names(tried)[t] == files[i].name;
      TriedAreEarlier(rows, files, |files|, tried[t]);
      StatusPartitions(rows, files, |files|, tried[t]);
    }
  }

  /** With a gap, a run to a target and a full run leave a file out, and nothing has to fail for it. */
  lemma GapIsLeftOut(files: seq<Migration>, h: nat, i: nat, l: nat, works: nat -> bool)
    requires IsFileList(files) && h < i < l < |files| && IsGap(files, h, i, l) && NeverFails(works)
    ensures var all := History(files, [ToTarget(h, works), Full(works)]);
            files[l].name in all && files[i].name !in all
  {
    hide *;
    var k := h + 1;
    var names := Names(files[..k]);
    GapMeans(files, h, i, l);
    TargetAndWhole(files, h, works);
    PrefixIsApplied(files, k, i);
    PrefixIsApplied(files, k, l);
    TriedNames(AsSet(names), files, i);
    TriedNames(AsSet(names), files, l);
    RecordedIn(names, files[i].name);
  }

  lemma GapMeans(files: seq<Migration>, h: nat, i: nat, l: nat)
    requires h < i < l < |files| && IsGap(files, h, i, l)
    ensures !AnyBare(files, h + 1) && Shadowed(files, h + 1, i) && !Shadowed(files, h + 1, l)
  {
  }

  lemma RecordedIn(names: seq<string>, name: string)
    ensures name in AsSet(names) <==> name in names
  {
  }

  /** A prefix that holds a later name holds every earlier one. */
  lemma PrefixHoldsEarlier(files: seq<Migration>, i: nat, l: nat, all: seq<string>)
    requires IsFileList(files) && i < l < |files| && files[l].name in all && all <= Names(files)
    ensures files[i].name in all
  {
    var x :| 0 <= x < |all| && all[x] == files[l].name;
    assert Names(files)[x] == files[x].name;
    assert all[i] == Names(files)[i];
  }

  /** Every history is a prefix exactly when the list has no gap. */
  lemma HistoryIsPrefixExactly(files: seq<Migration>)
    requires IsFileList(files)
    ensures AlwaysPrefix(files) <==> !Gapped(files)
  {
    hide History, Names, IsFileList, IsGap, Progress;
    if AlwaysPrefix(files) && Gapped(files) {
      var h, i, l :| 0 <= h < i < l < |files| && IsGap(files, h, i, l);
      var works: nat -> bool := (j: nat) => false;
      GapIsLeftOut(files, h, i, l, works);
      PrefixHoldsEarlier(files, i, l, History(files, [ToTarget(h, works), Full(works)]));
    }
    if !Gapped(files) {
      forall runs ensures History(files, runs) <= Names(files) {
        HistoryIsPrefix(files, runs);
        NamesOfPrefix(files, Progress(files, runs));
      }
    }
  }

  lemma NamesOfPrefix(files: seq<Migration>, k: nat)
    requires k <= |files|
    ensures Names(files[..k]) <= Names(files)
  {
    assert Names(files[..k]) == Names(files)[..k];
  }

  // ---------- lists in the order of their versions ----------

  /** The order of strings in Go. */
  predicate AtMost(v: string, w: string) {
    v == "" || (w != "" && (v[0] < w[0] || (v[0] == w[0] && AtMost(v[1..], w[1..]))))
  }

  lemma {:induction false} AtMostBothWays(v: string, w: string)
    requires AtMost(v, w) && AtMost(w, v)
    ensures v == w
  {
    if v != "" {
      AtMostBothWays(v[1..], w[1..]);
      assert v == [v[0]] + v[1..] && w == [w[0]] + w[1..];
    }
  }

  lemma {:induction false} AtMostOneWay(v: string, w: string)
    ensures AtMost(v, w) || AtMost(w, v)
  {
    if v != "" && w != "" {
      AtMostOneWay(v[1..], w[1..]);
    }
  }

  ghost predicate SortedByVersion(files: seq<Migration>) {
    forall i, j :: 0 <= i < j < |files| ==> AtMost(files[i].version, files[j].version)
  }

  /** A version that is not the last one is shared. */
  ghost predicate SharesEarlier(files: seq<Migration>) {
    exists h, i :: 0 <= h < i < |files| && files[h].version == files[i].version != files[|files| - 1].version
  }

  lemma EqualStandTogether(files: seq<Migration>, h: nat, i: nat, l: nat)
    requires SortedByVersion(files) && h <= i <= l < |files| && files[h].version == files[l].version
    ensures files[i].version == files[h].version
  {
    if h < i < l {
      AtMostBothWays(files[h].version, files[i].version);
    }
  }

  /** In a sorted list a ".sql" stands first. */
  lemma BareIsFirst(files: seq<Migration>, k: nat)
    requires IsFileList(files) && SortedByVersion(files) && k <= |files|
    ensures AnyBare(files, k) <==> k > 0 && |files[0].name| == 4
  {
    if AnyBare(files, k) {
      var p :| 0 <= p < k && |files[p].name| == 4;
      assert files[p] in files && files[0] in files;
      SqlExt(files[p].name);
      SqlExt(files[0].name);
      if p > 0 {
        assert AtMost(files[0].version, files[p].version);
      }
    }
  }

  /**
   Sorted as the runner sorts them, the files have a gap exactly when a version other than the last
   is shared, unless a ".sql" stands first and stops every run after the one that records it.
   */
  lemma GappedWhenSorted(files: seq<Migration>)
    requires IsFileList(files) && SortedByVersion(files)
    ensures Gapped(files) <==> SharesEarlier(files) && |files[0].name| != 4
  {
    hide IsFileList, AnyBare;
    var last := |files| - 1;
    if Gapped(files) {
      var h, i, l :| 0 <= h < i < l < |files| && IsGap(files, h, i, l);
      BareIsFirst(files, h + 1);
      assert files[h].version != files[l].version;
      if files[i].version == files[last].version {
        EqualStandTogether(files, i, l, last);
      }
    }
    if SharesEarlier(files) && |files[0].name| != 4 {
      var h, i :| 0 <= h < i < |files| && files[h].version == files[i].version != files[last].version;
      BareIsFirst(files, h + 1);
      if Shadowed(files, h + 1, last) {
        var g :| 0 <= g < h + 1 && files[g].version == files[last].version;
        EqualStandTogether(files, g, i, last);
      }
      assert IsGap(files, h, i, last);
    }
  }

  /** Two files of one version and one of another: the second is left out for good. */
  lemma SharedVersionLeavesOut(a: Migration, b: Migration, c: Migration, works: nat -> bool)
    requires IsFileList([a, b, c]) && a.version == b.version != c.version && |a.name| > 4 && NeverFails(works)
    ensures History([a, b, c], [ToTarget(0, works), Full(works)]) == [a.name, c.name]
    ensures History([a, b, c], [Full(works)]) == [a.name, b.name, c.name]
  {
    hide *;
    SlicesOfThree(a, b, c);
    ShadowOfThree(a, b, c);
    WholeFirst([a, b, c], works);
    TargetAndWhole([a, b, c], 0, works);
    PrefixIsApplied([a, b, c], 1, 0);
    PrefixIsApplied([a, b, c], 1, 1);
    PrefixIsApplied([a, b, c], 1, 2);
    TriedOfThree(AsSet([a.name]), a, b, c);
    assert [a.name] + [c.name] == [a.name, c.name];
  }

  lemma WholeFirst(files: seq<Migration>, works: nat -> bool)
    requires IsFileList(files) && NeverFails(works)
    ensures History(files, [Full(works)]) == Names(files)
  {
    FirstRun(files, Full(works));
    ReachAll(0, works, |files|);
    assert files[..|files|] == files;
    hide *;
  }

  lemma SlicesOfThree(a: Migration, b: Migration, c: Migration)
    ensures Names([a, b, c][..0 + 1]) == [a.name] && Names([a, b, c][..1]) == [a.name]
    ensures Names([a, b, c]) == [a.name, b.name, c.name]
  {
  }

  lemma ShadowOfThree(a: Migration, b: Migration, c: Migration)
    requires a.version == b.version != c.version && |a.name| > 4
    ensures var files := [a, b, c];
      !AnyBare(files, 1) && Shadowed(files, 1, 0) && Shadowed(files, 1, 1) && !Shadowed(files, 1, 2)
  {
    var files := [a, b, c];
    assert files[0].version == files[1].version;
  }

  lemma TriedOfThree(rows: set<string>, a: Migration, b: Migration, c: Migration)
    requires !IsPending(rows, a) && !IsPending(rows, b) && IsPending(rows, c)
    ensures Names(Tried(rows, [a, b, c], 3)) == [c.name]
  {
    hide IsPending;
    assert Tried(rows, [a, b, c], 1) == [] && Tried(rows, [a, b, c], 2) == [];
    assert Tried(rows, [a, b, c], 3) == [c];
  }

  /** Such files: "1.SQL", "1.sql" and "2.sql". */
  lemma SharedVersionExists()
    ensures IsFileList([Migration("1", "1.SQL"), Migration("1", "1.sql"), Migration("2", "2.sql")])
  {
    hide Ext, VersionOf;
    SqlExt("1.SQL");
    SqlExt("1.sql");
    SqlExt("2.sql");
    assert "1.SQL"[..1] == "1" && "1.sql"[..1] == "1" && "2.sql"[..1] == "2";
  }

  // ---------- nothing twice ----------

  /** What a run commits is new and has nothing twice. */
  lemma RunCommitsNew(rows: set<string>, files: seq<Migration>, fails: nat -> bool, limit: nat)
    requires IsFileList(files) && limit <= |files|
    ensures var names := Committed(rows, files, fails, limit);
      && (forall i :: 0 <= i < |names| ==> names[i] !in rows)
      && forall i, j :: 0 <= i < j < |names| ==> names[i] != names[j]
  {
    hide IsFileList, Stop, Tried, Names;
    TriedIsNew(rows, files, fails, limit, Stop(rows, files, fails, 0, limit));
    var names := Committed(rows, files, fails, limit);
    assert names == Names(Tried(rows, files, Stop(rows, files, fails, 0, limit)));
  }

  lemma {:induction false} TriedIsNew(rows: set<string>, files: seq<Migration>, fails: nat -> bool, limit: nat, i: nat)
    requires IsFileList(files) && limit <= |files| && i <= Stop(rows, files, fails, 0, limit)
    ensures var names := Names(Tried(rows, files, i));
      && (forall a :: 0 <= a < |names| ==> names[a] !in rows)
      && forall a, b :: 0 <= a < b < |names| ==> names[a] != names[b]
  {
    hide *;
    if i == 0 {
      TriedNone(rows, files);
    } else {
      TriedIsNew(rows, files, fails, limit, i - 1);
      PassesNew(rows, files, fails, 0, limit, i - 1);
      NameIsNew(rows, files, i - 1);
      TriedSnoc(rows, files, i - 1);
      RecordedIn(Names(Tried(rows, files, i - 1)), files[i - 1].name);
    }
  }

  lemma TriedNone(rows: set<string>, files: seq<Migration>)
    ensures Names(Tried(rows, files, 0)) == []
  {
  }

  lemma TriedSnoc(rows: set<string>, files: seq<Migration>, i: nat)
    requires i < |files|
    ensures var names := Names(Tried(rows, files, i));
      Names(Tried(rows, files, i + 1)) == if IsPending(rows, files[i]) then names + [files[i].name] else names
  {
    hide IsPending;
    assert Names([files[i]]) == [files[i].name];
    NamesAppend(Tried(rows, files, i), [files[i]]);
  }

  lemma {:induction false} PassesNew(rows: set<string>, files: seq<Migration>, fails: nat -> bool, i: nat, limit: nat,
                                     j: nat)
    requires i <= limit <= |files| && i <= j < Stop(rows, files, fails, i, limit)
    ensures IsPending(rows, files[j]) ==> files[j].name !in rows
    decreases limit - i
  {
    hide IsPending;
    if i < j {
      PassesNew(rows, files, fails, i + 1, limit, j);
    }
  }

  /** No file commits twice in any history, a ".sql" and files of one version included. */
  lemma {:induction false} CommitsOnce(files: seq<Migration>, runs: seq<Run>, i: nat, j: nat)
    requires IsFileList(files) && i < j < |History(files, runs)|
    ensures History(files, runs)[i] != History(files, runs)[j]
  {
    var n := |runs| - 1;
    var before, run := History(files, runs[..n]), runs[n];
    RunCommitsNew(AsSet(before), files, run.fails, Limit(run, files));
    if j < |before| {
      CommitsOnce(files, runs[..n], i, j);
    } else if i < |before| {
      assert before[i] in AsSet(before);
    }
  }

  // ---------- a target first ----------

  lemma {:induction false} ReachOn(k: nat, f: nat -> bool, n: nat, r: nat)
    requires k <= r <= n
    ensures r <= Reach(k, f, n) ==> Reach(r, f, n) == Reach(k, f, n)
    decreases r - k
  {
    if k < r {
      ReachOn(k + 1, f, n, r);
    }
  }

  lemma DistinctIsOpen(files: seq<Migration>, k: nat)
    requires DistinctVersions(files) && k <= |files|
    ensures !Gapped(files) && Open(files, k, k) == |files|
  {
    assert forall i :: k <= i < |files| ==> !Shadowed(files, k, i);
  }

  /**
   A run to a target and then a full run end where the full run alone ends, exactly when the first
   does not get further than the second would, or a ".sql" is there from the start; one that the
   first commits needs both to get equally far.
   */
  lemma TargetThenFull(files: seq<Migration>, runs: seq<Run>, target: nat, f: nat -> bool, g: nat -> bool)
    requires IsFileList(files) && DistinctVersions(files)
    ensures var k := Progress(files, runs);
            var first, whole := Reach(k, f, Limit(ToTarget(target, f), files)), Reach(k, g, |files|);
      History(files, runs + [ToTarget(target, f), Full(g)]) == History(files, runs + [Full(g)]) <==>
      (AnyBare(files, k) || if AnyBare(files, first) then first == whole else first <= whole)
  {
    hide IsFileList, Reach, AnyBare, Names, Progress, History;
    var k, n := Progress(files, runs), |files|;
    var limit := Limit(ToTarget(target, f), files);
    var first, whole := Reach(k, f, limit), Reach(k, g, n);
    var both, one := runs + [ToTarget(target, f), Full(g)], runs + [Full(g)];
    DistinctIsOpen(files, k);
    DistinctIsOpen(files, Next(files, k, f, limit));
    HistoryIsPrefix(files, both);
    HistoryIsPrefix(files, one);
    ProgressOfTwo(files, runs, ToTarget(target, f), Full(g));
    ReachBeyond(k, f, limit);
    ReachOn(k, g, n, first);
    SameLength(files, Progress(files, both), Progress(files, one));
  }

  lemma ProgressOfTwo(files: seq<Migration>, runs: seq<Run>, a: Run, b: Run)
    ensures var k := Progress(files, runs);
      && Progress(files, runs + [b]) == Next(files, k, b.fails, Limit(b, files))
      && Progress(files, runs + [a, b]) ==
         Next(files, Next(files, k, a.fails, Limit(a, files)), b.fails, Limit(b, files))
  {
    assert (runs + [b])[..|runs|] == runs;
    assert (runs + [a, b])[..|runs| + 1] == runs + [a];
    assert (runs + [a])[..|runs|] == runs;
  }

  lemma SameLength(files: seq<Migration>, k: nat, r: nat)
    requires k <= |files| && r <= |files|
    ensures Names(files[..k]) == Names(files[..r]) <==> k == r
  {
    assert |Names(files[..k])| == k && |Names(files[..r])| == r;
  }

  /** A target as `RunMigrationsToTarget` finds it: the first file of its version. */
  ghost predicate IsTarget(files: seq<Migration>, target: nat) {
    target < |files| && FirstWith(files, files[target].version, 0) == target
  }

  /** With nothing failing, a run to a target beforehand changes nothing for a full run. */
  ghost predicate TargetsAreHarmless(files: seq<Migration>) {
    forall target: nat, works :: IsTarget(files, target) && NeverFails(works) ==>
      History(files, [ToTarget(target, works), Full(works)]) == History(files, [Full(works)])
  }

  /** What the two runs commit, by whether a ".sql" is among the files of the first. */
  lemma TargetAndRest(files: seq<Migration>, h: nat, works: nat -> bool)
    requires IsFileList(files) && h < |files| && NeverFails(works)
    ensures var all := History(files, [ToTarget(h, works), Full(works)]);
      && (AnyBare(files, h + 1) ==> all == Names(files[..h + 1]))
      && (!AnyBare(files, h + 1) && DistinctVersions(files) ==> all == Names(files))
  {
    hide *;
    FirstTarget(files, h, works);
    HistoryOfTwo(files, ToTarget(h, works), works);
    if AnyBare(files, h + 1) {
      RunIsStuck(files, h + 1, works, |files|);
    } else if DistinctVersions(files) {
      DistinctIsOpen(files, h + 1);
      NotGappedCloses(files, h + 1);
      RunExtendsPrefix(files, h + 1, works, |files|);
      NextIsAll(files, h + 1, works);
    }
  }

  lemma NextIsAll(files: seq<Migration>, k: nat, works: nat -> bool)
    requires k <= |files| && !AnyBare(files, k) && Open(files, k, k) == |files| && NeverFails(works)
    ensures files[..Next(files, k, works, |files|)] == files
  {
    ReachAll(k, works, |files|);
  }

  lemma SharedIsLost(files: seq<Migration>, h: nat, i: nat, works: nat -> bool)
    requires IsFileList(files) && h < i < |files| && files[h].version == files[i].version && NeverFails(works)
    ensures History(files, [ToTarget(h, works), Full(works)]) != Names(files)
  {
    hide *;
    SharedIsShadowed(files, h, i);
    if AnyBare(files, h + 1) {
      TargetAndRest(files, h, works);
      assert |Names(files[..h + 1])| < |Names(files)|;
    } else {
      var names := Names(files[..h + 1]);
      TargetAndWhole(files, h, works);
      PrefixIsApplied(files, h + 1, i);
      TriedNames(AsSet(names), files, i);
      RecordedIn(names, files[i].name);
    }
  }

  lemma SharedIsShadowed(files: seq<Migration>, h: nat, i: nat)
    requires h < i < |files| && files[h].version == files[i].version
    ensures Shadowed(files, h + 1, i) && Names(files)[i] == files[i].name
  {
  }

  lemma BareEndsRuns(files: seq<Migration>, p: nat, works: nat -> bool)
    requires IsFileList(files) && p + 1 < |files| && |files[p].name| == 4 && NeverFails(works)
    ensures History(files, [ToTarget(p, works), Full(works)]) != Names(files)
  {
    assert AnyBare(files, p + 1);
    hide *;
    TargetAndRest(files, p, works);
    assert |Names(files[..p + 1])| < |Names(files)|;
  }

  /** That is so exactly when no version is shared and no ".sql" stands before another file. */
  lemma TargetsAreHarmlessExactly(files: seq<Migration>)
    requires IsFileList(files)
    ensures TargetsAreHarmless(files) <==>
            DistinctVersions(files) && forall p :: 0 <= p < |files| - 1 ==> |files[p].name| != 4
  {
    hide IsFileList, History, Names;
    var works: nat -> bool := (j: nat) => false;
    WholeFirst(files, works);
    if TargetsAreHarmless(files) {
      forall h: nat, i | h < i < |files| ensures files[h].version != files[i].version {
        var t := FirstWith(files, files[h].version, 0);
        assert IsTarget(files, t);
        if files[h].version == files[i].version {
          SharedIsLost(files, t, i, works);
        }
      }
      forall p: nat | p < |files| - 1 ensures |files[p].name| != 4 {
        assert IsTarget(files, p);
        if |files[p].name| == 4 {
          BareEndsRuns(files, p, works);
        }
      }
    } else {
      var h: nat, w :| IsTarget(files, h) && NeverFails(w) &&
        History(files, [ToTarget(h, w), Full(w)]) != History(files, [Full(w)]);
      WholeFirst(files, w);
      TargetAndRest(files, h, w);
      assert h + 1 == |files| ==> files[..h + 1] == files;
    }
  }
}
