module StageClosure {
  /**
   The recursive query of `GetDownstreamStages` in `pkg/pipeline/repository.go`.  It is evaluated
   the way SQL evaluates a recursive query with UNION: a working table, and only rows that are new
   go on.
   */

  /** A row of `pipeline_stages`; a NULL `downstream` is the empty list. */
  datatype Row = Row(stage: string, downstream: seq<string>)

  /** The rows whose stage some row of the working table lists. */
  function Joined(table: set<Row>, working: set<Row>): set<Row> {
    set ps | ps in table && exists ds :: ds in working && ps.stage in ds.downstream
  }

  /** The rest of the evaluation, from the rows found and the rows found last. */
  function Iterate(table: set<Row>, found: set<Row>, working: set<Row>): (r: set<Row>)
    requires working <= found <= table
    ensures found <= r <= table
    decreases table - found
  {
    var added := Joined(table, working) - found;
    if added == {} then found else Iterate(table, found + added, added)
  }

  function Base(table: set<Row>, stage: string): set<Row> {
    set r | r in table && r.stage == stage
  }

  /** `SELECT DISTINCT unnest(downstream)` over the rows of the query. */
  function GetDownstreamStages(table: set<Row>, stage: string): set<string> {
    var rows := Iterate(table, Base(table, stage), Base(table, stage));
    set r, s | r in rows && s in r.downstream :: s
  }

  // ---------- reachability ----------

  ghost predicate Edge(table: set<Row>, a: string, b: string) {
    exists r :: r in table && r.stage == a && b in r.downstream
  }

  /** `b` is reached from `a` by `n + 1` edges. */
  ghost predicate ReachedBy(table: set<Row>, a: string, b: string, n: nat)
    decreases n
  {
    if n == 0 then Edge(table, a, b)
    else exists c :: ReachedBy(table, a, c, n - 1) && Edge(table, c, b)
  }

  ghost predicate Reached(table: set<Row>, a: string, b: string) {
    exists n: nat :: ReachedBy(table, a, b, n)
  }

  /** Only rows of the stage itself and of stages it reaches are found. */
  ghost predicate OnlyReached(table: set<Row>, stage: string, rows: set<Row>) {
    forall r :: r in rows ==> r in table && (r.stage == stage || Reached(table, stage, r.stage))
  }

  lemma ReachOneMore(table: set<Row>, a: string, r: Row, b: string)
    requires r in table && (r.stage == a || Reached(table, a, r.stage)) && b in r.downstream
    ensures Reached(table, a, b)
  {
    assert Edge(table, r.stage, b);
    if r.stage == a {
      assert ReachedBy(table, a, b, 0);
    } else {
      var n: nat :| ReachedBy(table, a, r.stage, n);
      assert ReachedBy(table, a, b, n + 1);
    }
  }

  lemma {:induction false} IterateSound(table: set<Row>, stage: string, found: set<Row>, working: set<Row>)
    requires working <= found <= table && OnlyReached(table, stage, found)
    ensures OnlyReached(table, stage, Iterate(table, found, working))
    decreases table - found
  {
    var added := Joined(table, working) - found;
    if added != {} {
      forall r | r in added ensures r.stage == stage || Reached(table, stage, r.stage) {
        var ds :| ds in working && r.stage in ds.downstream;
        ReachOneMore(table, stage, ds, r.stage);
      }
      IterateSound(table, stage, found + added, added);
    }
  }

  /** All rows that the rows of `from` lead to are in `rows`. */
  ghost predicate ClosedOver(table: set<Row>, from: set<Row>, rows: set<Row>) {
    Joined(table, from) <= rows
  }

  lemma {:induction false} IterateComplete(table: set<Row>, found: set<Row>, working: set<Row>)
    requires working <= found <= table && ClosedOver(table, found - working, found)
    ensures var rows := Iterate(table, found, working); ClosedOver(table, rows, rows)
    decreases table - found
  {
    var added := Joined(table, working) - found;
    JoinedUnion(table, found - working, working);
    assert found == (found - working) + working;
    if added != {} {
      assert (found + added) - added == found;
      IterateComplete(table, found + added, added);
    }
  }

  lemma JoinedUnion(table: set<Row>, a: set<Row>, b: set<Row>)
    ensures Joined(table, a + b) <= Joined(table, a) + Joined(table, b)
  {
    forall ps | ps in Joined(table, a + b) ensures ps in Joined(table, a) + Joined(table, b) {
      var ds :| ds in a + b && ps.stage in ds.downstream;
      if ds in a {
        assert ps in Joined(table, a);
      } else {
        assert ps in Joined(table, b);
      }
    }
  }

  lemma {:induction false} ReachedIsListed(table: set<Row>, stage: string, rows: set<Row>, s: string, n: nat)
    returns (r: Row)
    requires Base(table, stage) <= rows <= table && ClosedOver(table, rows, rows)
    requires ReachedBy(table, stage, s, n)
    ensures r in rows && s in r.downstream
    decreases n
  {
    if n == 0 {
      r :| r in table && r.stage == stage && s in r.downstream;
      assert r in Base(table, stage);
    } else {
      var c :| ReachedBy(table, stage, c, n - 1) && Edge(table, c, s);
      var before := ReachedIsListed(table, stage, rows, c, n - 1);
      r :| r in table && r.stage == c && s in r.downstream;
      assert r in Joined(table, rows);
    }
  }

  /** The query returns exactly the stages reached by one or more edges, cycles or not. */
  lemma DownstreamIsReachable(table: set<Row>, stage: string, s: string)
    ensures s in GetDownstreamStages(table, stage) <==> Reached(table, stage, s)
  {
    var base := Base(table, stage);
    var rows := Iterate(table, base, base);
    IterateSound(table, stage, base, base);
    assert base - base == {};
    assert Joined(table, {}) == {};
    IterateComplete(table, base, base);
    if s in GetDownstreamStages(table, stage) {
      var r :| r in rows && s in r.downstream;
      ReachOneMore(table, stage, r, s);
    }
    if Reached(table, stage, s) {
      var n: nat :| ReachedBy(table, stage, s, n);
      var r := ReachedIsListed(table, stage, rows, s, n);
    }
  }
}
