module PipelineGate {
  /**
   The concurrency gate of `pkg/pipeline/repository.go`: `ClaimReprocessSlot` as a transaction of
   several steps under an advisory lock, interleaved with any number of other claims and with the
   statements that change sources outside the gate.
   */

  import opened Wrappers

  datatype Status = Pending | Processing | Completed | Failed | Rejected

  /** The columns of a source that the gate and the status methods look at. */
  datatype Source = Source(status: Status, deleted: bool, jobID: string)

  type Rows = map<int, Source>

  /** The value of `pipeline.max_concurrent` of a tenant. */
  datatype ConfigValue = Number(n: int) | NotANumber

  type Limits = map<string, ConfigValue>

  /** No row means 1; a value that is no number is an error. */
  function LimitOf(limits: Limits, tenant: string): Option<int> {
    if tenant !in limits then Some(1)
    else match limits[tenant] { case Number(n) => Some(n) case NotANumber => None }
  }

  function WithLimit(limits: Limits, tenant: string, value: Option<ConfigValue>): Limits {
    match value { case None => limits - {tenant} case Some(v) => limits[tenant := v] }
  }

  predicate Active(src: Source) {
    src.status == Processing && !src.deleted
  }

  function ActiveIds(rows: Rows): set<int> {
    set id | id in rows && Active(rows[id])
  }

  /** `SELECT COUNT(*) FROM sources WHERE processing_status = 'processing' AND is_deleted = false` */
  function InFlight(rows: Rows): nat {
    |ActiveIds(rows)|
  }

  // ---------- single statements ----------

  function SetProcessing(rows: Rows, id: int): Rows {
    if id in rows && !rows[id].deleted then rows[id := rows[id].(status := Processing)] else rows
  }

  /** A status the worker writes, to deleted sources too. */
  function WriteAnyStatus(rows: Rows, id: int, status: Status): Rows {
    if id in rows then rows[id := rows[id].(status := status)] else rows
  }

  predicate IsRetried(src: Source, jobID: string) {
    src.status == Failed && !src.deleted && (jobID == "" || src.jobID == jobID)
  }

  function RetryFailed(rows: Rows, jobID: string): Rows {
    map id | id in rows :: if IsRetried(rows[id], jobID) then rows[id].(status := Pending) else rows[id]
  }

  function SoftDelete(rows: Rows, id: int): Rows {
    if id in rows then rows[id := rows[id].(deleted := true)] else rows
  }

  function Undelete(rows: Rows, id: int): Rows {
    if id in rows then rows[id := rows[id].(deleted := false)] else rows
  }

  // ---------- the protocol ----------

  datatype Phase =
    | Begun                             // waits for the advisory lock
    | Locked
    | LimitRead(limit: int)
    | Counted(limit: int, count: nat)
    | Updated(limit: int, count: nat)   // the row is written but not committed; it is locked
    | Ended

  datatype Claim = Claim(source: int, tenant: string, phase: Phase)

  datatype Db = Db(rows: Rows, limits: Limits, lock: Option<int>, claims: map<int, Claim>)

  datatype Event =
    | Begin(tx: int, source: int, tenant: string)
    | TakeLock(tx: int)
    | ReadLimit(tx: int)
    | Count(tx: int)
    | Reject(tx: int)
    | Update(tx: int)
    | Commit(tx: int)
    | Rollback(tx: int)
    | WriteStatus(source: int, status: Status)
    | Retry(jobID: string)
    | DeleteSource(source: int)
    | UndeleteSource(source: int)
    | InsertSource(source: int, src: Source)
    | SetLimit(tenant: string, value: Option<ConfigValue>)   // None removes the row

  predicate HasLock(p: Phase) {
    p.Locked? || p.LimitRead? || p.Counted? || p.Updated?
  }

  /** No uncommitted write to the row is pending: other statements on it would wait. */
  predicate Free(db: Db, source: int) {
    forall tx :: tx in db.claims && db.claims[tx].phase.Updated? ==> db.claims[tx].source != source
  }

  /**
   The steps that may happen next.  Sources enter `processing` through the gate only, and no
   source is undeleted while its status is `processing`.
   */
  predicate Enabled(db: Db, ev: Event) {
    match ev
    case Begin(tx, _, _) => tx !in db.claims
    case TakeLock(tx) => tx in db.claims && db.claims[tx].phase == Begun && db.lock.None?
    case ReadLimit(tx) => tx in db.claims && db.claims[tx].phase == Locked
    case Count(tx) => tx in db.claims && db.claims[tx].phase.LimitRead?
    case Reject(tx) =>
      tx in db.claims && db.claims[tx].phase.Counted? && db.claims[tx].phase.count >= db.claims[tx].phase.limit
    case Update(tx) =>
      tx in db.claims && db.claims[tx].phase.Counted? && db.claims[tx].phase.count < db.claims[tx].phase.limit
    case Commit(tx) => tx in db.claims && db.claims[tx].phase.Updated?
    case Rollback(tx) => tx in db.claims && db.claims[tx].phase != Ended
    case WriteStatus(id, status) => Free(db, id) && status != Processing
    case Retry(jobID) => forall id :: id in db.rows && IsRetried(db.rows[id], jobID) ==> Free(db, id)
    case DeleteSource(id) => Free(db, id)
    case UndeleteSource(id) => Free(db, id) && (id in db.rows ==> db.rows[id].status != Processing)
    case InsertSource(id, src) => id !in db.rows && src.status != Processing
    case SetLimit(_, _) => true
  }

  function Goto(db: Db, tx: int, p: Phase): Db
    requires tx in db.claims
  {
    db.(claims := db.claims[tx := db.claims[tx].(phase := p)])
  }

  /** The transaction ends, and with it its hold on the advisory lock. */
  function End(db: Db, tx: int): Db
    requires tx in db.claims
  {
    Goto(db, tx, Ended).(lock := if db.lock == Some(tx) then None else db.lock)
  }

  function Apply(db: Db, ev: Event): Db
    requires Enabled(db, ev)
  {
    match ev
    case Begin(tx, source, tenant) => db.(claims := db.claims[tx := Claim(source, tenant, Begun)])
    case TakeLock(tx) => Goto(db, tx, Locked).(lock := Some(tx))
    case ReadLimit(tx) =>
      (match LimitOf(db.limits, db.claims[tx].tenant)
       case Some(n) => Goto(db, tx, LimitRead(n))
       case None => End(db, tx))
    case Count(tx) => Goto(db, tx, Counted(db.claims[tx].phase.limit, InFlight(db.rows)))
    case Reject(tx) => End(db, tx)
    case Update(tx) =>
      var c := db.claims[tx];
      if c.source in db.rows && !db.rows[c.source].deleted then Goto(db, tx, Updated(c.phase.limit, c.phase.count))
      else End(db, tx)
    case Commit(tx) => End(db, tx).(rows := SetProcessing(db.rows, db.claims[tx].source))
    case Rollback(tx) => End(db, tx)
    case WriteStatus(id, status) => db.(rows := WriteAnyStatus(db.rows, id, status))
    case Retry(jobID) => db.(rows := RetryFailed(db.rows, jobID))
    case DeleteSource(id) => db.(rows := SoftDelete(db.rows, id))
    case UndeleteSource(id) => db.(rows := Undelete(db.rows, id))
    case InsertSource(id, src) => db.(rows := db.rows[id := src])
    case SetLimit(tenant, value) => db.(limits := WithLimit(db.limits, tenant, value))
  }

  ghost predicate IsRun(db: Db, evs: seq<Event>)
    decreases |evs|
  {
    evs == [] || (Enabled(db, evs[0]) && IsRun(Apply(db, evs[0]), evs[1..]))
  }

  function Execute(db: Db, evs: seq<Event>): Db
    requires IsRun(db, evs)
    decreases |evs|
  {
    if evs == [] then db else Execute(Apply(db, evs[0]), evs[1..])
  }

  // ---------- counting rows ----------

  lemma CountRow(rows: Rows, id: int, src: Source)
    ensures InFlight(rows[id := src]) ==
            InFlight(rows) - (if id in rows && Active(rows[id]) then 1 else 0) + (if Active(src) then 1 else 0)
  {
    ActiveAfter(rows, id, src);
    assert id in ActiveIds(rows) <==> id in rows && Active(rows[id]);
    hide ActiveIds;
    Replaced(ActiveIds(rows), id, Active(src));
  }

  lemma Replaced(ids: set<int>, id: int, add: bool)
    ensures |(ids - {id}) + (if add then {id} else {})| ==
            |ids| - (if id in ids then 1 else 0) + (if add then 1 else 0)
  {
    var rest := ids - {id};
    if id in ids {
      assert ids == rest + {id};
    } else {
      assert ids == rest;
    }
    assert rest + {} == rest;
  }

  lemma ActiveAfter(rows: Rows, id: int, src: Source)
    ensures ActiveIds(rows[id := src]) == (ActiveIds(rows) - {id}) + (if Active(src) then {id} else {})
  {
  }

  lemma CountRetry(rows: Rows, jobID: string)
    ensures InFlight(RetryFailed(rows, jobID)) == InFlight(rows)
  {
    var rows' := RetryFailed(rows, jobID);
    forall id ensures id in ActiveIds(rows') <==> id in ActiveIds(rows) {
      if id in rows {
        assert Active(rows'[id]) <==> Active(rows[id]);
      }
    }
    assert ActiveIds(rows') == ActiveIds(rows);
  }

  /** No statement outside the gate adds a source in flight. */
  lemma OutsideOnlyShrinks(db: Db, ev: Event)
    requires Enabled(db, ev)
    requires ev.WriteStatus? || ev.Retry? || ev.DeleteSource? || ev.UndeleteSource? || ev.InsertSource?
    ensures InFlight(Apply(db, ev).rows) <= InFlight(db.rows)
  {
    match ev
    case WriteStatus(id, status) =>
      if id in db.rows {
        CountRow(db.rows, id, db.rows[id].(status := status));
      }
    case Retry(jobID) => CountRetry(db.rows, jobID);
    case DeleteSource(id) =>
      if id in db.rows {
        CountRow(db.rows, id, db.rows[id].(deleted := true));
      }
    case UndeleteSource(id) =>
      if id in db.rows {
        CountRow(db.rows, id, db.rows[id].(deleted := false));
      }
    case InsertSource(id, src) => CountRow(db.rows, id, src);
  }

  /** What the statements outside the gate do to a source, and that they leave the others alone. */
  lemma StatementsDo(db: Db, ev: Event, id: int)
    requires Enabled(db, ev) && id in db.rows
    requires ev.WriteStatus? || ev.Retry? || ev.DeleteSource? || ev.UndeleteSource? || ev.InsertSource?
    ensures id in Apply(db, ev).rows
    ensures var src, src' := db.rows[id], Apply(db, ev).rows[id];
      match ev
      case WriteStatus(one, status) => src' == if id == one then src.(status := status) else src
      case Retry(jobID) =>
        src' == if src.status == Failed && !src.deleted && (jobID == "" || src.jobID == jobID)
                then src.(status := Pending) else src
      case DeleteSource(one) => src' == if id == one then src.(deleted := true) else src
      case UndeleteSource(one) => src' == if id == one then src.(deleted := false) else src
      case InsertSource(one, more) =>
        src' == src && id != one && one in Apply(db, ev).rows && Apply(db, ev).rows[one] == more
      case _ => true
  {
  }

  /** A claim that has not ended can roll back at any time; that frees the lock and changes no source. */
  lemma RollbackFrees(db: Db, tx: int)
    requires tx in db.claims && db.claims[tx].phase != Ended
    ensures Enabled(db, Rollback(tx))
    ensures var db' := Apply(db, Rollback(tx));
      db'.rows == db.rows && db'.lock != Some(tx) && (db.lock != Some(tx) ==> db'.lock == db.lock)
  {
  }

  // ---------- the invariant ----------

  /** No tenant's limit is above `m`. */
  ghost predicate LimitsUpTo(limits: Limits, m: int) {
    forall tenant :: LimitOf(limits, tenant).Some? ==> LimitOf(limits, tenant).value <= m
  }

  /** The step sets no limit above `m`; without a row the limit is 1. */
  ghost predicate KeepsLimits(ev: Event, m: int) {
    ev.SetLimit? ==>
      match ev.value { case None => 1 <= m case Some(v) => v.Number? ==> v.n <= m }
  }

  ghost predicate AllKeepLimits(evs: seq<Event>, m: int) {
    forall i :: 0 <= i < |evs| ==> KeepsLimits(evs[i], m)
  }

  /** What a claim past the lock knows is still true: nobody else can have added to the count. */
  ghost predicate Sound(db: Db, m: int, c: Claim) {
    match c.phase
    case LimitRead(limit) => limit <= m
    case Counted(limit, count) => limit <= m && InFlight(db.rows) <= count
    case Updated(limit, count) =>
      && count < limit <= m && InFlight(db.rows) <= count
      && c.source in db.rows && !db.rows[c.source].deleted
    case _ => true
  }

  ghost predicate Inv(db: Db, m: int) {
    && InFlight(db.rows) <= m
    && LimitsUpTo(db.limits, m)
    && (db.lock.Some? ==> db.lock.value in db.claims)
    && (forall tx :: tx in db.claims ==> (HasLock(db.claims[tx].phase) <==> db.lock == Some(tx)))
    && (forall tx :: tx in db.claims ==> Sound(db, m, db.claims[tx]))
  }

  lemma OutsideKeeps(db: Db, m: int, ev: Event)
    requires Inv(db, m) && Enabled(db, ev)
    requires ev.WriteStatus? || ev.Retry? || ev.DeleteSource? || ev.UndeleteSource? || ev.InsertSource?
    ensures Inv(Apply(db, ev), m)
  {
    OutsideOnlyShrinks(db, ev);
    var db' := Apply(db, ev);
    hide InFlight;
    forall tx | tx in db'.claims ensures Sound(db', m, db'.claims[tx]) {
      assert Sound(db, m, db.claims[tx]);
      var id := db.claims[tx].source;
      if db.claims[tx].phase.Updated? {
        assert id in db.rows && !db.rows[id].deleted;
      }
    }
  }

  lemma CommitKeeps(db: Db, m: int, tx: int)
    requires Inv(db, m) && Enabled(db, Commit(tx))
    ensures Inv(Apply(db, Commit(tx)), m)
  {
    var c := db.claims[tx];
    assert Sound(db, m, c);
    CountRow(db.rows, c.source, db.rows[c.source].(status := Processing));
    assert db.lock == Some(tx);
    var db' := Apply(db, Commit(tx));
    hide InFlight;
    forall other | other in db'.claims && other != tx ensures Sound(db', m, db'.claims[other]) {
      assert !HasLock(db.claims[other].phase);
    }
  }

  lemma BeginKeeps(db: Db, m: int, ev: Event)
    requires Inv(db, m) && Enabled(db, ev) && ev.Begin?
    ensures Inv(Apply(db, ev), m)
  {
    hide InFlight, LimitOf;
    var db' := Apply(db, ev);
    forall other | other in db'.claims && other != ev.tx ensures Sound(db', m, db'.claims[other]) {
      assert Sound(db, m, db.claims[other]);
    }
  }

  /** A claim that goes on: it takes the lock, reads or counts. */
  lemma ReadingKeeps(db: Db, m: int, ev: Event)
    requires Inv(db, m) && Enabled(db, ev) && (ev.TakeLock? || ev.ReadLimit? || ev.Count?)
    ensures Inv(Apply(db, ev), m)
  {
    hide InFlight, LimitOf;
    assert Sound(db, m, db.claims[ev.tx]);
    var db' := Apply(db, ev);
    forall other | other in db'.claims && other != ev.tx ensures Sound(db', m, db'.claims[other]) {
      assert Sound(db, m, db.claims[other]);
    }
  }

  /** A claim that writes its row, or ends without a commit. */
  lemma EndingKeeps(db: Db, m: int, ev: Event)
    requires Inv(db, m) && Enabled(db, ev) && (ev.Reject? || ev.Update? || ev.Rollback?)
    ensures Inv(Apply(db, ev), m)
  {
    hide InFlight, LimitOf;
    assert Sound(db, m, db.claims[ev.tx]);
    var db' := Apply(db, ev);
    forall other | other in db'.claims && other != ev.tx ensures Sound(db', m, db'.claims[other]) {
      assert Sound(db, m, db.claims[other]);
    }
  }

  lemma LimitKeeps(db: Db, m: int, ev: Event)
    requires Inv(db, m) && ev.SetLimit? && KeepsLimits(ev, m)
    ensures Inv(Apply(db, ev), m)
  {
    hide InFlight;
    var db' := Apply(db, ev);
    forall tx | tx in db'.claims ensures Sound(db', m, db'.claims[tx]) {
      assert Sound(db, m, db.claims[tx]);
    }
    forall tenant | LimitOf(db'.limits, tenant).Some? ensures LimitOf(db'.limits, tenant).value <= m {
      assert tenant != ev.tenant ==> LimitOf(db'.limits, tenant) == LimitOf(db.limits, tenant);
    }
  }

  lemma StepKeepsInv(db: Db, m: int, ev: Event)
    requires Inv(db, m) && Enabled(db, ev) && KeepsLimits(ev, m)
    ensures Inv(Apply(db, ev), m)
  {
    hide *;
    if ev.WriteStatus? || ev.Retry? || ev.DeleteSource? || ev.UndeleteSource? || ev.InsertSource? {
      OutsideKeeps(db, m, ev);
    } else if ev.Commit? {
      CommitKeeps(db, m, ev.tx);
    } else if ev.Begin? {
      BeginKeeps(db, m, ev);
    } else if ev.SetLimit? {
      LimitKeeps(db, m, ev);
    } else if ev.TakeLock? || ev.ReadLimit? || ev.Count? {
      ReadingKeeps(db, m, ev);
    } else {
      EndingKeeps(db, m, ev);
    }
  }

  /**
   The gate holds: in every interleaving of claims, failures, status changes and changes of limits
   the number of sources in flight stays within `m`, the largest limit any tenant has on the way.
   */
  lemma {:induction false} GateHolds(db: Db, m: int, evs: seq<Event>)
    requires Inv(db, m) && IsRun(db, evs) && AllKeepLimits(evs, m)
    ensures InFlight(Execute(db, evs).rows) <= m
    ensures Inv(Execute(db, evs), m)
    decreases |evs|
  {
    if evs != [] {
      StepKeepsInv(db, m, evs[0]);
      GateHolds(Apply(db, evs[0]), m, evs[1..]);
    }
  }

  // ---------- the limit of the claim ----------

  function LimitIn(p: Phase): Option<int> {
    if p.LimitRead? || p.Counted? || p.Updated? then Some(p.limit) else None
  }

  /** Step `n` is the one in which the claim reads this limit. */
  ghost predicate ReadsAt(db: Db, evs: seq<Event>, tx: int, tenant: string, limit: int, n: nat) {
    && n < |evs| && evs[n] == ReadLimit(tx) && IsRun(db, evs[..n])
    && LimitOf(Execute(db, evs[..n]).limits, tenant) == Some(limit)
  }

  /** A claim past the lock goes on to its end, with the limit it has. */
  lemma StepKeepsLimit(db: Db, ev: Event, tx: int)
    requires Enabled(db, ev) && tx in db.claims
    ensures var c, c' := db.claims[tx], Apply(db, ev).claims;
      && tx in c' && c'[tx].tenant == c.tenant
      && (!c.phase.Begun? && !c.phase.Locked? ==>
            && !c'[tx].phase.Begun? && !c'[tx].phase.Locked?
            && (LimitIn(c'[tx].phase) == None || LimitIn(c'[tx].phase) == LimitIn(c.phase)))
  {
    hide InFlight, LimitOf;
  }

  lemma {:induction false} KeepsItsLimit(db: Db, evs: seq<Event>, tx: int)
    requires IsRun(db, evs) && tx in db.claims && !db.claims[tx].phase.Begun? && !db.claims[tx].phase.Locked?
    ensures var c, last := db.claims[tx], Execute(db, evs).claims;
      && tx in last && last[tx].tenant == c.tenant
      && (LimitIn(last[tx].phase) == None || LimitIn(last[tx].phase) == LimitIn(c.phase))
    decreases |evs|
  {
    hide Apply, LimitIn;
    if evs != [] {
      StepKeepsLimit(db, evs[0], tx);
      KeepsItsLimit(Apply(db, evs[0]), evs[1..], tx);
    }
  }

  /** A claim comes by its limit only by reading it. */
  lemma StepReads(db: Db, ev: Event, tx: int)
    requires Enabled(db, ev) && (tx in db.claims ==> LimitIn(db.claims[tx].phase) == None)
    requires tx in Apply(db, ev).claims && LimitIn(Apply(db, ev).claims[tx].phase).Some?
    ensures var c := Apply(db, ev).claims[tx];
      ev == ReadLimit(tx) && LimitOf(db.limits, c.tenant) == LimitIn(c.phase)
  {
    hide InFlight;
  }

  /** A claim that holds a limit has read it from the table in some step. */
  lemma {:induction false} LimitWasRead(db: Db, evs: seq<Event>, tx: int, limit: int) returns (n: nat)
    requires IsRun(db, evs)
    requires tx in Execute(db, evs).claims && LimitIn(Execute(db, evs).claims[tx].phase) == Some(limit)
    requires tx in db.claims ==> LimitIn(db.claims[tx].phase) == None
    ensures ReadsAt(db, evs, tx, Execute(db, evs).claims[tx].tenant, limit, n)
    decreases |evs|
  {
    hide Apply, Enabled, LimitOf;
    var next := Apply(db, evs[0]);
    if tx in next.claims && LimitIn(next.claims[tx].phase).Some? {
      n := 0;
      StepReads(db, evs[0], tx);
      KeepsItsLimit(next, evs[1..], tx);
      assert evs[..0] == [];
    } else {
      var k := LimitWasRead(next, evs[1..], tx, limit);
      n := k + 1;
      assert evs[..n][1..] == evs[1..][..k];
    }
  }

  /**
   Whenever a claim commits, in whatever interleaving, the number of sources in flight is within the
   limit the table had for its tenant in the step in which the claim read it.
   */
  lemma OwnLimitHolds(db: Db, m: int, evs: seq<Event>, tx: int) returns (n: nat, limit: int)
    requires Inv(db, m) && db.claims == map[] && IsRun(db, evs) && AllKeepLimits(evs, m)
    requires Enabled(Execute(db, evs), Commit(tx))
    ensures var now := Execute(db, evs);
      && ReadsAt(db, evs, tx, now.claims[tx].tenant, limit, n)
      && InFlight(Apply(now, Commit(tx)).rows) <= limit
      && InFlight(Apply(now, Commit(tx)).rows) <= InFlight(now.rows) + 1
  {
    hide ReadsAt, IsRun, Execute, AllKeepLimits;
    GateHolds(db, m, evs);
    var now := Execute(db, evs);
    var c := now.claims[tx];
    assert Sound(now, m, c);
    limit := c.phase.limit;
    n := LimitWasRead(db, evs, tx, limit);
    CountRow(now.rows, c.source, now.rows[c.source].(status := Processing));
  }

  /** A run in which nobody changes a limit leaves the limits as they are. */
  lemma {:induction false} LimitsStay(db: Db, evs: seq<Event>)
    requires IsRun(db, evs) && forall i :: 0 <= i < |evs| ==> !evs[i].SetLimit?
    ensures Execute(db, evs).limits == db.limits
    decreases |evs|
  {
    hide InFlight;
    if evs != [] {
      LimitsStay(Apply(db, evs[0]), evs[1..]);
    }
  }

  /** Then the limit is the one the tenant has all the time. */
  lemma OwnLimitStays(db: Db, m: int, evs: seq<Event>, tx: int)
    requires Inv(db, m) && db.claims == map[] && IsRun(db, evs)
    requires forall i :: 0 <= i < |evs| ==> !evs[i].SetLimit?
    requires Enabled(Execute(db, evs), Commit(tx))
    ensures var now := Execute(db, evs);
            var limit := LimitOf(db.limits, now.claims[tx].tenant);
      limit.Some? && InFlight(Apply(now, Commit(tx)).rows) <= limit.value
  {
    hide InFlight, Inv, IsRun, Execute, Enabled, Apply, LimitOf;
    var n, limit := OwnLimitHolds(db, m, evs, tx);
    LimitsStay(db, evs[..n]);
  }

  /** A database without open claims is a start, whatever its sources, if the bound holds of it. */
  lemma StartIsSafe(rows: Rows, limits: Limits, m: int)
    requires InFlight(rows) <= m && LimitsUpTo(limits, m)
    ensures Inv(Db(rows, limits, None, map[]), m)
  {
  }

  // ---------- undeleting is outside the gate ----------

  /** Undeleting a source keeps the bound exactly when it is not `processing` or there is room. */
  lemma UndeleteKeepsBound(rows: Rows, m: int, id: int)
    requires InFlight(rows) <= m && id in rows && rows[id].deleted
    ensures InFlight(Undelete(rows, id)) <= m <==> (rows[id].status != Processing || InFlight(rows) < m)
  {
    CountRow(rows, id, rows[id].(deleted := false));
  }

  /** With a limit of 1: one source in flight, and a deleted one that comes back as `processing`. */
  lemma UndeleteMayExceed()
    ensures var rows := map[1 := Source(Processing, false, ""), 2 := Source(Processing, true, "")];
            InFlight(rows) == 1 && InFlight(Undelete(rows, 2)) == 2
  {
    var rows := map[1 := Source(Processing, false, ""), 2 := Source(Processing, true, "")];
    assert ActiveIds(rows) == {1};
    assert ActiveIds(Undelete(rows, 2)) == {1, 2};
  }

  // ---------- and so is a status the worker writes ----------

  /** It keeps the bound exactly when it adds no source in flight or there is room. */
  lemma AnyStatusKeepsBound(rows: Rows, m: int, id: int, status: Status)
    requires InFlight(rows) <= m && id in rows
    ensures InFlight(WriteAnyStatus(rows, id, status)) <= m <==>
            (status != Processing || rows[id].deleted || Active(rows[id]) || InFlight(rows) < m)
  {
    CountRow(rows, id, rows[id].(status := status));
  }

  // ---------- a limit that is lowered on the way ----------

  /** A limit of 1 is read, then set to 0: the claim commits all the same. */
  lemma LoweredLimitIsMissed()
    ensures var db := Db(map[7 := Source(Pending, false, "")], map[], None, map[]);
            var evs := [Begin(1, 7, "t"), TakeLock(1), ReadLimit(1), SetLimit("t", Some(Number(0))),
                        Count(1), Update(1), Commit(1)];
      && IsRun(db, evs)
      && LimitOf(Execute(db, evs).limits, "t") == Some(0) && InFlight(Execute(db, evs).rows) == 1
  {
    hide *;
    var db := Db(map[7 := Source(Pending, false, "")], map[], None, map[]);
    var lower := SetLimit("t", Some(Number(0)));
    var d1, d2, d3, d4 := LimitLowered(db);
    var rest := [Count(1), Update(1), Commit(1)];
    var last := Execute(d4, rest);
    var r4, r3, r2 := [lower] + rest, [ReadLimit(1), lower] + rest, [TakeLock(1), ReadLimit(1), lower] + rest;
    RunCons(d4, rest, d3, lower, last, r4);
    RunCons(d3, r4, d2, ReadLimit(1), last, r3);
    RunCons(d2, r3, d1, TakeLock(1), last, r2);
    RunCons(d1, r2, db, Begin(1, 7, "t"), last,
            [Begin(1, 7, "t"), TakeLock(1), ReadLimit(1), lower, Count(1), Update(1), Commit(1)]);
  }

  lemma LimitLowered(db: Db) returns (d1: Db, d2: Db, d3: Db, d4: Db)
    requires db == Db(map[7 := Source(Pending, false, "")], map[], None, map[])
    ensures Enabled(db, Begin(1, 7, "t")) && d1 == Apply(db, Begin(1, 7, "t"))
    ensures Enabled(d1, TakeLock(1)) && d2 == Apply(d1, TakeLock(1))
    ensures Enabled(d2, ReadLimit(1)) && d3 == Apply(d2, ReadLimit(1))
    ensures var lower := SetLimit("t", Some(Number(0))); Enabled(d3, lower) && d4 == Apply(d3, lower)
    ensures var rest := [Count(1), Update(1), Commit(1)];
      && IsRun(d4, rest)
      && LimitOf(Execute(d4, rest).limits, "t") == Some(0) && InFlight(Execute(d4, rest).rows) == 1
  {
    hide InFlight, IsRun, Execute, SetProcessing;
    NoneInFlight();
    d1, d2, d3 := SoloStart(db, 1, 7, "t");
    d4 := Apply(d3, SetLimit("t", Some(Number(0))));
    SoloEnd(d4, 1);
    var rest := [Count(1), Update(1), Commit(1)];
    OneInFlight(Execute(d4, rest).rows);
    KeepsZero(d4, rest);
  }

  lemma KeepsZero(db: Db, evs: seq<Event>)
    requires IsRun(db, evs) && LimitOf(db.limits, "t") == Some(0)
    requires evs == [Count(1), Update(1), Commit(1)]
    ensures LimitOf(Execute(db, evs).limits, "t") == Some(0)
  {
    LimitsStay(db, evs);
  }

  lemma NoneInFlight()
    ensures InFlight(map[7 := Source(Pending, false, "")]) == 0
  {
    assert ActiveIds(map[7 := Source(Pending, false, "")]) == {};
  }

  lemma OneInFlight(rows: Rows)
    requires rows == SetProcessing(map[7 := Source(Pending, false, "")], 7)
    ensures InFlight(rows) == 1
  {
    assert ActiveIds(rows) == {7};
  }

  // ---------- the methods ----------

  /** The statements of a claim, in order. */
  datatype Statement = BeginTx | LockGate | QueryLimit | CountRows | ClaimRow | CommitTx

  /** The statement at which the database fails, or the answer to a commit that is done but lost. */
  datatype Fault = NoFault | Fails(at: Statement) | AnswerLost

  /** What the caller is told; the numbers are the count and the limit. */
  datatype ClaimResult =
    | Claimed(inFlight: int, max: int)
    | Full(inFlight: int, max: int)
    | NotFound(inFlight: int, max: int)
    | BadLimit
    | DatabaseError(at: Statement, inFlight: int, max: int)

  /**
   What a claim comes to, from the row of the tenant in the limits and the sources that are in flight:
   the statements up to the one that fails are done, and only a commit that is done changes a source.
   */
  ghost predicate IsOutcome(before: Rows, limit: Option<ConfigValue>, sourceID: int, fault: Fault,
                            r: ClaimResult, after: Rows) {
    var inFlight := |set id | id in before && before[id].status == Processing && !before[id].deleted|;
    if fault == Fails(BeginTx) || fault == Fails(LockGate) || fault == Fails(QueryLimit) then
      r == DatabaseError(fault.at, 0, 0) && after == before
    else if limit == Some(NotANumber) then r == BadLimit && after == before
    else if fault == Fails(CountRows) then r == DatabaseError(CountRows, 0, 0) && after == before
    else
      var max := if limit.Some? then limit.value.n else 1;
      if inFlight >= max then r == Full(inFlight, max) && after == before
      else if fault == Fails(ClaimRow) then r == DatabaseError(ClaimRow, inFlight, max) && after == before
      else if sourceID !in before || before[sourceID].deleted then r == NotFound(inFlight, max) && after == before
      else if fault == Fails(CommitTx) then r == DatabaseError(CommitTx, inFlight, max) && after == before
      else
        && r == (if fault == AnswerLost then DatabaseError(CommitTx, inFlight, max) else Claimed(inFlight, max))
        && after == before[sourceID := before[sourceID].(status := Processing)]
  }

  lemma InFlightIs(rows: Rows)
    ensures InFlight(rows) == |set id | id in rows && rows[id].status == Processing && !rows[id].deleted|
  {
    var counted := set id | id in rows && rows[id].status == Processing && !rows[id].deleted;
    forall id ensures id in ActiveIds(rows) <==> id in counted {
      assert id in rows ==> (Active(rows[id]) <==> rows[id].status == Processing && !rows[id].deleted);
    }
    assert ActiveIds(rows) == counted;
  }

  class Repository {
    var sources: Rows
    const limits: Limits

    /**
     A claim that no other interrupts, from begin to commit.  When it changes a source, that source is
     in flight and the number in flight is within the limit.
     */
    method ClaimReprocessSlot(sourceID: int, tenantID: string, fault: Fault) returns (r: ClaimResult)
      modifies this
      ensures IsOutcome(old(sources), if tenantID in limits then Some(limits[tenantID]) else None, sourceID, fault,
                        r, sources)
      ensures sources != old(sources) ==>
        sourceID in sources && Active(sources[sourceID]) && !r.BadLimit? && InFlight(sources) <= r.max
    {
      if fault.Fails? && (fault.at.BeginTx? || fault.at.LockGate? || fault.at.QueryLimit?) {
        return DatabaseError(fault.at, 0, 0);
      }
      var limit := LimitOf(limits, tenantID);
      if limit.None? {
        return BadLimit;
      }
      var max := limit.value;
      if fault == Fails(CountRows) {
        return DatabaseError(CountRows, 0, 0);
      }
      var inFlight := InFlight(sources);
      InFlightIs(sources);
      if inFlight >= max {
        return Full(inFlight, max);
      }
      if fault == Fails(ClaimRow) {
        return DatabaseError(ClaimRow, inFlight, max);
      }
      if sourceID !in sources || sources[sourceID].deleted {
        return NotFound(inFlight, max);
      }
      if fault == Fails(CommitTx) {
        return DatabaseError(CommitTx, inFlight, max);
      }
      CountRow(sources, sourceID, sources[sourceID].(status := Processing));
      sources := sources[sourceID := sources[sourceID].(status := Processing)];
      if fault == AnswerLost {
        return DatabaseError(CommitTx, inFlight, max);
      }
      r := Claimed(inFlight, max);
    }

    method ResetSourceStatus(sourceID: int) returns (ok: bool)
      modifies this
      ensures ok <==> sourceID in old(sources) && !old(sources)[sourceID].deleted
      ensures sources ==
        if ok then old(sources)[sourceID := old(sources)[sourceID].(status := Pending)] else old(sources)
      ensures InFlight(sources) <= InFlight(old(sources))
    {
      ok := sourceID in sources && !sources[sourceID].deleted;
      if ok {
        CountRow(sources, sourceID, sources[sourceID].(status := Pending));
        sources := sources[sourceID := sources[sourceID].(status := Pending)];
      }
    }

    method RetryFailedItems(jobID: string) returns (affected: nat)
      modifies this
      ensures sources.Keys == old(sources).Keys
      ensures forall id :: id in sources ==>
        var was := old(sources)[id];
        sources[id] == if was.status == Failed && !was.deleted && (jobID == "" || was.jobID == jobID)
                       then was.(status := Pending) else was
      ensures sources == RetryFailed(old(sources), jobID)
      ensures affected == |set id | id in old(sources) && sources[id] != old(sources)[id]|
      ensures InFlight(sources) == InFlight(old(sources))
    {
      CountRetry(sources, jobID);
      var next := RetryFailed(sources, jobID);
      affected := |set id | id in sources && next[id] != sources[id]|;
      sources := next;
    }

    method UndeleteSource(sourceID: int) returns (ok: bool)
      modifies this
      ensures ok <==> sourceID in old(sources) && old(sources)[sourceID].deleted
      ensures sources ==
        if ok then old(sources)[sourceID := old(sources)[sourceID].(deleted := false)] else old(sources)
    {
      ok := sourceID in sources && sources[sourceID].deleted;
      if ok {
        sources := sources[sourceID := sources[sourceID].(deleted := false)];
      }
    }
  }

  /** From the limit on, a claim alone counts, updates and commits. */
  lemma SoloEnd(db: Db, tx: int)
    requires tx in db.claims && db.claims[tx].phase.LimitRead? && db.lock == Some(tx)
    requires InFlight(db.rows) < db.claims[tx].phase.limit
    requires db.claims[tx].source in db.rows && !db.rows[db.claims[tx].source].deleted
    ensures var evs := [Count(tx), Update(tx), Commit(tx)];
            && IsRun(db, evs)
            && Execute(db, evs).rows == SetProcessing(db.rows, db.claims[tx].source)
            && Execute(db, evs).lock.None? && Execute(db, evs).limits == db.limits
            && Execute(db, evs).claims.Keys == db.claims.Keys
  {
    hide InFlight, SetProcessing;
    var d1 := Apply(db, Count(tx));
    var d2 := Apply(d1, Update(tx));
    var d3 := Apply(d2, Commit(tx));
    assert d3.rows == SetProcessing(db.rows, db.claims[tx].source) && d3.lock.None?;
    assert d3.limits == db.limits && d3.claims.Keys == db.claims.Keys;
    assert IsRun(d3, []) && Execute(d3, []) == d3;
    hide *;
    RunCons(d3, [], d2, Commit(tx), d3, [Commit(tx)]);
    RunCons(d2, [Commit(tx)], d1, Update(tx), d3, [Update(tx), Commit(tx)]);
    RunCons(d1, [Update(tx), Commit(tx)], db, Count(tx), d3, [Count(tx), Update(tx), Commit(tx)]);
  }

  /** A claim alone comes to its limit. */
  lemma SoloStart(db: Db, tx: int, source: int, tenant: string) returns (d1: Db, d2: Db, d3: Db)
    requires tx !in db.claims && db.lock.None? && LimitOf(db.limits, tenant).Some?
    ensures Enabled(db, Begin(tx, source, tenant)) && d1 == Apply(db, Begin(tx, source, tenant))
    ensures Enabled(d1, TakeLock(tx)) && d2 == Apply(d1, TakeLock(tx))
    ensures Enabled(d2, ReadLimit(tx)) && d3 == Apply(d2, ReadLimit(tx))
    ensures d3.rows == db.rows && d3.lock == Some(tx) && d3.limits == db.limits
    ensures d3.claims.Keys == db.claims.Keys + {tx}
    ensures tx in d3.claims && d3.claims[tx] == Claim(source, tenant, LimitRead(LimitOf(db.limits, tenant).value))
  {
    hide LimitOf;
    d1 := Apply(db, Begin(tx, source, tenant));
    d2 := Apply(d1, TakeLock(tx));
    d3 := Apply(d2, ReadLimit(tx));
  }

  /** A claim alone, step by step, comes to the same rows as the method. */
  lemma SoloClaim(db: Db, tx: int, source: int, tenant: string)
    requires tx !in db.claims && db.lock.None? && LimitOf(db.limits, tenant).Some?
    requires InFlight(db.rows) < LimitOf(db.limits, tenant).value
    requires source in db.rows && !db.rows[source].deleted
    ensures var evs := [Begin(tx, source, tenant), TakeLock(tx), ReadLimit(tx), Count(tx), Update(tx), Commit(tx)];
            && IsRun(db, evs)
            && Execute(db, evs).rows == SetProcessing(db.rows, source)
            && Execute(db, evs).lock.None? && Execute(db, evs).limits == db.limits
            && Execute(db, evs).claims.Keys == db.claims.Keys + {tx}
  {
    hide *;
    var d1, d2, d3 := SoloStart(db, tx, source, tenant);
    SoloEnd(d3, tx);
    var rest := [Count(tx), Update(tx), Commit(tx)];
    var last := Execute(d3, rest);
    RunCons(d3, rest, d2, ReadLimit(tx), last, [ReadLimit(tx)] + rest);
    RunCons(d2, [ReadLimit(tx)] + rest, d1, TakeLock(tx), last, [TakeLock(tx), ReadLimit(tx)] + rest);
    RunCons(d1, [TakeLock(tx), ReadLimit(tx)] + rest, db, Begin(tx, source, tenant), last,
            [Begin(tx, source, tenant), TakeLock(tx), ReadLimit(tx)] + rest);
    assert [Begin(tx, source, tenant), TakeLock(tx), ReadLimit(tx)] + rest ==
           [Begin(tx, source, tenant), TakeLock(tx), ReadLimit(tx), Count(tx), Update(tx), Commit(tx)];
  }

  lemma RunCons(next: Db, evs: seq<Event>, db: Db, ev: Event, last: Db, all: seq<Event>)
    requires Enabled(db, ev) && Apply(db, ev) == next
    requires IsRun(next, evs) && Execute(next, evs) == last
    requires all == [ev] + evs
    ensures IsRun(db, all) && Execute(db, all) == last
  {
    assert all[1..] == evs;
  }

  // ---------- the gate lets in as many as the limit says ----------

  lemma {:induction false} RunAppend(db: Db, a: seq<Event>, b: seq<Event>)
    requires IsRun(db, a) && IsRun(Execute(db, a), b)
    ensures IsRun(db, a + b) && Execute(db, a + b) == Execute(Execute(db, a), b)
    decreases |a|
  {
    hide Enabled, Apply;
    if a == [] {
      assert a + b == b;
    } else {
      assert (a + b)[0] == a[0] && (a + b)[1..] == a[1..] + b;
      RunAppend(Apply(db, a[0]), a[1..], b);
    }
  }

  /** One claim after another, each alone, of these sources. */
  function ClaimsOf(tenant: string, sources: seq<int>, tx: int): seq<Event> {
    if sources == [] then []
    else [Begin(tx, sources[0], tenant), TakeLock(tx), ReadLimit(tx), Count(tx), Update(tx), Commit(tx)]
         + ClaimsOf(tenant, sources[1..], tx + 1)
  }

  /** The tenant may have `n` in flight: by its row, or without one when `n` is 1. */
  ghost predicate MayHave(limits: Limits, tenant: string, n: int) {
    if tenant in limits then limits[tenant] == Number(n) else n == 1
  }

  /** Sources that can be claimed, each once, and no claim from number `tx` on yet. */
  ghost predicate Claimable(db: Db, sources: seq<int>, tx: int) {
    && db.lock.None? && (forall t :: t in db.claims ==> t < tx)
    && (forall i :: 0 <= i < |sources| ==>
          sources[i] in db.rows && !db.rows[sources[i]].deleted && db.rows[sources[i]].status != Processing)
    && forall i, j :: 0 <= i < j < |sources| ==> sources[i] != sources[j]
  }

  lemma FirstClaim(db: Db, tenant: string, n: int, sources: seq<int>, tx: int) returns (last: Db)
    requires MayHave(db.limits, tenant, n) && Claimable(db, sources, tx) && sources != [] && InFlight(db.rows) < n
    ensures var evs := [Begin(tx, sources[0], tenant), TakeLock(tx), ReadLimit(tx), Count(tx), Update(tx), Commit(tx)];
      IsRun(db, evs) && last == Execute(db, evs)
    ensures last.limits == db.limits && Claimable(last, sources[1..], tx + 1)
    ensures InFlight(last.rows) == InFlight(db.rows) + 1
    ensures last.rows == db.rows[sources[0] := db.rows[sources[0]].(status := Processing)]
  {
    var source := sources[0];
    SoloClaim(db, tx, source, tenant);
    CountRow(db.rows, source, db.rows[source].(status := Processing));
    hide IsRun, Execute, InFlight;
    last := Execute(db, [Begin(tx, source, tenant), TakeLock(tx), ReadLimit(tx), Count(tx), Update(tx), Commit(tx)]);
    forall t | t in last.claims ensures t < tx + 1 {
      assert t in db.claims.Keys + {tx};
    }
  }

  /** Undisturbed claims of as many sources as there is room for all commit, and no room is left. */
  lemma {:induction false} GateIsTight(db: Db, tenant: string, n: int, sources: seq<int>, tx: int)
    requires MayHave(db.limits, tenant, n) && Claimable(db, sources, tx)
    requires InFlight(db.rows) + |sources| <= n
    ensures var evs := ClaimsOf(tenant, sources, tx);
      && IsRun(db, evs)
      && var last := Execute(db, evs);
         && InFlight(last.rows) == InFlight(db.rows) + |sources|
         && last.rows.Keys == db.rows.Keys
         && (forall i :: 0 <= i < |sources| ==> sources[i] in last.rows && Active(last.rows[sources[i]]))
         && (forall id :: id in db.rows && id !in sources ==> last.rows[id] == db.rows[id])
         && last.limits == db.limits && Claimable(last, [], tx + |sources|)
    decreases |sources|
  {
    hide InFlight, MayHave;
    if sources != [] {
      var first := [Begin(tx, sources[0], tenant), TakeLock(tx), ReadLimit(tx), Count(tx), Update(tx), Commit(tx)];
      var next := FirstClaim(db, tenant, n, sources, tx);
      var rest := ClaimsOf(tenant, sources[1..], tx + 1);
      GateIsTight(next, tenant, n, sources[1..], tx + 1);
      hide IsRun, Execute, Claimable;
      RunAppend(db, first, rest);
      assert sources == [sources[0]] + sources[1..];
    }
  }

  /** The next one is refused, whatever source it asks for. */
  lemma NextIsRefused(db: Db, tenant: string, n: int, source: int, tx: int)
    requires MayHave(db.limits, tenant, n) && Claimable(db, [], tx) && InFlight(db.rows) >= n
    ensures var evs := [Begin(tx, source, tenant), TakeLock(tx), ReadLimit(tx), Count(tx), Reject(tx)];
      IsRun(db, evs) && Execute(db, evs).rows == db.rows
    ensures var evs := [Begin(tx, source, tenant), TakeLock(tx), ReadLimit(tx), Count(tx), Update(tx)];
      !IsRun(db, evs)
  {
    var d1, d2, d3 := SoloStart(db, tx, source, tenant);
    hide InFlight;
    var d4 := Apply(d3, Count(tx));
    assert Enabled(d4, Reject(tx)) && !Enabled(d4, Update(tx));
    var d5 := Apply(d4, Reject(tx));
    assert d5.rows == db.rows && IsRun(d5, []) && Execute(d5, []) == d5;
    RefusedRun(db, d1, d2, d3, d4, d5, tx, source, tenant);
  }

  lemma RefusedRun(db: Db, d1: Db, d2: Db, d3: Db, d4: Db, d5: Db, tx: int, source: int, tenant: string)
    requires Enabled(db, Begin(tx, source, tenant)) && d1 == Apply(db, Begin(tx, source, tenant))
    requires Enabled(d1, TakeLock(tx)) && d2 == Apply(d1, TakeLock(tx))
    requires Enabled(d2, ReadLimit(tx)) && d3 == Apply(d2, ReadLimit(tx))
    requires Enabled(d3, Count(tx)) && d4 == Apply(d3, Count(tx))
    requires Enabled(d4, Reject(tx)) && d5 == Apply(d4, Reject(tx)) && !Enabled(d4, Update(tx))
    ensures var evs := [Begin(tx, source, tenant), TakeLock(tx), ReadLimit(tx), Count(tx), Reject(tx)];
      IsRun(db, evs) && Execute(db, evs) == d5
    ensures !IsRun(db, [Begin(tx, source, tenant), TakeLock(tx), ReadLimit(tx), Count(tx), Update(tx)])
  {
    assert IsRun(d5, []) && Execute(d5, []) == d5;
    hide *;
    RunCons(d5, [], d4, Reject(tx), d5, [Reject(tx)]);
    RunCons(d4, [Reject(tx)], d3, Count(tx), d5, [Count(tx), Reject(tx)]);
    RunCons(d3, [Count(tx), Reject(tx)], d2, ReadLimit(tx), d5, [ReadLimit(tx), Count(tx), Reject(tx)]);
    RunCons(d2, [ReadLimit(tx), Count(tx), Reject(tx)], d1, TakeLock(tx), d5,
            [TakeLock(tx), ReadLimit(tx), Count(tx), Reject(tx)]);
    RunCons(d1, [TakeLock(tx), ReadLimit(tx), Count(tx), Reject(tx)], db, Begin(tx, source, tenant), d5,
            [Begin(tx, source, tenant), TakeLock(tx), ReadLimit(tx), Count(tx), Reject(tx)]);
    NoUpdateRun(db, d1, d2, d3, d4, tx, source, tenant);
  }

  lemma NoUpdateRun(db: Db, d1: Db, d2: Db, d3: Db, d4: Db, tx: int, source: int, tenant: string)
    requires Enabled(db, Begin(tx, source, tenant)) && d1 == Apply(db, Begin(tx, source, tenant))
    requires Enabled(d1, TakeLock(tx)) && d2 == Apply(d1, TakeLock(tx))
    requires Enabled(d2, ReadLimit(tx)) && d3 == Apply(d2, ReadLimit(tx))
    requires Enabled(d3, Count(tx)) && d4 == Apply(d3, Count(tx)) && !Enabled(d4, Update(tx))
    ensures !IsRun(db, [Begin(tx, source, tenant), TakeLock(tx), ReadLimit(tx), Count(tx), Update(tx)])
  {
    assert !IsRun(d4, [Update(tx)]);
    hide *;
    RunTail(d3, d4, Count(tx), [Update(tx)]);
    RunTail(d2, d3, ReadLimit(tx), [Count(tx), Update(tx)]);
    RunTail(d1, d2, TakeLock(tx), [ReadLimit(tx), Count(tx), Update(tx)]);
    RunTail(db, d1, Begin(tx, source, tenant), [TakeLock(tx), ReadLimit(tx), Count(tx), Update(tx)]);
    assert [Begin(tx, source, tenant)] + [TakeLock(tx), ReadLimit(tx), Count(tx), Update(tx)] ==
           [Begin(tx, source, tenant), TakeLock(tx), ReadLimit(tx), Count(tx), Update(tx)];
    assert [TakeLock(tx)] + [ReadLimit(tx), Count(tx), Update(tx)] ==
           [TakeLock(tx), ReadLimit(tx), Count(tx), Update(tx)];
    assert [ReadLimit(tx)] + [Count(tx), Update(tx)] == [ReadLimit(tx), Count(tx), Update(tx)];
    assert [Count(tx)] + [Update(tx)] == [Count(tx), Update(tx)];
  }

  lemma RunTail(db: Db, next: Db, ev: Event, rest: seq<Event>)
    requires Enabled(db, ev) && next == Apply(db, ev)
    ensures IsRun(db, [ev] + rest) <==> IsRun(next, rest)
  {
    assert ([ev] + rest)[1..] == rest;
  }
}
