module EmbeddingPool {
  /**
   The worker pool of `batchEmbedConcurrent` in `pkg/embeddings/client.go` as a state machine: one
   goroutine a text, a semaphore channel, a results channel with room for every text, a goroutine
   that closes it and the caller that collects.
   */

  import opened Wrappers

  type Vector = seq<real>

  datatype EmbedError =
    | EmptyText
    | EmptyTextAt(index: nat)
    | EmptyBatch
    | BatchTooLarge(got: nat, max: int)
    | ServiceUnavailable
    | InvalidResponse
    | ContextCanceled
    | FailedAfter(attempts: int, last: Option<EmbedError>)
    | TextFailed(index: nat, cause: EmbedError)

  datatype Report = Report(index: nat, outcome: Result<Vector, EmbedError>)

  /** Where a worker stands. */
  datatype Phase =
    | NotStarted
    | Started        // before the semaphore
    | Holding        // has a permit, the request is under way
    | SentHolding    // result sent, permit not returned yet
    | SentCancelled  // gave up before the semaphore, error sent
    | Released
    | Finished

  predicate Sent(p: Phase) {
    p in {SentHolding, SentCancelled, Released, Finished}
  }

  predicate HasPermit(p: Phase) {
    p in {Holding, SentHolding}
  }

  datatype Pool = Pool(
    texts: seq<string>,
    maxConcurrency: nat,
    phases: seq<Phase>,
    spawned: nat,
    permits: nat,                       // length of the semaphore channel
    cancelled: bool,
    channel: seq<Report>,               // contents of the results channel
    closed: bool,
    embeddings: seq<Option<Vector>>,
    firstErr: Option<EmbedError>,
    done: bool,
    received: seq<Report>)              // history: what the caller took from the channel

  datatype Event =
    | Spawn
    | Cancel
    | GiveUp(worker: nat)
    | Acquire(worker: nat)
    | Answer(worker: nat, outcome: Result<Vector, EmbedError>)
    | Release(worker: nat)
    | Exit(worker: nat)
    | CloseResults
    | Receive
    | EndCollect

  const DEFAULT_MAX_CONCURRENCY: nat := 10

  function NewPool(texts: seq<string>, maxConcurrency: int): Pool {
    Pool(texts, if maxConcurrency <= 0 then DEFAULT_MAX_CONCURRENCY else maxConcurrency,
         seq(|texts|, _ => NotStarted), 0, 0, false, [], false,
         seq(|texts|, _ => None), None, false, [])
  }

  /** What one request for a text can come to: the service's vector, which is not empty, or an error. */
  predicate Possible(service: string -> Vector, text: string, outcome: Result<Vector, EmbedError>) {
    outcome.Ok? ==> outcome.value == service(text) && outcome.value != []
  }

  predicate In(s: Pool, i: nat, p: Phase) {
    i < |s.phases| && s.phases[i] == p
  }

  predicate AllFinished(s: Pool) {
    forall i :: 0 <= i < |s.phases| ==> s.phases[i] == Finished
  }

  predicate Enabled(service: string -> Vector, s: Pool, ev: Event) {
    match ev
    case Spawn => s.spawned < |s.texts|
    case Cancel => !s.cancelled
    case GiveUp(i) => In(s, i, Started) && s.cancelled
    case Acquire(i) => In(s, i, Started) && s.permits < s.maxConcurrency
    case Answer(i, outcome) => In(s, i, Holding) && i < |s.texts| && Possible(service, s.texts[i], outcome)
    case Release(i) => In(s, i, SentHolding) && s.permits > 0
    case Exit(i) => In(s, i, Released) || In(s, i, SentCancelled)
    case CloseResults => s.spawned == |s.texts| && AllFinished(s) && !s.closed
    case Receive => s.spawned == |s.texts| && s.channel != []
    case EndCollect => s.spawned == |s.texts| && s.channel == [] && s.closed && !s.done
  }

  function Move(s: Pool, i: nat, p: Phase): Pool
    requires i < |s.phases|
  {
    s.(phases := s.phases[i := p])
  }

  /** The caller takes one report: the first error is kept, a vector goes to its index. */
  function Collect(s: Pool, r: Report): Pool {
    s.(firstErr := if r.outcome.Err? && s.firstErr.None? then Some(TextFailed(r.index, r.outcome.error))
                   else s.firstErr,
       embeddings := if r.outcome.Ok? && r.index < |s.embeddings| then s.embeddings[r.index := Some(r.outcome.value)]
                     else s.embeddings,
       received := s.received + [r])
  }

  function Apply(service: string -> Vector, s: Pool, ev: Event): Pool
    requires Enabled(service, s, ev)
  {
    match ev
    case Spawn => if s.spawned < |s.phases| then Move(s, s.spawned, Started).(spawned := s.spawned + 1) else s
    case Cancel => s.(cancelled := true)
    case GiveUp(i) => Move(s, i, SentCancelled).(channel := s.channel + [Report(i, Err(ContextCanceled))])
    case Acquire(i) => Move(s, i, Holding).(permits := s.permits + 1)
    case Answer(i, outcome) => Move(s, i, SentHolding).(channel := s.channel + [Report(i, outcome)])
    case Release(i) => Move(s, i, Released).(permits := s.permits - 1)
    case Exit(i) => Move(s, i, Finished)
    case CloseResults => s.(closed := true)
    case Receive => Collect(s.(channel := s.channel[1..]), s.channel[0])
    case EndCollect => s.(done := true)
  }

  ghost predicate IsRun(service: string -> Vector, s: Pool, evs: seq<Event>)
    decreases |evs|
  {
    evs == [] || (Enabled(service, s, evs[0]) && IsRun(service, Apply(service, s, evs[0]), evs[1..]))
  }

  function Execute(service: string -> Vector, s: Pool, evs: seq<Event>): Pool
    requires IsRun(service, s, evs)
    decreases |evs|
  {
    if evs == [] then s else Execute(service, Apply(service, s, evs[0]), evs[1..])
  }

  // ---------- counting ----------

  /** How many workers hold a permit. */
  function Held(ps: seq<Phase>): nat {
    if ps == [] then 0 else Held(ps[..|ps| - 1]) + (if HasPermit(ps[|ps| - 1]) then 1 else 0)
  }

  /** How many steps the workers have left. */
  function Work(ps: seq<Phase>): nat {
    if ps == [] then 0 else Work(ps[..|ps| - 1]) + Left(ps[|ps| - 1])
  }

  function Left(p: Phase): nat {
    match p
    case NotStarted => 5
    case Started => 4
    case Holding => 3
    case SentHolding => 2
    case SentCancelled => 1
    case Released => 1
    case Finished => 0
  }

  lemma {:induction false} UpdateCounts(ps: seq<Phase>, i: nat, p: Phase)
    requires i < |ps|
    ensures Held(ps[i := p]) == Held(ps) - (if HasPermit(ps[i]) then 1 else 0) + (if HasPermit(p) then 1 else 0)
    ensures Work(ps[i := p]) == Work(ps) - Left(ps[i]) + Left(p)
    decreases |ps|
  {
    var front := ps[..|ps| - 1];
    if i == |front| {
      assert ps[i := p][..|ps| - 1] == front;
    } else {
      assert ps[i := p][..|ps| - 1] == front[i := p];
      UpdateCounts(front, i, p);
    }
  }

  lemma {:induction false} NoneHeld(ps: seq<Phase>)
    requires forall i :: 0 <= i < |ps| ==> !HasPermit(ps[i])
    ensures Held(ps) == 0
  {
    if ps != [] {
      NoneHeld(ps[..|ps| - 1]);
    }
  }

  // ---------- the invariant ----------

  function SentSet(ps: seq<Phase>): set<nat> {
    set i: nat | i < |ps| && Sent(ps[i])
  }

  function IndexSet(log: seq<Report>): set<nat> {
    set a | 0 <= a < |log| :: log[a].index
  }

  function Log(s: Pool): seq<Report> {
    s.received + s.channel
  }

  ghost predicate OncePerIndex(log: seq<Report>) {
    forall a, b :: 0 <= a < b < |log| ==> log[a].index != log[b].index
  }

  ghost predicate Truthful(service: string -> Vector, texts: seq<string>, log: seq<Report>) {
    forall a :: 0 <= a < |log| ==> log[a].index < |texts| && Possible(service, texts[log[a].index], log[a].outcome)
  }

  /** No error when all reports are fine; otherwise that of the first one that is not, with its index. */
  ghost predicate IsFirstError(received: seq<Report>, err: Option<EmbedError>) {
    match err
    case None => forall a :: 0 <= a < |received| ==> received[a].outcome.Ok?
    case Some(e) =>
      exists a :: && 0 <= a < |received| && received[a].outcome.Err?
                  && (forall b :: 0 <= b < a ==> received[b].outcome.Ok?)
                  && e == TextFailed(received[a].index, received[a].outcome.error)
  }

  lemma FirstErrorStays(received: seq<Report>, err: Option<EmbedError>, r: Report)
    requires IsFirstError(received, err)
    ensures IsFirstError(received + [r],
              if err.None? && r.outcome.Err? then Some(TextFailed(r.index, r.outcome.error)) else err)
  {
    var more := received + [r];
    if err.Some? {
      var a :| && 0 <= a < |received| && received[a].outcome.Err?
               && (forall b :: 0 <= b < a ==> received[b].outcome.Ok?)
               && err.value == TextFailed(received[a].index, received[a].outcome.error);
      assert more[a] == received[a];
    } else {
      assert more[|received|] == r;
    }
  }

  /** What the caller has made of the reports received. */
  ghost predicate Collected(s: Pool) {
    && |s.embeddings| == |s.texts|
    && (forall a :: 0 <= a < |s.received| && s.received[a].outcome.Ok? ==>
          s.received[a].index < |s.embeddings| &&
          s.embeddings[s.received[a].index] == Some(s.received[a].outcome.value))
    && IsFirstError(s.received, s.firstErr)
  }

  ghost predicate Inv(service: string -> Vector, s: Pool) {
    && s.maxConcurrency >= 1
    && |s.phases| == |s.texts|
    && s.spawned <= |s.texts|
    && (forall i :: 0 <= i < |s.phases| ==> (s.phases[i] == NotStarted <==> i >= s.spawned))
    && s.permits == Held(s.phases) <= s.maxConcurrency
    && IndexSet(Log(s)) == SentSet(s.phases)
    && OncePerIndex(Log(s))
    && Truthful(service, s.texts, Log(s))
    && Collected(s)
    && (s.closed ==> s.spawned == |s.texts| && AllFinished(s))
    && (s.done ==> s.closed && s.channel == [])
  }

  lemma SentUpdate(ps: seq<Phase>, i: nat, p: Phase)
    requires i < |ps|
    ensures SentSet(ps[i := p]) == if Sent(p) then SentSet(ps) + {i} else SentSet(ps) - {i}
  {
  }

  lemma LogSnoc(log: seq<Report>, r: Report)
    requires OncePerIndex(log) && r.index !in IndexSet(log)
    ensures OncePerIndex(log + [r])
    ensures IndexSet(log + [r]) == IndexSet(log) + {r.index}
  {
    var more := log + [r];
    forall i | i in IndexSet(more) ensures i in IndexSet(log) + {r.index} {
      var a :| 0 <= a < |more| && more[a].index == i;
      if a < |log| {
        assert log[a].index == i;
      }
    }
    forall i | i in IndexSet(log) + {r.index} ensures i in IndexSet(more) {
      if i in IndexSet(log) {
        var a :| 0 <= a < |log| && log[a].index == i;
        assert more[a].index == i;
      } else {
        assert more[|log|].index == i;
      }
    }
    forall a, b | 0 <= a < b < |more| ensures more[a].index != more[b].index {
      if b == |log| {
        assert log[a].index in IndexSet(log);
      }
    }
  }

  lemma {:induction false} LogSize(log: seq<Report>)
    requires OncePerIndex(log)
    ensures |IndexSet(log)| == |log|
  {
    if log == [] {
      assert IndexSet(log) == {};
    } else {
      var front, last := log[..|log| - 1], log[|log| - 1];
      assert log == front + [last];
      forall a | 0 <= a < |front| ensures front[a].index != last.index {
        assert log[a] == front[a];
      }
      LogSnoc(front, last);
      LogSize(front);
    }
  }

  lemma {:induction false} SentSize(ps: seq<Phase>)
    ensures |SentSet(ps)| <= |ps|
    ensures (forall i :: 0 <= i < |ps| ==> Sent(ps[i])) ==> |SentSet(ps)| == |ps|
  {
    if ps == [] {
      assert SentSet(ps) == {};
    } else {
      var front := ps[..|ps| - 1];
      assert SentSet(ps) == SentSet(front) + (if Sent(ps[|front|]) then {|front|} else {});
      SentSize(front);
    }
  }

  /** A send never blocks: a worker that has not sent yet finds room in the results channel. */
  lemma SendHasRoom(service: string -> Vector, s: Pool, i: nat)
    requires Inv(service, s) && i < |s.phases| && !Sent(s.phases[i])
    ensures |s.channel| < |s.texts|
  {
    LogSize(Log(s));
    SentUpdate(s.phases, i, Finished);
    SentSize(s.phases[i := Finished]);
    assert |SentSet(s.phases) + {i}| == |SentSet(s.phases)| + 1;
  }

  lemma ReceivedIsBounded(service: string -> Vector, s: Pool)
    requires Inv(service, s)
    ensures |s.received| <= |s.texts|
  {
    LogSize(Log(s));
    SentSize(s.phases);
  }

  /** A worker sends its report: the log gets one entry more, for an index that had none. */
  lemma SendKeeps(service: string -> Vector, s: Pool, i: nat, p: Phase, outcome: Result<Vector, EmbedError>)
    requires Inv(service, s) && i < |s.phases| && i < s.spawned && !Sent(s.phases[i]) && Sent(p)
    requires HasPermit(s.phases[i]) == HasPermit(p)
    requires Possible(service, s.texts[i], outcome)
    ensures Inv(service, Move(s, i, p).(channel := s.channel + [Report(i, outcome)]))
  {
    var t := Move(s, i, p).(channel := s.channel + [Report(i, outcome)]);
    UpdateCounts(s.phases, i, p);
    SentUpdate(s.phases, i, p);
    assert Log(t) == Log(s) + [Report(i, outcome)];
    LogSnoc(Log(s), Report(i, outcome));
    assert Truthful(service, t.texts, Log(t));
    assert s.phases[i] != Finished;
    hide Held, SentSet, IndexSet, OncePerIndex, Truthful, Log;
  }

  /** A worker moves on without sending. */
  lemma MoveKeeps(service: string -> Vector, s: Pool, i: nat, p: Phase, permits: nat)
    requires Inv(service, s) && i < |s.phases| && i < s.spawned && !s.closed && p != NotStarted
    requires Sent(s.phases[i]) == Sent(p)
    requires permits == s.permits - (if HasPermit(s.phases[i]) then 1 else 0) + (if HasPermit(p) then 1 else 0)
    requires permits <= s.maxConcurrency
    ensures Inv(service, Move(s, i, p).(permits := permits))
  {
    var t := Move(s, i, p).(permits := permits);
    UpdateCounts(s.phases, i, p);
    SentUpdate(s.phases, i, p);
    assert SentSet(t.phases) == SentSet(s.phases);
    assert Log(t) == Log(s);
    hide Held, SentSet, IndexSet, OncePerIndex, Truthful, Log;
  }

  lemma SpawnKeeps(service: string -> Vector, s: Pool)
    requires Inv(service, s) && s.spawned < |s.texts|
    ensures Inv(service, Apply(service, s, Spawn))
  {
    var t := Apply(service, s, Spawn);
    UpdateCounts(s.phases, s.spawned, Started);
    SentUpdate(s.phases, s.spawned, Started);
    assert SentSet(t.phases) == SentSet(s.phases);
    assert Log(t) == Log(s);
    hide Held, SentSet, IndexSet, OncePerIndex, Truthful, Log;
  }

  lemma CollectKeeps(s: Pool, r: Report)
    requires Collected(s) && r.index < |s.texts|
    requires OncePerIndex(s.received + [r])
    ensures Collected(Collect(s, r))
  {
    var t := Collect(s, r);
    forall a | 0 <= a < |t.received| && t.received[a].outcome.Ok?
      ensures t.received[a].index < |t.embeddings| &&
              t.embeddings[t.received[a].index] == Some(t.received[a].outcome.value)
    {
      if a < |s.received| {
        assert s.received[a] == t.received[a];
        assert (s.received + [r])[a].index != (s.received + [r])[|s.received|].index;
      }
    }
    FirstErrorStays(s.received, s.firstErr, r);
  }

  lemma ReceiveKeeps(service: string -> Vector, s: Pool)
    requires Inv(service, s) && s.channel != []
    ensures Inv(service, Collect(s.(channel := s.channel[1..]), s.channel[0]))
  {
    var t := Collect(s.(channel := s.channel[1..]), s.channel[0]);
    assert Log(t) == Log(s) by {
      assert s.channel == [s.channel[0]] + s.channel[1..];
    }
    assert Log(s)[|s.received|] == s.channel[0];
    assert OncePerIndex(s.received + [s.channel[0]]) by {
      var head := s.received + [s.channel[0]];
      forall a, b | 0 <= a < b < |head| ensures head[a].index != head[b].index {
        assert head[a] == Log(s)[a] && head[b] == Log(s)[b];
      }
    }
    CollectKeeps(s.(channel := s.channel[1..]), s.channel[0]);
    hide Held, SentSet, IndexSet, OncePerIndex, Truthful, Collected, Log;
  }

  /** A cancellation, the closing of the channel and the end of the collector change one flag. */
  lemma FlagKeeps(service: string -> Vector, s: Pool, ev: Event)
    requires Inv(service, s) && Enabled(service, s, ev)
    requires ev.Cancel? || ev.CloseResults? || ev.EndCollect?
    ensures Inv(service, Apply(service, s, ev))
  {
    var t := Apply(service, s, ev);
    assert Log(t) == Log(s) && Collected(t);
    hide Held, SentSet, IndexSet, OncePerIndex, Truthful, Collected, Log;
  }

  lemma StepKeepsInv(service: string -> Vector, s: Pool, ev: Event)
    requires Inv(service, s) && Enabled(service, s, ev)
    ensures Inv(service, Apply(service, s, ev))
  {
    hide Held, SentSet, IndexSet, OncePerIndex, Truthful, Collected;
    match ev
    case Spawn => SpawnKeeps(service, s);
    case GiveUp(i) => SendKeeps(service, s, i, SentCancelled, Err(ContextCanceled));
    case Acquire(i) => MoveKeeps(service, s, i, Holding, s.permits + 1);
    case Answer(i, outcome) => SendKeeps(service, s, i, SentHolding, outcome);
    case Release(i) => MoveKeeps(service, s, i, Released, s.permits - 1);
    case Exit(i) => MoveKeeps(service, s, i, Finished, s.permits);
    case Receive => ReceiveKeeps(service, s);
    case _ => FlagKeeps(service, s, ev);
  }

  lemma StartInv(service: string -> Vector, texts: seq<string>, maxConcurrency: int)
    ensures Inv(service, NewPool(texts, maxConcurrency))
  {
    NoneHeld(NewPool(texts, maxConcurrency).phases);
  }

  lemma {:induction false} RunKeepsInv(service: string -> Vector, s: Pool, evs: seq<Event>)
    requires Inv(service, s) && IsRun(service, s, evs)
    ensures Inv(service, Execute(service, s, evs)) && Execute(service, s, evs).texts == s.texts
    ensures Execute(service, s, evs).maxConcurrency == s.maxConcurrency
    decreases |evs|
  {
    if evs != [] {
      StepKeepsInv(service, s, evs[0]);
      RunKeepsInv(service, Apply(service, s, evs[0]), evs[1..]);
    }
  }

  // ---------- the end of a run ----------

  ghost predicate Reported(log: seq<Report>, i: nat) {
    exists a :: 0 <= a < |log| && log[a].index == i
  }

  /** When the caller is done every index was reported exactly once. */
  lemma EveryIndexOnce(service: string -> Vector, s: Pool)
    requires Inv(service, s) && s.done
    ensures |s.received| == |s.texts|
    ensures forall i :: 0 <= i < |s.texts| ==> Reported(s.received, i)
    ensures OncePerIndex(s.received)
  {
    assert Log(s) == s.received;
    LogSize(s.received);
    SentSize(s.phases);
    forall i | 0 <= i < |s.texts| ensures Reported(s.received, i) {
      assert i in SentSet(s.phases);
    }
  }

  /**
   The result of a run: without an error every text has its own vector, in whatever order the
   reports came in; an error is that of the first report that had one, and names its text.
   */
  lemma ResultIsComplete(service: string -> Vector, s: Pool)
    requires Inv(service, s) && s.done
    ensures s.firstErr.None? ==>
              forall i :: 0 <= i < |s.texts| ==>
                s.embeddings[i] == Some(service(s.texts[i])) && service(s.texts[i]) != []
    ensures s.firstErr.Some? <==> exists a :: 0 <= a < |s.received| && s.received[a].outcome.Err?
    ensures IsFirstError(s.received, s.firstErr)
  {
    EveryIndexOnce(service, s);
    assert Log(s) == s.received;
    if s.firstErr.None? {
      forall i | 0 <= i < |s.texts|
        ensures s.embeddings[i] == Some(service(s.texts[i])) && service(s.texts[i]) != []
      {
        assert Reported(s.received, i);
        var a :| 0 <= a < |s.received| && s.received[a].index == i;
        assert Possible(service, s.texts[i], s.received[a].outcome);
      }
    }
  }

  // ---------- progress ----------

  function Rank(s: Pool): int {
    Work(s.phases) + (|s.texts| - |s.received|) +
    (if s.cancelled then 0 else 1) + (if s.closed then 0 else 1) + (if s.done then 0 else 1)
  }

  lemma RankIsNat(service: string -> Vector, s: Pool)
    requires Inv(service, s)
    ensures 0 <= Rank(s)
  {
    ReceivedIsBounded(service, s);
  }

  /** Every step brings the run nearer to its end, so no run has more than `Rank` steps. */
  lemma RankFalls(service: string -> Vector, s: Pool, ev: Event)
    requires Inv(service, s) && Enabled(service, s, ev)
    ensures 0 <= Rank(Apply(service, s, ev)) < Rank(s)
  {
    StepKeepsInv(service, s, ev);
    RankIsNat(service, Apply(service, s, ev));
    if ev.Spawn? || ev.GiveUp? || ev.Acquire? || ev.Answer? || ev.Release? || ev.Exit? {
      WorkFalls(service, s, ev);
    }
    hide Inv, Work;
  }

  /** What the workers have left to do falls with every step of theirs. */
  lemma WorkFalls(service: string -> Vector, s: Pool, ev: Event)
    requires Inv(service, s) && Enabled(service, s, ev)
    requires ev.Spawn? || ev.GiveUp? || ev.Acquire? || ev.Answer? || ev.Release? || ev.Exit?
    ensures Work(Apply(service, s, ev).phases) < Work(s.phases)
  {
    hide Work;
    match ev
    case Spawn => UpdateCounts(s.phases, s.spawned, Started);
    case GiveUp(i) => UpdateCounts(s.phases, i, SentCancelled);
    case Acquire(i) => UpdateCounts(s.phases, i, Holding);
    case Answer(i, _) => UpdateCounts(s.phases, i, SentHolding);
    case Release(i) => UpdateCounts(s.phases, i, Released);
    case Exit(i) => UpdateCounts(s.phases, i, Finished);
  }

  lemma {:induction false} RunIsBounded(service: string -> Vector, s: Pool, evs: seq<Event>)
    requires Inv(service, s) && IsRun(service, s, evs)
    ensures |evs| <= Rank(s)
    decreases |evs|
  {
    ReceivedIsBounded(service, s);
    if evs != [] {
      RankFalls(service, s, evs[0]);
      StepKeepsInv(service, s, evs[0]);
      RunIsBounded(service, Apply(service, s, evs[0]), evs[1..]);
    }
  }

  /** Until the caller is done some step other than a cancellation is enabled: nothing deadlocks. */
  lemma NotStuck(service: string -> Vector, s: Pool) returns (ev: Event)
    requires Inv(service, s) && !s.done
    ensures Enabled(service, s, ev) && ev != Cancel
  {
    if s.spawned < |s.texts| {
      ev := Spawn;
    } else if i :| 0 <= i < |s.phases| && s.phases[i] == Holding {
      ev := Answer(i, Err(ServiceUnavailable));
    } else if i :| 0 <= i < |s.phases| && s.phases[i] == SentHolding {
      PermitHeld(s.phases, i);
      ev := Release(i);
    } else if i :| 0 <= i < |s.phases| && (s.phases[i] == Released || s.phases[i] == SentCancelled) {
      ev := Exit(i);
    } else if i :| 0 <= i < |s.phases| && s.phases[i] == Started {
      NoneHeld(s.phases);
      ev := Acquire(i);
    } else if !s.closed {
      ev := CloseResults;
    } else if s.channel != [] {
      ev := Receive;
    } else {
      ev := EndCollect;
    }
  }

  lemma PermitHeld(ps: seq<Phase>, i: nat)
    requires i < |ps| && HasPermit(ps[i])
    ensures Held(ps) > 0
  {
    UpdateCounts(ps, i, Finished);
  }

  /**
   The pool over every schedule, cancellation included: at most `maxConcurrency` workers hold a
   permit, no report is missing or doubled, and no send finds the channel full.
   */
  lemma PoolIsSafe(service: string -> Vector, texts: seq<string>, maxConcurrency: int, evs: seq<Event>)
    requires IsRun(service, NewPool(texts, maxConcurrency), evs)
    ensures var s := Execute(service, NewPool(texts, maxConcurrency), evs);
            && Held(s.phases) <= (if maxConcurrency <= 0 then 10 else maxConcurrency)
            && OncePerIndex(s.received + s.channel)
            && IndexSet(s.received + s.channel) == SentSet(s.phases)
            && |s.channel| <= |texts|
            && (forall i :: 0 <= i < |s.phases| && !Sent(s.phases[i]) ==> |s.channel| < |texts|)
            && (s.done && s.firstErr.None? ==>
                  |s.embeddings| == |texts| &&
                  forall i :: 0 <= i < |texts| ==> s.embeddings[i] == Some(service(texts[i])))
  {
    var s0 := NewPool(texts, maxConcurrency);
    StartInv(service, texts, maxConcurrency);
    RunKeepsInv(service, s0, evs);
    var s := Execute(service, s0, evs);
    LogSize(Log(s));
    SentSize(s.phases);
    forall i | 0 <= i < |s.phases| && !Sent(s.phases[i]) ensures |s.channel| < |texts| {
      SendHasRoom(service, s, i);
    }
    if s.done {
      ResultIsComplete(service, s);
    }
  }

  // ---------- where reports come from ----------

  /** The report is an answer of the run, or the run was cancelled and it says so. */
  ghost predicate HasCause(evs: seq<Event>, r: Report) {
    || (exists n :: 0 <= n < |evs| && evs[n] == Answer(r.index, r.outcome))
    || (r.outcome == Err(ContextCanceled) && Cancel in evs)
  }

  lemma CauseStays(ev: Event, evs: seq<Event>, r: Report)
    requires HasCause(evs, r)
    ensures HasCause([ev] + evs, r)
  {
    if n :| 0 <= n < |evs| && evs[n] == Answer(r.index, r.outcome) {
      assert ([ev] + evs)[n + 1] == evs[n];
    }
  }

  /** Every report of a run is one the run made; nothing is reported as cancelled that was not. */
  lemma {:induction false} ReportsHaveCauses(service: string -> Vector, s: Pool, evs: seq<Event>, r: Report)
    requires IsRun(service, s, evs) && r in Log(Execute(service, s, evs))
    ensures r in Log(s) || HasCause(evs, r) || (s.cancelled && r.outcome == Err(ContextCanceled))
    decreases |evs|
  {
    hide HasCause, Enabled;
    if evs != [] {
      var next := Apply(service, s, evs[0]);
      ReportsHaveCauses(service, next, evs[1..], r);
      StepReports(service, s, evs[0], r);
      assert evs == [evs[0]] + evs[1..];
      hide Apply, Log;
      if HasCause(evs[1..], r) {
        CauseStays(evs[0], evs[1..], r);
      } else {
        CauseIsFirst(service, s, evs, r);
      }
    }
  }

  lemma StepReports(service: string -> Vector, s: Pool, ev: Event, r: Report)
    requires Enabled(service, s, ev)
    ensures r in Log(Apply(service, s, ev)) ==>
      r in Log(s) || ev == Answer(r.index, r.outcome) || (s.cancelled && r.outcome == Err(ContextCanceled))
    ensures Apply(service, s, ev).cancelled <==> s.cancelled || ev == Cancel
  {
    if ev.Receive? {
      assert s.channel == [s.channel[0]] + s.channel[1..];
    }
  }

  lemma CauseIsFirst(service: string -> Vector, s: Pool, evs: seq<Event>, r: Report)
    requires evs != []
    requires || evs[0] == Answer(r.index, r.outcome) || (evs[0] == Cancel && r.outcome == Err(ContextCanceled))
             || r in Log(s) || (s.cancelled && r.outcome == Err(ContextCanceled))
    ensures r in Log(s) || HasCause(evs, r) || (s.cancelled && r.outcome == Err(ContextCanceled))
  {
  }

  /** Without a cancellation and with no request failing there is no error. */
  lemma NoErrorWithoutCause(service: string -> Vector, texts: seq<string>, maxConcurrency: int, evs: seq<Event>)
    requires IsRun(service, NewPool(texts, maxConcurrency), evs)
    requires forall n :: 0 <= n < |evs| ==> evs[n] != Cancel && (evs[n].Answer? ==> evs[n].outcome.Ok?)
    ensures Execute(service, NewPool(texts, maxConcurrency), evs).firstErr == None
  {
    var s0 := NewPool(texts, maxConcurrency);
    StartInv(service, texts, maxConcurrency);
    RunKeepsInv(service, s0, evs);
    var s := Execute(service, s0, evs);
    if s.firstErr.Some? {
      var a :| && 0 <= a < |s.received| && s.received[a].outcome.Err?
               && (forall b :: 0 <= b < a ==> s.received[b].outcome.Ok?)
               && s.firstErr.value == TextFailed(s.received[a].index, s.received[a].outcome.error);
      ReportsHaveCauses(service, s0, evs, s.received[a]);
    }
  }

  // ---------- the permits are used ----------

  /** The first `n` workers are started and hold permits, the others are not started. */
  ghost predicate FirstHold(s: Pool, n: nat) {
    && |s.phases| == |s.texts| && n <= |s.texts| && s.spawned == n && s.permits == n
    && forall i :: 0 <= i < |s.phases| ==> s.phases[i] == if i < n then Holding else NotStarted
  }

  lemma {:induction false} HeldOfFirst(ps: seq<Phase>, n: nat)
    requires n <= |ps| && forall i :: 0 <= i < |ps| ==> ps[i] == if i < n then Holding else NotStarted
    ensures Held(ps) == n
  {
    if ps != [] {
      var m := |ps| - 1;
      HeldOfFirst(ps[..m], if n < m then n else m);
    }
  }

  lemma OneMoreHolds(service: string -> Vector, s: Pool, n: nat) returns (t: Pool)
    requires FirstHold(s, n) && n < |s.texts| && n < s.maxConcurrency
    ensures Enabled(service, s, Spawn) && Enabled(service, Apply(service, s, Spawn), Acquire(n))
    ensures t == Apply(service, Apply(service, s, Spawn), Acquire(n))
    ensures FirstHold(t, n + 1) && t.maxConcurrency == s.maxConcurrency && t.texts == s.texts
  {
    t := Apply(service, Apply(service, s, Spawn), Acquire(n));
  }

  lemma {:induction false} HoldUpTo(service: string -> Vector, s: Pool, n: nat, m: nat) returns (evs: seq<Event>)
    requires FirstHold(s, n) && n <= m <= |s.texts| && m <= s.maxConcurrency
    ensures IsRun(service, s, evs) && FirstHold(Execute(service, s, evs), m)
    decreases m - n
  {
    hide FirstHold, Enabled, Apply;
    if n == m {
      evs := [];
    } else {
      assert s.maxConcurrency > n && |s.texts| > n;
      var t := OneMoreHolds(service, s, n);
      var rest := HoldUpTo(service, t, n + 1, m);
      evs := [Spawn, Acquire(n)] + rest;
      assert evs[1..] == [Acquire(n)] + rest && evs[1..][1..] == rest;
    }
  }

  /** The limit is used in full: a run holds as many permits as there are, if there are as many texts. */
  lemma AllPermitsAreUsed(service: string -> Vector, texts: seq<string>, maxConcurrency: int) returns (evs: seq<Event>)
    ensures IsRun(service, NewPool(texts, maxConcurrency), evs)
    ensures var most := if maxConcurrency <= 0 then 10 else maxConcurrency;
      Held(Execute(service, NewPool(texts, maxConcurrency), evs).phases) == if |texts| < most then |texts| else most
  {
    var most := if maxConcurrency <= 0 then 10 else maxConcurrency;
    var m := if |texts| < most then |texts| else most;
    var s := NewPool(texts, maxConcurrency);
    evs := HoldUpTo(service, s, 0, m);
    HeldOfFirst(Execute(service, s, evs).phases, m);
  }
}
