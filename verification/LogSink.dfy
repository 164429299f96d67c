module LogSink {
  /**
   The asynchronous log sink of `pkg/logging/sink.go` as a state machine: producers write into a
   bounded channel, one goroutine collects batches and hands them over, and `Close` lets it drain
   the channel.  A step is what one goroutine does without another one getting in between.
   */

  datatype LogEntry = LogEntry(
    tenantID: string, timestamp: int, level: string, service: string,
    message: string, fields: map<string, string>, traceID: string, caller: string)

  /** Where the background goroutine stands. */
  datatype RunState =
    | Top         // the first select, which looks for flush requests and `done`
    | Waiting     // the second select
    | DrainFlush  // `done` was seen, the batch is flushed next
    | Drain       // the drain loop
    | Exited

  /** Where the `Close` call that set `closed` stands. */
  datatype CloseState = NotCalled | ClosedSet | DoneClosed | Returned

  datatype Sink = Sink(
    capacity: nat,              // of the channel
    batchSize: nat,
    queue: seq<LogEntry>,       // the contents of the channel
    batch: seq<LogEntry>,
    run: RunState,
    close: CloseState,
    flushers: nat,              // Flush calls past the closed check that are not served yet
    accepted: seq<LogEntry>,    // history: entries a Write put into the channel
    handed: seq<seq<LogEntry>>) // history: the arguments of WriteBatch
  {
    predicate Closed() {
      close != NotCalled
    }

    /** The `done` channel is closed. */
    predicate Done() {
      close == DoneClosed || close == Returned
    }
  }

  datatype Event =
    | Write(entry: LogEntry)
    | FlushCall
    | FlushGivesUp
    | CloseSet
    | CloseDone
    | CloseReturn
    | TopFlush
    | TopDone
    | TopDefault
    | Take
    | Tick
    | ServeFlush
    | SeeDone
    | DrainFirst
    | DrainTake
    | DrainEnd

  function NewSink(bufferSize: int, batchSize: int): Sink {
    Sink(if bufferSize <= 0 then 1000 else bufferSize, if batchSize <= 0 then 100 else batchSize,
         [], [], Top, NotCalled, 0, [], [])
  }

  /** `flush`: an empty batch is not handed over; a failed hand-over empties the batch as well. */
  function Flush(s: Sink): Sink {
    if s.batch == [] then s else s.(handed := s.handed + [s.batch], batch := [])
  }

  /** One entry from the channel into the batch, and a flush when that fills it. */
  function TakeOne(s: Sink): Sink
    requires s.queue != []
  {
    var t := s.(batch := s.batch + [s.queue[0]], queue := s.queue[1..]);
    if |t.batch| >= t.batchSize then Flush(t) else t
  }

  predicate Enabled(s: Sink, ev: Event) {
    match ev
    case Write(_) => true
    case FlushCall => true
    case FlushGivesUp => s.flushers > 0
    case CloseSet => true
    case CloseDone => s.close == ClosedSet
    case CloseReturn => s.close == DoneClosed && s.run == Exited
    case TopFlush => s.run == Top && s.flushers > 0
    case TopDone => s.run == Top && s.Done()
    case TopDefault => s.run == Top && !s.Done()
    case Take => s.run == Waiting && s.queue != []
    case Tick => s.run == Waiting
    case ServeFlush => s.run == Waiting && s.flushers > 0
    case SeeDone => s.run == Waiting && s.Done()
    case DrainFirst => s.run == DrainFlush
    case DrainTake => s.run == Drain && s.queue != []
    case DrainEnd => s.run == Drain && s.queue == []
  }

  function Apply(s: Sink, ev: Event): Sink
    requires Enabled(s, ev)
  {
    match ev
    case Write(e) =>
      if s.Closed() || |s.queue| >= s.capacity then s
      else s.(queue := s.queue + [e], accepted := s.accepted + [e])
    case FlushCall => if s.Closed() then s else s.(flushers := s.flushers + 1)
    case FlushGivesUp => s.(flushers := s.flushers - 1)
    case CloseSet => if s.Closed() then s else s.(close := ClosedSet)
    case CloseDone => s.(close := DoneClosed)
    case CloseReturn => s.(close := Returned)
    case TopFlush => Flush(s).(flushers := s.flushers - 1)
    case TopDone => s.(run := DrainFlush)
    case TopDefault => s.(run := Waiting)
    case Take => TakeOne(s).(run := Top)
    case Tick => Flush(s).(run := Top)
    case ServeFlush => Flush(s).(flushers := s.flushers - 1, run := Top)
    case SeeDone => s.(run := DrainFlush)
    case DrainFirst => Flush(s).(run := Drain)
    case DrainTake => TakeOne(s)
    case DrainEnd => Flush(s).(run := Exited)
  }

  /** A run: every event is enabled when it happens. */
  ghost predicate IsRun(s: Sink, evs: seq<Event>)
    decreases |evs|
  {
    evs == [] || (Enabled(s, evs[0]) && IsRun(Apply(s, evs[0]), evs[1..]))
  }

  function Execute(s: Sink, evs: seq<Event>): Sink
    requires IsRun(s, evs)
    decreases |evs|
  {
    if evs == [] then s else Execute(Apply(s, evs[0]), evs[1..])
  }

  // ---------- safety ----------

  function Flatten(batches: seq<seq<LogEntry>>): seq<LogEntry> {
    if batches == [] then [] else Flatten(batches[..|batches| - 1]) + batches[|batches| - 1]
  }

  lemma FlattenSnoc(batches: seq<seq<LogEntry>>, b: seq<LogEntry>)
    ensures Flatten(batches + [b]) == Flatten(batches) + b
  {
    assert (batches + [b])[..|batches|] == batches;
  }

  ghost predicate Conserved(s: Sink) {
    Flatten(s.handed) + s.batch + s.queue == s.accepted
  }

  ghost predicate GoodBatches(s: Sink) {
    forall i :: 0 <= i < |s.handed| ==> 1 <= |s.handed[i]| <= s.batchSize
  }

  /**
   What every step keeps: nothing accepted is lost, doubled or reordered, every batch handed over
   has between one and `batchSize` entries, and once the goroutine has exited nothing is left.
   */
  ghost predicate Inv(s: Sink) {
    && s.batchSize >= 1
    && |s.queue| <= s.capacity
    && |s.batch| < s.batchSize
    && Conserved(s)
    && GoodBatches(s)
    && (s.run.DrainFlush? || s.run.Drain? || s.run.Exited? ==> s.Done())
    && (s.run == Exited ==> s.queue == [] && s.batch == [])
    && (s.close == Returned ==> s.run == Exited)
  }

  lemma FlushKeeps(s: Sink)
    requires s.batchSize >= 1 && |s.batch| <= s.batchSize && Conserved(s) && GoodBatches(s)
    ensures var t := Flush(s);
            t.batch == [] && Conserved(t) && GoodBatches(t) && t == s.(handed := t.handed, batch := [])
  {
    FlattenSnoc(s.handed, s.batch);
    hide Flatten;
    assert (Flatten(s.handed) + s.batch) + [] == Flatten(s.handed) + s.batch;
  }

  lemma TakeKeeps(s: Sink)
    requires s.queue != []
    requires s.batchSize >= 1 && |s.batch| < s.batchSize && Conserved(s) && GoodBatches(s)
    ensures var t := TakeOne(s);
            && Conserved(t) && GoodBatches(t) && |t.batch| < t.batchSize
            && t == s.(handed := t.handed, batch := t.batch, queue := s.queue[1..])
  {
    var t := s.(batch := s.batch + [s.queue[0]], queue := s.queue[1..]);
    assert s.queue == [s.queue[0]] + s.queue[1..];
    assert Flatten(s.handed) + (s.batch + [s.queue[0]]) + s.queue[1..] == Flatten(s.handed) + s.batch + s.queue;
    FlushKeeps(t);
  }

  /** A step that only moves the goroutine, `Close` or a waiting `Flush` call. */
  lemma MoveKeeps(s: Sink, run: RunState, close: CloseState, flushers: nat)
    requires Inv(s)
    requires run.DrainFlush? || run.Drain? || run.Exited? ==> close.DoneClosed? || close.Returned?
    requires run.Exited? ==> s.queue == [] && s.batch == []
    requires close.Returned? ==> run.Exited?
    ensures Inv(s.(run := run, close := close, flushers := flushers))
  {
    hide Flatten;
  }

  lemma FlushMoveKeeps(s: Sink, run: RunState, flushers: nat)
    requires Inv(s)
    requires run.DrainFlush? || run.Drain? || run.Exited? ==> s.Done()
    requires run.Exited? ==> s.queue == []
    requires s.close.Returned? ==> run.Exited?
    ensures Inv(s.(handed := Flush(s).handed, batch := [], run := run, flushers := flushers))
  {
    hide Flatten, Flush;
    FlushKeeps(s);
  }

  lemma TakeMoveKeeps(s: Sink, run: RunState)
    requires Inv(s) && s.queue != []
    requires run.DrainFlush? || run.Drain? ==> s.Done()
    requires !run.Exited? && !s.close.Returned?
    ensures Inv(s.(handed := TakeOne(s).handed, batch := TakeOne(s).batch, queue := s.queue[1..], run := run))
  {
    hide Flatten, TakeOne;
    TakeKeeps(s);
  }

  lemma FlushStepKeeps(s: Sink, ev: Event)
    requires Inv(s) && Enabled(s, ev)
    requires ev.TopFlush? || ev.Tick? || ev.ServeFlush? || ev.DrainFirst? || ev.DrainEnd?
    ensures Inv(Apply(s, ev))
  {
    hide Flush, Conserved, GoodBatches;
    FlushKeeps(s);
    match ev
    case TopFlush => FlushMoveKeeps(s, s.run, s.flushers - 1);
    case Tick => FlushMoveKeeps(s, Top, s.flushers);
    case ServeFlush => FlushMoveKeeps(s, Top, s.flushers - 1);
    case DrainFirst => FlushMoveKeeps(s, Drain, s.flushers);
    case DrainEnd => FlushMoveKeeps(s, Exited, s.flushers);
  }

  lemma TakeStepKeeps(s: Sink, ev: Event)
    requires Inv(s) && Enabled(s, ev) && (ev.Take? || ev.DrainTake?)
    ensures Inv(Apply(s, ev))
  {
    hide TakeOne, Conserved, GoodBatches;
    TakeKeeps(s);
    TakeMoveKeeps(s, if ev.Take? then Top else s.run);
  }

  lemma StepKeepsInv(s: Sink, ev: Event)
    requires Inv(s) && Enabled(s, ev)
    ensures Inv(Apply(s, ev))
  {
    hide Flush, TakeOne, Conserved, GoodBatches;
    match ev
    case Write(e) => WriteKeeps(s, e);
    case FlushCall => if !s.Closed() { MoveKeeps(s, s.run, s.close, s.flushers + 1); }
    case FlushGivesUp => MoveKeeps(s, s.run, s.close, s.flushers - 1);
    case CloseSet => if !s.Closed() { MoveKeeps(s, s.run, ClosedSet, s.flushers); }
    case CloseDone => MoveKeeps(s, s.run, DoneClosed, s.flushers);
    case CloseReturn => MoveKeeps(s, s.run, Returned, s.flushers);
    case TopDone => MoveKeeps(s, DrainFlush, s.close, s.flushers);
    case TopDefault => MoveKeeps(s, Waiting, s.close, s.flushers);
    case SeeDone => MoveKeeps(s, DrainFlush, s.close, s.flushers);
    case Take => TakeStepKeeps(s, ev);
    case DrainTake => TakeStepKeeps(s, ev);
    case _ => FlushStepKeeps(s, ev);
  }

  lemma WriteKeeps(s: Sink, e: LogEntry)
    requires Inv(s)
    ensures Inv(Apply(s, Write(e)))
  {
    assert Flatten(s.handed) + s.batch + (s.queue + [e]) == (Flatten(s.handed) + s.batch + s.queue) + [e];
  }

  /** Every state of every interleaving keeps the invariant. */
  lemma {:induction false} RunKeepsInv(s: Sink, evs: seq<Event>)
    requires Inv(s) && IsRun(s, evs)
    ensures Inv(Execute(s, evs))
    decreases |evs|
  {
    if evs != [] {
      StepKeepsInv(s, evs[0]);
      RunKeepsInv(Apply(s, evs[0]), evs[1..]);
    }
  }

  /**
   The sink conserves entries: in every interleaving, what was handed over, then the batch, then
   the channel are the accepted entries in order; every hand-over has 1 to `batchSize` entries;
   and once the `Close` call that closed the sink has returned, everything was handed over.
   */
  lemma SinkConserves(bufferSize: int, batchSize: int, evs: seq<Event>)
    requires IsRun(NewSink(bufferSize, batchSize), evs)
    ensures var s := Execute(NewSink(bufferSize, batchSize), evs);
            && Flatten(s.handed) + s.batch + s.queue == s.accepted
            && (forall i :: 0 <= i < |s.handed| ==> 1 <= |s.handed[i]| <= s.batchSize)
            && (s.close == Returned ==> s.queue == [] && s.batch == [] && Flatten(s.handed) == s.accepted)
  {
    RunKeepsInv(NewSink(bufferSize, batchSize), evs);
    var s := Execute(NewSink(bufferSize, batchSize), evs);
    if s.close == Returned {
      assert Flatten(s.handed) + [] + [] == Flatten(s.handed);
    }
  }

  /** Nothing is accepted once `Close` was called. */
  lemma {:induction false} NothingAfterClose(s: Sink, evs: seq<Event>)
    requires IsRun(s, evs) && s.Closed()
    ensures Execute(s, evs).Closed() && Execute(s, evs).accepted == s.accepted
    decreases |evs|
  {
    if evs != [] {
      NothingAfterClose(Apply(s, evs[0]), evs[1..]);
    }
  }

  // ---------- which entries are accepted ----------

  /** The entries of a run whose `Write` found the sink open and room in the channel, in order. */
  ghost function WithRoom(s: Sink, evs: seq<Event>): seq<LogEntry>
    requires IsRun(s, evs)
    decreases |evs|
  {
    if evs == [] then []
    else
      var rest := WithRoom(Apply(s, evs[0]), evs[1..]);
      if evs[0].Write? && s.close == NotCalled && |s.queue| < s.capacity then [evs[0].entry] + rest else rest
  }

  /** These are accepted and no others: an entry is missing exactly when it met a closed sink or a full channel. */
  lemma {:induction false} AcceptedExactly(s: Sink, evs: seq<Event>)
    requires IsRun(s, evs)
    ensures Execute(s, evs).accepted == s.accepted + WithRoom(s, evs)
    decreases |evs|
  {
    if evs == [] {
      assert s.accepted + [] == s.accepted;
    } else {
      AcceptedExactly(Apply(s, evs[0]), evs[1..]);
      AcceptsOne(s, evs[0]);
      hide Apply, Enabled;
      var rest := WithRoom(Apply(s, evs[0]), evs[1..]);
      if evs[0].Write? {
        assert (s.accepted + [evs[0].entry]) + rest == s.accepted + ([evs[0].entry] + rest);
      }
    }
  }

  lemma AcceptsOne(s: Sink, ev: Event)
    requires Enabled(s, ev)
    ensures Apply(s, ev).accepted ==
            if ev.Write? && s.close == NotCalled && |s.queue| < s.capacity then s.accepted + [ev.entry] else s.accepted
    ensures ev.Write? ==> Apply(s, ev) == s.(queue := Apply(s, ev).queue, accepted := Apply(s, ev).accepted)
    ensures ev.Write? && s.close == NotCalled && |s.queue| < s.capacity ==> Apply(s, ev).queue == s.queue + [ev.entry]
    ensures !ev.Write? ==> |Apply(s, ev).queue| <= |s.queue|
    ensures !ev.CloseSet? && s.close == NotCalled ==> Apply(s, ev).close == NotCalled
    ensures Apply(s, ev).capacity == s.capacity
  {
  }

  /** All entries written in a run, in order. */
  ghost function Written(evs: seq<Event>): seq<LogEntry> {
    if evs == [] then [] else (if evs[0].Write? then [evs[0].entry] else []) + Written(evs[1..])
  }

  lemma {:induction false} AllFindRoom(s: Sink, evs: seq<Event>)
    requires IsRun(s, evs) && s.close == NotCalled && |s.queue| + |Written(evs)| <= s.capacity
    requires forall i :: 0 <= i < |evs| ==> !evs[i].CloseSet?
    ensures WithRoom(s, evs) == Written(evs)
    decreases |evs|
  {
    if evs != [] {
      AcceptsOne(s, evs[0]);
      hide Apply, Enabled;
      AllFindRoom(Apply(s, evs[0]), evs[1..]);
      assert [] + Written(evs[1..]) == Written(evs[1..]);
    }
  }

  /** With no more entries than the channel has room for, and no `Close`, none is dropped. */
  lemma NothingIsDropped(bufferSize: int, batchSize: int, evs: seq<Event>)
    requires bufferSize > 0 && IsRun(NewSink(bufferSize, batchSize), evs) && |Written(evs)| <= bufferSize
    requires forall i :: 0 <= i < |evs| ==> !evs[i].CloseSet?
    ensures Execute(NewSink(bufferSize, batchSize), evs).accepted == Written(evs)
  {
    var s := NewSink(bufferSize, batchSize);
    assert s.capacity == bufferSize && s.accepted == [] && s.queue == [] && s.close == NotCalled;
    hide NewSink, Written, WithRoom, Execute, IsRun;
    AcceptedExactly(s, evs);
    AllFindRoom(s, evs);
    assert [] + Written(evs) == Written(evs);
  }

  // ---------- entries can always be handed over ----------

  /** A step of the goroutine hands over the batch: on a tick, for a flush request, and before and after draining. */
  lemma FlushStepHandsOver(s: Sink, ev: Event)
    requires Enabled(s, ev) && (ev.TopFlush? || ev.Tick? || ev.ServeFlush? || ev.DrainFirst? || ev.DrainEnd?)
    ensures var t := Apply(s, ev);
      && t.batch == [] && t.queue == s.queue
      && t.handed == if s.batch == [] then s.handed else s.handed + [s.batch]
  {
  }

  /** A waiting `Flush` call can be served whenever the goroutine looks at its channels. */
  lemma FlushCanBeServed(s: Sink)
    requires s.flushers > 0
    ensures s.run == Top ==> Enabled(s, TopFlush)
    ensures s.run == Waiting ==> Enabled(s, ServeFlush)
    ensures Enabled(s, FlushGivesUp)
  {
  }

  /** It takes the first entry of the channel, and hands over the batch exactly when that fills it. */
  lemma TakeStepTakesFirst(s: Sink, ev: Event)
    requires Enabled(s, ev) && (ev.Take? || ev.DrainTake?)
    ensures var t, more := Apply(s, ev), s.batch + [s.queue[0]];
      && t.queue == s.queue[1..]
      && (|more| >= s.batchSize ==> t.batch == [] && t.handed == s.handed + [more])
      && (|more| < s.batchSize ==> t.batch == more && t.handed == s.handed)
  {
  }

  function Stage(r: RunState): nat {
    match r { case Top => 4 case Waiting => 3 case DrainFlush => 2 case Drain => 1 case Exited => 0 }
  }

  /** A next step of the goroutine towards an empty channel and batch. */
  lemma StepTowardsEmpty(s: Sink) returns (ev: Event)
    requires Inv(s) && (s.queue != [] || s.batch != [])
    ensures RunStep(ev) && Enabled(s, ev)
    ensures var t := Apply(s, ev);
      && t.accepted == s.accepted
      && (|| |t.queue| < |s.queue|
          || (|t.queue| == |s.queue| && t.batch == [] && s.batch != [])
          || (|t.queue| == |s.queue| && t.batch == s.batch && Stage(t.run) < Stage(s.run)))
  {
    hide Flatten, Conserved, GoodBatches;
    ev := match s.run
      case Top => if s.Done() then TopDone else TopDefault
      case Waiting => if s.queue != [] then Take else Tick
      case DrainFlush => DrainFirst
      case Drain => if s.queue == [] then DrainEnd else DrainTake
      case Exited => DrainEnd;
  }

  /**
   In every state that can come up the goroutine alone can hand over everything accepted, ticks and
   the channel being all it needs.
   */
  lemma {:induction false} CanHandOverAll(s: Sink) returns (evs: seq<Event>)
    requires Inv(s)
    ensures IsRun(s, evs) && forall i :: 0 <= i < |evs| ==> RunStep(evs[i])
    ensures Flatten(Execute(s, evs).handed) == s.accepted
    decreases |s.queue|, |s.batch|, Stage(s.run)
  {
    hide Apply, Enabled, Flatten, Stage, Inv, Conserved;
    if s.queue == [] && s.batch == [] {
      evs := [];
      InvConserves(s);
      HandedOverExactly(s);
    } else {
      var ev := StepTowardsEmpty(s);
      StepKeepsInv(s, ev);
      var rest := CanHandOverAll(Apply(s, ev));
      evs := [ev] + rest;
      RunCons(s, ev, rest, evs, Execute(Apply(s, ev), rest));
    }
  }

  /** And a `Close` under way can always come to its return. */
  lemma {:induction false} CloseCanReturn(s: Sink) returns (evs: seq<Event>)
    requires Inv(s) && s.close != NotCalled
    ensures IsRun(s, evs) && Execute(s, evs).close == Returned
    decreases match s.close { case NotCalled => 3 case ClosedSet => 2 case DoneClosed => 1 case Returned => 0 }, Rank(s)
  {
    hide Flatten, Conserved, GoodBatches, Flush, TakeOne, Rank;
    if s.close == Returned {
      evs := [];
    } else {
      var ev: Event;
      if s.close == ClosedSet {
        ev := CloseDone;
      } else if s.run == Exited {
        ev := CloseReturn;
      } else {
        NotStuck(s);
        ev :| RunStep(ev) && Enabled(s, ev);
        RankFalls(s, ev);
        StepKeepsClose(s, ev);
      }
      StepKeepsInv(s, ev);
      var rest := CloseCanReturn(Apply(s, ev));
      hide *;
      evs := [ev] + rest;
      RunCons(s, ev, rest, evs, Execute(Apply(s, ev), rest));
    }
  }

  lemma StepKeepsClose(s: Sink, ev: Event)
    requires Enabled(s, ev) && RunStep(ev)
    ensures Apply(s, ev).close == s.close
  {
  }

  // ---------- what a flush request does ----------

  /** With this event a `Flush` call returns without an error. */
  predicate FlushReturns(s: Sink, ev: Event) {
    ev.TopFlush? || ev.ServeFlush? || ev.FlushGivesUp? || (ev.FlushCall? && s.Closed())
  }

  /** The goroutine has served the call: it was neither given up nor made on a closed sink. */
  predicate Served(ev: Event) {
    ev.TopFlush? || ev.ServeFlush?
  }

  /**
   Whenever `Flush` returns without an error, everything accepted so far has been handed over
   exactly when the channel was empty and, unless the call was served, the batch was empty too.
   No call touches the channel.
   */
  lemma FlushHandsOverBatchOnly(s: Sink, ev: Event)
    requires Inv(s) && Enabled(s, ev) && FlushReturns(s, ev)
    ensures var t := Apply(s, ev);
            && t.queue == s.queue
            && t.batch == (if Served(ev) then [] else s.batch)
            && (Flatten(t.handed) == t.accepted <==> s.queue == [] && (!Served(ev) ==> s.batch == []))
  {
    hide Inv, Flatten, Conserved, Apply;
    StepKeepsInv(s, ev);
    FlushEffect(s, ev);
    var t := Apply(s, ev);
    assert Conserved(t) by { InvConserves(t); }
    HandedOverExactly(t);
  }

  lemma InvConserves(s: Sink)
    requires Inv(s)
    ensures Conserved(s)
  {
  }

  lemma FlushEffect(s: Sink, ev: Event)
    requires Inv(s) && Enabled(s, ev) && FlushReturns(s, ev)
    ensures Apply(s, ev).queue == s.queue && Apply(s, ev).batch == if Served(ev) then [] else s.batch
  {
    hide Flush, Flatten, Conserved, GoodBatches;
    FlushKeeps(s);
  }

  lemma HandedOverExactly(t: Sink)
    requires Conserved(t)
    ensures Flatten(t.handed) == t.accepted <==> t.batch == [] && t.queue == []
  {
    assert |Flatten(t.handed)| + |t.batch| + |t.queue| == |t.accepted|;
    if t.batch == [] && t.queue == [] {
      assert Flatten(t.handed) + [] + [] == Flatten(t.handed);
    }
  }

  /** A run in which `Flush` is served and returns while an accepted entry is still in the channel. */
  lemma FlushMayLeaveEntries(e: LogEntry)
    ensures var evs := [Write(e), FlushCall, TopFlush]; var s := NewSink(1000, 100);
            && IsRun(s, evs)
            && Execute(s, evs).flushers == 0 && Execute(s, evs).queue == [e] && Execute(s, evs).handed == []
  {
    var s := NewSink(1000, 100);
    var s1 := Apply(s, Write(e));
    var s2 := Apply(s1, FlushCall);
    var s3 := Apply(s2, TopFlush);
    assert s3.flushers == 0 && s3.queue == [e] && s3.handed == [];
    assert IsRun(s3, []) && Execute(s3, []) == s3;
    hide *;
    RunCons(s2, TopFlush, [], [TopFlush], s3);
    RunCons(s1, FlushCall, [TopFlush], [FlushCall, TopFlush], s3);
    RunCons(s, Write(e), [FlushCall, TopFlush], [Write(e), FlushCall, TopFlush], s3);
  }

  /** A `Flush` that is not served leaves everything as it was. */
  lemma CallGivesUp(s3: Sink, s: Sink, e: LogEntry) returns (s4: Sink, s5: Sink)
    requires s == NewSink(1000, 100) && s3 == s.(batch := [e], accepted := [e])
    ensures Enabled(s3, FlushCall) && s4 == Apply(s3, FlushCall)
    ensures Enabled(s4, FlushGivesUp) && s5 == Apply(s4, FlushGivesUp)
    ensures s5.flushers == 0 && s5.queue == [] && s5.batch == [e] && s5.handed == []
    ensures IsRun(s5, []) && Execute(s5, []) == s5
  {
    hide TakeOne, Flush;
    s4 := Apply(s3, FlushCall);
    s5 := Apply(s4, FlushGivesUp);
  }

  /** A first entry, written and taken. */
  lemma EntryTaken(e: LogEntry) returns (s1: Sink, s2: Sink, s3: Sink)
    ensures Enabled(NewSink(1000, 100), Write(e)) && s1 == Apply(NewSink(1000, 100), Write(e))
    ensures Enabled(s1, TopDefault) && s2 == Apply(s1, TopDefault)
    ensures Enabled(s2, Take) && s3 == Apply(s2, Take)
    ensures s3 == NewSink(1000, 100).(batch := [e], accepted := [e])
  {
    s1 := Apply(NewSink(1000, 100), Write(e));
    s2 := Apply(s1, TopDefault);
    assert s2.queue == [e] && s2.batch == [] && s2.batch + [s2.queue[0]] == [e];
    s3 := Apply(s2, Take);
  }

  /** A run in which `Flush` gives up after 100 ms and returns while the entry is still in the batch. */
  lemma FlushMayGiveUp(e: LogEntry)
    ensures var evs := [Write(e), TopDefault, Take, FlushCall, FlushGivesUp]; var s := NewSink(1000, 100);
            && IsRun(s, evs)
            && var t := Execute(s, evs);
               t.flushers == 0 && t.queue == [] && t.batch == [e] && t.handed == []
  {
    hide *;
    var s := NewSink(1000, 100);
    var s1, s2, s3 := EntryTaken(e);
    var s4, s5 := CallGivesUp(s3, NewSink(1000, 100), e);
    var r1 := [FlushGivesUp];
    var r2 := [FlushCall, FlushGivesUp];
    var r3 := [Take, FlushCall, FlushGivesUp];
    var r4 := [TopDefault, Take, FlushCall, FlushGivesUp];
    RunCons(s4, FlushGivesUp, [], r1, s5);
    RunCons(s3, FlushCall, r1, r2, s5);
    RunCons(s2, Take, r2, r3, s5);
    RunCons(s1, TopDefault, r3, r4, s5);
    RunCons(s, Write(e), r4, [Write(e), TopDefault, Take, FlushCall, FlushGivesUp], s5);
  }

  lemma RunCons(s: Sink, ev: Event, rest: seq<Event>, evs: seq<Event>, last: Sink)
    requires Enabled(s, ev) && IsRun(Apply(s, ev), rest) && Execute(Apply(s, ev), rest) == last
    requires evs == [ev] + rest
    ensures IsRun(s, evs) && Execute(s, evs) == last
  {
    assert evs[1..] == rest;
  }

  // ---------- Close comes to an end ----------

  predicate RunStep(ev: Event) {
    || ev.TopFlush? || ev.TopDone? || ev.TopDefault? || ev.Take? || ev.Tick? || ev.ServeFlush?
    || ev.SeeDone? || ev.DrainFirst? || ev.DrainTake? || ev.DrainEnd?
  }

  /** How far the goroutine is from its exit once `done` is closed. */
  function Rank(s: Sink): nat {
    5 * (s.flushers + |s.queue|) +
    match s.run { case Waiting => 4 case Top => 3 case DrainFlush => 2 case Drain => 1 case Exited => 0 }
  }

  /** After `done` no step moves the goroutine away from its exit and each of its own steps brings it nearer. */
  lemma RankFalls(s: Sink, ev: Event)
    requires Inv(s) && s.Done() && Enabled(s, ev)
    ensures Apply(s, ev).Done()
    ensures Rank(Apply(s, ev)) <= Rank(s)
    ensures RunStep(ev) ==> Rank(Apply(s, ev)) < Rank(s)
  {
    hide Flush, TakeOne, Flatten, Conserved, GoodBatches;
    FlushKeeps(s);
    if s.queue != [] {
      TakeKeeps(s);
    }
  }

  /** And it is never stuck on the way: some step of its own is enabled until it has exited. */
  lemma NotStuck(s: Sink)
    requires s.Done() && s.run != Exited
    ensures exists ev :: RunStep(ev) && Enabled(s, ev)
  {
    var ev := match s.run
      case Top => TopDone
      case Waiting => SeeDone
      case DrainFlush => DrainFirst
      case Drain => if s.queue == [] then DrainEnd else DrainTake;
    assert RunStep(ev) && Enabled(s, ev);
  }

  function CountRunSteps(evs: seq<Event>): nat {
    if evs == [] then 0 else (if RunStep(evs[0]) then 1 else 0) + CountRunSteps(evs[1..])
  }

  lemma {:induction false} OwnStepsCount(evs: seq<Event>)
    requires forall i :: 0 <= i < |evs| ==> RunStep(evs[i])
    ensures CountRunSteps(evs) == |evs|
  {
    if evs != [] {
      OwnStepsCount(evs[1..]);
    }
  }

  /** So in every interleaving the goroutine takes at most `Rank` more steps after `done`. */
  lemma {:induction false} DrainIsBounded(s: Sink, evs: seq<Event>)
    requires Inv(s) && s.Done() && IsRun(s, evs)
    ensures CountRunSteps(evs) <= Rank(s)
    ensures (forall i :: 0 <= i < |evs| ==> RunStep(evs[i])) ==> |evs| <= Rank(s)
    decreases |evs|
  {
    if forall i :: 0 <= i < |evs| ==> RunStep(evs[i]) {
      OwnStepsCount(evs);
    }
    if evs != [] {
      RankFalls(s, evs[0]);
      StepKeepsInv(s, evs[0]);
      DrainIsBounded(Apply(s, evs[0]), evs[1..]);
    }
  }

  // ---------- the code of the steps ----------

  /** The backend; what it does with a batch is not looked at. */
  class LogWriter {
    constructor () {
    }
  }

  /** The sink as an object; each method is proved to take the steps of the machine. */
  class DBSink {
    const writer: LogWriter
    const bufferSize: nat
    const batchSize: nat
    const flushInterval: int
    var entryChan: seq<LogEntry>
    var batch: seq<LogEntry>
    var closed: bool
    var done: bool
    ghost var Run: RunState
    ghost var Close: CloseState
    ghost var Flushers: nat
    ghost var Accepted: seq<LogEntry>
    ghost var Handed: seq<seq<LogEntry>>

    ghost function View(): Sink
      reads this
    {
      Sink(bufferSize, batchSize, entryChan, batch, Run, Close, Flushers, Accepted, Handed)
    }

    ghost predicate Valid()
      reads this
    {
      Inv(View()) && closed == View().Closed() && done == View().Done()
    }

    /** `NewDBSink`: without a writer it panics, so there is always one; the interval is in milliseconds. */
    constructor (writer: LogWriter, bufferSize: int, batchSize: int, flushInterval: int)
      ensures Valid() && View() == NewSink(bufferSize, batchSize)
      ensures this.bufferSize == (if bufferSize > 0 then bufferSize else 1000)
      ensures this.batchSize == (if batchSize > 0 then batchSize else 100)
      ensures entryChan == [] && batch == [] && !closed && !done
      ensures this.writer == writer && this.flushInterval == if flushInterval <= 0 then 2000 else flushInterval
    {
      this.writer := writer;
      this.flushInterval := if flushInterval <= 0 then 2000 else flushInterval;
      this.bufferSize := if bufferSize <= 0 then 1000 else bufferSize;
      this.batchSize := if batchSize <= 0 then 100 else batchSize;
      entryChan, batch, closed, done := [], [], false, false;
      Run, Close, Flushers, Accepted, Handed := Top, NotCalled, 0, [], [];
    }

    /** Queue an entry; a full channel drops it, a closed sink ignores it. */
    method Write(entry: LogEntry)
      requires Valid()
      modifies this`entryChan, this`Accepted
      ensures Valid() && View() == Apply(old(View()), Event.Write(entry))
      ensures !old(closed) && |old(entryChan)| < bufferSize ==>
        entryChan == old(entryChan) + [entry] && Accepted == old(Accepted) + [entry]
      ensures old(closed) || |old(entryChan)| == bufferSize ==> entryChan == old(entryChan) && Accepted == old(Accepted)
    {
      StepKeepsInv(View(), Event.Write(entry));
      if closed {
        return;
      }
      if |entryChan| < bufferSize {
        entryChan := entryChan + [entry];
        Accepted := Accepted + [entry];
      }
    }

    /** The first half of `Close`, under the lock. */
    method BeginClose() returns (first: bool)
      requires Valid()
      modifies this`closed, this`Close
      ensures Valid() && View() == Apply(old(View()), CloseSet)
      ensures first == !old(closed) && closed
    {
      StepKeepsInv(View(), CloseSet);
      first := !closed;
      if first {
        closed := true;
        Close := ClosedSet;
      }
    }

    method CloseDoneChannel()
      requires Valid() && Enabled(View(), CloseDone)
      modifies this`done, this`Close
      ensures Valid() && View() == Apply(old(View()), CloseDone) && done
    {
      StepKeepsInv(View(), CloseDone);
      done := true;
      Close := DoneClosed;
    }

    /** `flush` of the goroutine; whether the writer fails makes no difference to the batch. */
    method FlushBatch()
      modifies this`batch, this`Handed
      ensures View() == Flush(old(View()))
      ensures batch == [] && Handed == if old(batch) == [] then old(Handed) else old(Handed) + [old(batch)]
    {
      if |batch| == 0 {
        return;
      }
      Handed := Handed + [batch];
      batch := [];
    }

    method TakeEntry()
      requires |entryChan| > 0
      modifies this`batch, this`Handed, this`entryChan
      ensures View() == TakeOne(old(View()))
      ensures entryChan == old(entryChan)[1..]
      ensures var more := old(batch) + [old(entryChan)[0]];
        && (|more| >= batchSize ==> batch == [] && Handed == old(Handed) + [more])
        && (|more| < batchSize ==> batch == more && Handed == old(Handed))
    {
      var entry := entryChan[0];
      entryChan := entryChan[1..];
      batch := batch + [entry];
      if |batch| >= batchSize {
        FlushBatch();
      }
    }

    /** One pass of the goroutine through its second select with an entry in the channel. */
    method Receive()
      requires Valid() && Enabled(View(), Take)
      modifies this`batch, this`Handed, this`entryChan, this`Run
      ensures Valid() && View() == Apply(old(View()), Take)
    {
      hide Inv, TakeOne, Flush;
      StepKeepsInv(View(), Take);
      TakeEntry();
      Run := Top;
    }

    method DrainStep()
      requires Valid() && Enabled(View(), DrainTake)
      modifies this`batch, this`Handed, this`entryChan
      ensures Valid() && View() == Apply(old(View()), DrainTake)
    {
      hide Inv, TakeOne, Flush;
      StepKeepsInv(View(), DrainTake);
      TakeEntry();
    }

    method FlushStep(ghost ev: Event)
      requires Valid() && (ev == DrainFirst || ev == DrainEnd) && Enabled(View(), ev)
      modifies this`batch, this`Handed, this`Run
      ensures Valid() && View() == Apply(old(View()), ev)
    {
      hide Inv, TakeOne, Flush;
      StepKeepsInv(View(), ev);
      FlushBatch();
      Run := if ev == DrainFirst then Drain else Exited;
    }

    /** The done branch: flush, drain the channel, flush again, exit. */
    method DrainAll()
      requires Valid() && Run == DrainFlush
      modifies this`batch, this`Handed, this`entryChan, this`Run
      ensures Valid() && Run == Exited
      ensures entryChan == [] && batch == [] && Flatten(Handed) == Accepted
      ensures forall i :: 0 <= i < |Handed| ==> 1 <= |Handed[i]| <= batchSize
      ensures old(Handed) <= Handed
    {
      hide Flatten, Conserved, GoodBatches, Inv;
      FlushStep(DrainFirst);
      while |entryChan| > 0
        invariant Valid() && Run == Drain && old(Handed) <= Handed
        decreases |entryChan|
      {
        DrainStep();
      }
      FlushStep(DrainEnd);
      ExitedIsEmpty(View());
    }
  }

  lemma ExitedIsEmpty(s: Sink)
    requires Inv(s) && s.run == Exited
    ensures s.queue == [] && s.batch == [] && Flatten(s.handed) == s.accepted
    ensures forall i :: 0 <= i < |s.handed| ==> 1 <= |s.handed[i]| <= s.batchSize
  {
    assert Flatten(s.handed) + [] + [] == Flatten(s.handed);
  }
}
