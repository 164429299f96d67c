module EmbeddingClient {
  /**
   `AIBackedClient` of `pkg/embeddings/client.go`: one text or a batch, through a cache that may
   miss, expire, evict or fail, and a service that answers with one vector a text or fails.
   */

  import opened Wrappers
  import opened GoStrings
  import opened EmbeddingPool

  // ---------- the cache as the client sees it ----------

  ghost predicate SubMap(a: map<string, Vector>, b: map<string, Vector>) {
    forall k :: k in a ==> k in b && a[k] == b[k]
  }

  /** A call of the cache: what a `Get` found, or what a `Set` was given. */
  datatype Call = Looked(text: string, found: Option<Vector>) | Stored(text: string, embedding: Vector)

  /**
   Any `Cache`: `Get` may miss a key that is there, and entries may disappear with every call;
   `Set` may fail.  What is never allowed is a value that was not set for the key.
   */
  class Cache {
    var entries: map<string, Vector>
    var calls: seq<Call>

    constructor ()
      ensures entries == map[] && calls == []
    {
      entries, calls := map[], [];
    }

    method Forget()
      modifies this`entries
      ensures SubMap(entries, old(entries))
    {
      var keep: set<string> := *;
      entries := map k | k in entries && k in keep :: entries[k];
    }

    method Get(text: string) returns (r: Option<Vector>)
      modifies this
      ensures SubMap(entries, old(entries))
      ensures r.Some? ==> text in old(entries) && r.value == old(entries)[text]
      ensures calls == old(calls) + [Looked(text, r)]
    {
      r := None;
      if * {
        if text in entries {
          r := Some(entries[text]);
        }
      }
      calls := calls + [Looked(text, r)];
      Forget();
    }

    method Set(text: string, embedding: Vector) returns (ok: bool)
      modifies this
      ensures SubMap(entries, if ok then old(entries)[text := embedding] else old(entries))
      ensures calls == old(calls) + [Stored(text, embedding)]
    {
      ok := *;
      if ok {
        entries := entries[text := embedding];
      }
      calls := calls + [Stored(text, embedding)];
      Forget();
    }
  }

  datatype Config = Config(batchSize: int, maxRetries: int, maxConcurrency: int)

  /** Every cached value is what the service answers for its key. */
  ghost predicate Consistent(service: string -> Vector, entries: map<string, Vector>) {
    forall k :: k in entries ==> entries[k] == service(k)
  }

  /** A scheduler: in every state of an unfinished run it picks a step that is enabled. */
  ghost predicate Scheduler(service: string -> Vector, schedule: Pool -> Event) {
    forall s :: Inv(service, s) && !s.done ==> Enabled(service, s, schedule(s))
  }

  ghost predicate HasEmpty(texts: seq<string>) {
    exists i :: 0 <= i < |texts| && TrimSpace(texts[i]) == ""
  }

  /** How the service answers one request, or that the context ended before it did. */
  datatype Reply = Answered | Unavailable | ContextEnded

  /** What happens on the way: the reply to each request, and whether the context ends in the pause before it. */
  datatype Script = Script(replies: nat -> Reply, cancelled: nat -> bool)

  /** Attempt `i` is the last: it was cancelled, or the service gave a vector. */
  ghost predicate EndsAt(vector: Vector, script: Script, i: nat) {
    || (i > 0 && script.cancelled(i))
    || script.replies(i) == ContextEnded
    || (script.replies(i) == Answered && vector != [])
  }

  /** What up to `maxRetries + 1` requests come to, when the service has `vector` for the text. */
  ghost predicate IsSingle(vector: Vector, maxRetries: int, script: Script, r: Result<Vector, EmbedError>) {
    && (forall i: nat ::
          i <= maxRetries && EndsAt(vector, script, i) && (forall j: nat :: j < i ==> !EndsAt(vector, script, j)) ==>
            r == if (i > 0 && script.cancelled(i)) || script.replies(i) == ContextEnded then Err(ContextCanceled)
                 else Ok(vector))
    && ((forall i: nat :: i <= maxRetries ==> !EndsAt(vector, script, i)) ==>
          r == Err(FailedAfter(maxRetries + 1,
                 if maxRetries < 0 then None
                 else if script.replies(maxRetries) == Answered then Some(InvalidResponse)
                 else Some(ServiceUnavailable))))
  }

  class Client {
    const service: string -> Vector
    const config: Config
    const cache: Cache?
    var requestsTotal: int
    var errorsTotal: int

    constructor (service: string -> Vector, config: Config, cache: Cache?)
      ensures this.service == service && this.config == config && this.cache == cache
      ensures requestsTotal == errorsTotal == 0
    {
      this.service, this.config, this.cache := service, config, cache;
      requestsTotal, errorsTotal := 0, 0;
    }

    ghost predicate CacheConsistent()
      reads this, cache
    {
      cache != null ==> Consistent(service, cache.entries)
    }

    /** One request; an empty vector is not a valid response. */
    method DoEmbedRequest(text: string, reply: Reply) returns (r: Result<Vector, EmbedError>)
      ensures reply == ContextEnded ==> r == Err(ContextCanceled)
      ensures reply == Unavailable ==> r == Err(ServiceUnavailable)
      ensures reply == Answered ==> r == if service(text) == [] then Err(InvalidResponse) else Ok(service(text))
    {
      if reply == ContextEnded {
        r := Err(ContextCanceled);
      } else if reply == Unavailable {
        r := Err(ServiceUnavailable);
      } else if |service(text)| == 0 {
        r := Err(InvalidResponse);
      } else {
        r := Ok(service(text));
      }
    }

    /** Retries until a request succeeds, the context ends, or `maxRetries + 1` requests failed. */
    method EmbedSingle(text: string, script: Script) returns (r: Result<Vector, EmbedError>)
      ensures IsSingle(service(text), config.maxRetries, script, r)
      ensures Possible(service, text, r)
      ensures r.Err? ==> r.error == ContextCanceled || r.error.FailedAfter?
    {
      var attempt := 0;
      var lastErr: Option<EmbedError> := None;
      while attempt <= config.maxRetries
        invariant attempt <= if config.maxRetries >= 0 then config.maxRetries + 1 else 0
        invariant forall j: nat :: j < attempt ==> !EndsAt(service(text), script, j)
        invariant lastErr == if attempt == 0 then None
                             else if script.replies(attempt - 1) == Answered then Some(InvalidResponse)
                             else Some(ServiceUnavailable)
      {
        if attempt > 0 && script.cancelled(attempt) {
          assert EndsAt(service(text), script, attempt);
          return Err(ContextCanceled);
        }
        r := DoEmbedRequest(text, script.replies(attempt));
        if r.Ok? {
          assert EndsAt(service(text), script, attempt);
          return;
        }
        lastErr := Some(r.error);
        if r.error == ContextCanceled || r.error == EmptyText {
          assert EndsAt(service(text), script, attempt);
          return;
        }
        attempt := attempt + 1;
      }
      r := Err(FailedAfter(config.maxRetries + 1, lastErr));
    }

    /**
     One text: trimmed, looked up when there is a cache, asked for when it was not found, and then
     stored.  Every call of the cache is accounted for.
     */
    method Embed(rawText: string, script: Script) returns (r: Result<Vector, EmbedError>)
      requires CacheConsistent()
      modifies this, cache
      ensures CacheConsistent()
      ensures TrimSpace(rawText) == "" <==> r == Err(EmptyText)
      ensures r.Ok? ==> r.value == service(TrimSpace(rawText))
      ensures r == Err(EmptyText) ==> errorsTotal == old(errorsTotal) && requestsTotal == old(requestsTotal)
      ensures r == Err(EmptyText) && cache != null ==> cache.calls == old(cache.calls)
      ensures r.Err? && r.error != EmptyText ==>
        errorsTotal == old(errorsTotal) + 1 && requestsTotal == old(requestsTotal)
      ensures r.Ok? ==> errorsTotal == old(errorsTotal)
      ensures TrimSpace(rawText) != "" && cache == null ==>
        && IsSingle(service(TrimSpace(rawText)), config.maxRetries, script, r)
        && (r.Ok? ==> requestsTotal == old(requestsTotal) + 1)
      ensures TrimSpace(rawText) != "" && cache != null ==>
        var text, n := TrimSpace(rawText), |old(cache.calls)|;
        && n < |cache.calls| && cache.calls[n].Looked?
        && var found := cache.calls[n].found;
           if found.Some? then
             && cache.calls == old(cache.calls) + [Looked(text, found)]
             && r == Ok(found.value) && requestsTotal == old(requestsTotal)
           else
             && IsSingle(service(text), config.maxRetries, script, r)
             && (r.Ok? ==> requestsTotal == old(requestsTotal) + 1)
             && cache.calls == old(cache.calls) + (if r.Ok? then [Looked(text, None), Stored(text, r.value)]
                                                   else [Looked(text, None)])
      ensures cache != null ==> SubMap(cache.entries, if r.Ok? then old(cache.entries)[TrimSpace(rawText) := r.value]
                                                      else old(cache.entries))
    {
      hide IsSingle;
      var text := TrimSpace(rawText);
      if text == "" {
        return Err(EmptyText);
      }
      if cache != null {
        var cached := cache.Get(text);
        if cached.Some? {
          return Ok(cached.value);
        }
      }
      r := EmbedSingle(text, script);
      if r.Err? {
        errorsTotal := errorsTotal + 1;
        return;
      }
      requestsTotal := requestsTotal + 1;
      if cache != null {
        var ok := cache.Set(text, r.value);
      }
    }

    /** The worker pool under any scheduler. */
    method BatchEmbedConcurrent(texts: seq<string>, schedule: Pool -> Event)
      returns (r: Result<seq<Vector>, EmbedError>, ghost last: Pool)
      requires Scheduler(service, schedule)
      ensures r.Ok? ==> |r.value| == |texts| && forall i :: 0 <= i < |texts| ==> r.value[i] == service(texts[i])
      ensures r.Ok? ==> forall i :: 0 <= i < |texts| ==> r.value[i] != []
      ensures last.texts == texts && last.done && Inv(service, last)
      ensures r.Err? ==> IsFirstError(last.received, Some(r.error))
    {
      var s := NewPool(texts, config.maxConcurrency);
      StartInv(service, texts, config.maxConcurrency);
      while !s.done
        invariant Inv(service, s) && s.texts == texts
        decreases Rank(s)
      {
        var ev := schedule(s);
        RankFalls(service, s, ev);
        StepKeepsInv(service, s, ev);
        s := Apply(service, s, ev);
      }
      last := s;
      ResultIsComplete(service, s);
      if s.firstErr.Some? {
        return Err(s.firstErr.value), last;
      }
      r := Ok(seq(|texts|, i requires 0 <= i < |texts| && s.embeddings[i].Some? => s.embeddings[i].value));
    }

    /** Trim every text; an empty one stops the batch. */
    method TrimTexts(texts: seq<string>) returns (r: Result<seq<string>, EmbedError>)
      ensures r.Ok? <==> !HasEmpty(texts)
      ensures r.Ok? ==> r.value == Trimmed(texts)
      ensures r.Err? ==> exists i: nat :: r.error == EmptyTextAt(i) && i < |texts| && TrimSpace(texts[i]) == "" &&
                                          !HasEmpty(texts[..i])
    {
      var trimmedTexts: seq<string> := [];
      for i := 0 to |texts|
        invariant !HasEmpty(texts[..i])
        invariant trimmedTexts == Trimmed(texts[..i])
      {
        var text := TrimSpace(texts[i]);
        if text == "" {
          return Err(EmptyTextAt(i));
        }
        assert texts[..i + 1] == texts[..i] + [texts[i]];
        trimmedTexts := trimmedTexts + [text];
      }
      assert texts[..|texts|] == texts;
      r := Ok(trimmedTexts);
    }

    /**
     Look every text up; a miss goes into the index table.  Afterwards index `i` either has its
     vector or is in the table, with its text beside it.
     */
    method CheckCache(texts: seq<string>)
      returns (embeddings: seq<Option<Vector>>, uncachedIndices: seq<nat>, uncachedTexts: seq<string>)
      requires CacheConsistent()
      modifies cache
      ensures CacheConsistent()
      ensures Served(texts, embeddings, uncachedIndices, uncachedTexts, |texts|)
      ensures cache == null ==> AllMissed(|texts|, embeddings, uncachedIndices)
      ensures cache != null ==> LookedUp(texts, embeddings, uncachedIndices, old(cache.calls), cache.calls, |texts|)
    {
      embeddings := seq(|texts|, _ => None);
      uncachedIndices, uncachedTexts := [], [];
      for i := 0 to |texts|
        invariant CacheConsistent()
        invariant Served(texts, embeddings, uncachedIndices, uncachedTexts, i)
        invariant forall k :: i <= k < |texts| ==> embeddings[k] == None
        invariant cache == null ==> AllMissed(i, embeddings, uncachedIndices)
        invariant cache != null ==> LookedUp(texts, embeddings, uncachedIndices, old(cache.calls), cache.calls, i)
      {
        var cached: Option<Vector> := None;
        if cache != null {
          cached := cache.Get(texts[i]);
        }
        if cached.Some? {
          embeddings := embeddings[i := cached];
        } else {
          uncachedIndices := uncachedIndices + [i];
          uncachedTexts := uncachedTexts + [texts[i]];
        }
      }
    }

    /** The first `n` indices are served from the cache or in the table. */
    ghost predicate Served(texts: seq<string>, embeddings: seq<Option<Vector>>,
                          indices: seq<nat>, uncached: seq<string>, n: nat)
    {
      && |embeddings| == |texts|
      && |indices| == |uncached|
      && (forall j :: 0 <= j < |indices| ==> indices[j] < n && indices[j] < |texts| && uncached[j] == texts[indices[j]])
      && (forall i, j :: 0 <= i < j < |indices| ==> indices[i] < indices[j])
      && (forall i :: 0 <= i < n && i < |texts| ==>
            embeddings[i] == Some(service(texts[i])) || i in indices)
    }

    method MergeResults(ghost texts: seq<string>, embeddings: seq<Option<Vector>>,
                        uncachedIndices: seq<nat>, uncachedTexts: seq<string>, newEmbeddings: seq<Vector>)
      returns (merged: seq<Option<Vector>>)
      requires CacheConsistent()
      requires Served(texts, embeddings, uncachedIndices, uncachedTexts, |texts|)
      requires |newEmbeddings| == |uncachedTexts|
      requires forall j :: 0 <= j < |newEmbeddings| ==> newEmbeddings[j] == service(uncachedTexts[j])
      modifies cache
      ensures CacheConsistent()
      ensures cache != null ==> IsStored(uncachedTexts, newEmbeddings, old(cache.calls), cache.calls, |uncachedTexts|)
      ensures |merged| == |texts| && forall i :: 0 <= i < |texts| ==> merged[i] == Some(service(texts[i]))
    {
      merged := embeddings;
      for j := 0 to |uncachedIndices|
        invariant CacheConsistent()
        invariant |merged| == |texts|
        invariant cache != null ==> IsStored(uncachedTexts, newEmbeddings, old(cache.calls), cache.calls, j)
        invariant forall i :: 0 <= i < |texts| ==>
                    merged[i] == Some(service(texts[i])) || i in uncachedIndices[j..]
      {
        var idx := uncachedIndices[j];
        assert uncachedIndices[j..] == [idx] + uncachedIndices[j + 1..];
        merged := merged[idx := Some(newEmbeddings[j])];
        if cache != null {
          var ok := cache.Set(uncachedTexts[j], newEmbeddings[j]);
        }
      }
    }

    /**
     An error of the pool is handed on as it is: it names the first report that failed, by the place of
     its text among the texts that were not in the cache.
     */
    method BatchEmbed(texts: seq<string>, schedule: Pool -> Event)
      returns (r: Result<seq<Vector>, EmbedError>, ghost received: seq<Report>, ghost indices: seq<nat>,
               ghost found: seq<Option<Vector>>)
      requires CacheConsistent() && Scheduler(service, schedule)
      modifies cache
      ensures CacheConsistent()
      ensures texts == [] <==> r == Err(EmptyBatch)
      ensures texts != [] && |texts| > config.batchSize <==> r == Err(BatchTooLarge(|texts|, config.batchSize))
      ensures 0 < |texts| <= config.batchSize && HasEmpty(texts) <==> r.Err? && r.error.EmptyTextAt?
      ensures r.Err? && r.error.EmptyTextAt? ==>
        r.error.index < |texts| && TrimSpace(texts[r.error.index]) == "" && !HasEmpty(texts[..r.error.index])
      ensures r.Ok? ==> |r.value| == |texts| &&
                        forall i :: 0 <= i < |texts| ==> r.value[i] == service(TrimSpace(texts[i]))
      ensures cache != null && 0 < |texts| <= config.batchSize && !HasEmpty(texts) ==>
        BatchCalls(Trimmed(texts), found, r, old(cache.calls), cache.calls)
      ensures cache != null && (|texts| == 0 || |texts| > config.batchSize || HasEmpty(texts)) ==>
        cache.calls == old(cache.calls)
      ensures r.Err? ==> r.error.EmptyBatch? || r.error.BatchTooLarge? || r.error.EmptyTextAt? || r.error.TextFailed?
      ensures r.Err? && r.error.TextFailed? ==>
        && IsFirstError(received, Some(r.error))
        && (forall j :: 0 <= j < |indices| ==> indices[j] < |texts|)
        && (forall i, j :: 0 <= i < j < |indices| ==> indices[i] < indices[j])
        && forall a :: 0 <= a < |received| ==>
             && received[a].index < |indices|
             && Possible(service, TrimSpace(texts[indices[received[a].index]]), received[a].outcome)
    {
      received, indices, found := [], [], [];
      if |texts| == 0 {
        r := Err(EmptyBatch);
        return;
      }
      if |texts| > config.batchSize {
        r := Err(BatchTooLarge(|texts|, config.batchSize));
        return;
      }
      var trimming := TrimTexts(texts);
      if trimming.Err? {
        r := Err(trimming.error);
        return;
      }
      var trimmedTexts := trimming.value;
      r, received, indices, found := EmbedTrimmed(trimmedTexts, schedule);
    }

    /** The batch after trimming. */
    method EmbedTrimmed(texts: seq<string>, schedule: Pool -> Event)
      returns (r: Result<seq<Vector>, EmbedError>, ghost received: seq<Report>, ghost indices: seq<nat>,
               ghost found: seq<Option<Vector>>)
      requires CacheConsistent() && Scheduler(service, schedule)
      modifies cache
      ensures CacheConsistent()
      ensures r.Ok? ==> r.value == seq(|texts|, i requires 0 <= i < |texts| => service(texts[i]))
      ensures cache != null ==> BatchCalls(texts, found, r, old(cache.calls), cache.calls)
      ensures r.Err? ==>
        && r.error.TextFailed? && IsFirstError(received, Some(r.error))
        && (forall j :: 0 <= j < |indices| ==> indices[j] < |texts|)
        && (forall i, j :: 0 <= i < j < |indices| ==> indices[i] < indices[j])
        && forall a :: 0 <= a < |received| ==>
             received[a].index < |indices| && Possible(service, texts[indices[received[a].index]], received[a].outcome)
    {
      hide LookedUp, IsStored, BatchCalls, IsFirstError, Inv, Consistent, Scheduler;
      received := [];
      var embeddings, uncachedIndices, uncachedTexts := CheckCache(texts);
      indices, found := uncachedIndices, embeddings;
      ghost var between := if cache != null then cache.calls else [];
      var newEmbeddings: seq<Vector> := [];
      if |uncachedTexts| > 0 {
        var generated, last := BatchEmbedConcurrent(uncachedTexts, schedule);
        if generated.Err? {
          received := last.received;
          PoolReports(service, last);
          r := Err(generated.error);
          if cache != null {
            LookupsOnly(texts, found, indices, generated.error, old(cache.calls), cache.calls);
          }
          return;
        }
        newEmbeddings := generated.value;
      }
      embeddings := MergeResults(texts, embeddings, uncachedIndices, uncachedTexts, newEmbeddings);
      r := Ok(seq(|embeddings|, i requires 0 <= i < |embeddings| && embeddings[i].Some? => embeddings[i].value));
      if cache != null {
        LookupsAndStores(texts, found, indices, uncachedTexts, newEmbeddings, old(cache.calls), between, cache.calls,
                         r.value);
      }
    }
  }

  /** Without a cache every index is in the table. */
  ghost predicate AllMissed(n: nat, embeddings: seq<Option<Vector>>, indices: seq<nat>) {
    && n <= |embeddings|
    && forall i :: 0 <= i < n ==> embeddings[i] == None && i in indices
  }

  /** Each of the first `n` texts was looked up once, in order, and what was found decides about its index. */
  ghost predicate LookedUp(texts: seq<string>, embeddings: seq<Option<Vector>>, indices: seq<nat>,
                           before: seq<Call>, calls: seq<Call>, n: nat) {
    && n <= |texts| == |embeddings| && |calls| == |before| + n && before <= calls
    && forall i :: 0 <= i < n ==>
         && calls[|before| + i] == Looked(texts[i], embeddings[i])
         && (embeddings[i] == None <==> i in indices)
  }

  /** Each of the first `n` vectors was handed to the cache for its text, in order. */
  ghost predicate IsStored(texts: seq<string>, vectors: seq<Vector>, before: seq<Call>, calls: seq<Call>, n: nat) {
    && n <= |texts| == |vectors| && |calls| == |before| + n && before <= calls
    && forall j :: 0 <= j < n ==> calls[|before| + j] == Stored(texts[j], vectors[j])
  }

  ghost predicate StoredIn(calls: seq<Call>, from: nat, text: string, embedding: Vector) {
    exists k :: from <= k < |calls| && calls[k] == Stored(text, embedding)
  }

  /**
   The calls of a batch: every text is looked up, in order, with `found`; what was found is the result; on
   success each vector that was not found is stored for its text, and on an error nothing is.
   */
  ghost predicate BatchCalls(texts: seq<string>, found: seq<Option<Vector>>, r: Result<seq<Vector>, EmbedError>,
                             before: seq<Call>, calls: seq<Call>) {
    && |found| == |texts| && |before| + |texts| <= |calls| && before <= calls
    && (forall i :: 0 <= i < |texts| ==> calls[|before| + i] == Looked(texts[i], found[i]))
    && (r.Err? ==> |calls| == |before| + |texts|)
    && (r.Ok? ==> |r.value| == |texts| && forall i :: 0 <= i < |texts| ==>
          if found[i].Some? then r.value[i] == found[i].value
          else StoredIn(calls, |before| + |texts|, texts[i], r.value[i]))
  }

  lemma LookupsOnly(texts: seq<string>, found: seq<Option<Vector>>, indices: seq<nat>, err: EmbedError,
                    before: seq<Call>, calls: seq<Call>)
    requires LookedUp(texts, found, indices, before, calls, |texts|)
    ensures BatchCalls(texts, found, Err(err), before, calls)
  {
  }

  /** The index table has the misses, with their texts. */
  ghost predicate IsTable(texts: seq<string>, indices: seq<nat>, uncached: seq<string>) {
    && |indices| == |uncached|
    && forall j :: 0 <= j < |indices| ==> indices[j] < |texts| && uncached[j] == texts[indices[j]]
  }

  lemma LookupsAndStores(texts: seq<string>, found: seq<Option<Vector>>, indices: seq<nat>, uncached: seq<string>,
                         vectors: seq<Vector>, before: seq<Call>, between: seq<Call>, calls: seq<Call>,
                         value: seq<Vector>)
    requires LookedUp(texts, found, indices, before, between, |texts|) && IsTable(texts, indices, uncached)
    requires IsStored(uncached, vectors, between, calls, |uncached|)
    requires |value| == |texts| && forall i :: 0 <= i < |texts| && found[i].Some? ==> value[i] == found[i].value
    requires forall j :: 0 <= j < |indices| ==> value[indices[j]] == vectors[j]
    ensures BatchCalls(texts, found, Ok(value), before, calls)
  {
    forall i | 0 <= i < |texts| && found[i] == None
      ensures StoredIn(calls, |before| + |texts|, texts[i], value[i])
    {
      var j :| 0 <= j < |indices| && indices[j] == i;
      assert calls[|between| + j] == Stored(uncached[j], vectors[j]);
    }
    assert forall i :: 0 <= i < |between| ==> calls[i] == between[i];
  }

  function Trimmed(texts: seq<string>): (r: seq<string>)
    ensures |r| == |texts|
    ensures forall i :: 0 <= i < |texts| ==> r[i] == TrimSpace(texts[i])
  {
    seq(|texts|, i requires 0 <= i < |texts| => TrimSpace(texts[i]))
  }

  /** What a finished pool received is possible for the text it names. */
  lemma PoolReports(service: string -> Vector, s: Pool)
    requires Inv(service, s) && s.done
    ensures forall a :: 0 <= a < |s.received| ==>
      s.received[a].index < |s.texts| && Possible(service, s.texts[s.received[a].index], s.received[a].outcome)
    ensures forall err :: IsFirstError(s.received, Some(err)) ==> err.TextFailed?
  {
    assert Log(s) == s.received;
    hide Held, SentSet, IndexSet, OncePerIndex;
  }
}
