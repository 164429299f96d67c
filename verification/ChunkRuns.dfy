/**
 Chunks of `pkg/chunking/chunker.go` and what is promised of a run of them: ranges that are in
 order and disjoint, texts that are what stands in those ranges, nothing lost in between.
 The token estimator is any function.
 */
module ChunkRuns {
  import opened GoStrings
  import opened Wrappers

  datatype Chunk = Chunk(index: nat, text: string, start: nat, end: nat)

  datatype RawChunk = RawChunk(text: string, start: nat, end: nat)

  /** The options as the caller gives them. */
  datatype ChunkOptions =
    ChunkOptions(maxTokens: int, overlapTokens: int, tokenEstimator: Option<string -> int>)

  /** The options after the defaults are applied. */
  datatype Options = Options(maxTokens: int, overlapTokens: int, estimate: string -> int)

  function WithDefaults(o: ChunkOptions): (r: Options)
    ensures r.maxTokens > 0 && r.overlapTokens > 0
  {
    Options(
      if o.maxTokens <= 0 then 400 else o.maxTokens,
      if o.overlapTokens <= 0 then 50 else o.overlapTokens,
      match o.tokenEstimator { case None => (s: string) => |s| / 4 case Some(f) => f })
  }

  /** What is given is taken, and what is missing has its default, each field by itself. */
  lemma DefaultsAre(o: ChunkOptions)
    ensures o.maxTokens > 0 ==> WithDefaults(o).maxTokens == o.maxTokens
    ensures o.maxTokens <= 0 ==> WithDefaults(o).maxTokens == 400
    ensures o.overlapTokens > 0 ==> WithDefaults(o).overlapTokens == o.overlapTokens
    ensures o.overlapTokens <= 0 ==> WithDefaults(o).overlapTokens == 50
    ensures forall f :: o.tokenEstimator == Some(f) ==> WithDefaults(o).estimate == f
    ensures o.tokenEstimator == None ==> forall s: string :: WithDefaults(o).estimate(s) == |s| / 4
  {
  }

  /** The token limit of chunk `k` of a run: the first one has no overlap to leave room for. */
  function Limit(opts: Options, k: nat): int {
    if k == 0 then opts.maxTokens else opts.maxTokens - opts.overlapTokens
  }

  // ---------- what is promised of a run of raw chunks ----------

  /** Non-empty ranges inside `[lo, hi]`, increasing and pairwise disjoint. */
  ghost predicate Ordered(cs: seq<RawChunk>, lo: nat, hi: nat) {
    && (forall k :: 0 <= k < |cs| ==> lo <= cs[k].start < cs[k].end <= hi)
    && (forall i, j :: 0 <= i < j < |cs| ==> cs[i].end <= cs[j].start)
  }

  /** `c` is what stands in its own range of a text that begins at offset `base`. */
  ghost predicate Exact(text: string, base: nat, c: RawChunk) {
    base <= c.start <= c.end <= base + |text| && text[c.start - base..c.end - base] == c.text
  }

  /** The texts of the chunks, one after another. */
  function Content(cs: seq<RawChunk>): string {
    if cs == [] then "" else Content(cs[..|cs| - 1]) + cs[|cs| - 1].text
  }

  lemma ContentSnoc(cs: seq<RawChunk>, c: RawChunk)
    ensures Content(cs + [c]) == Content(cs) + c.text
  {
    assert (cs + [c])[..|cs|] == cs;
  }

  lemma {:induction false} ContentAppend(a: seq<RawChunk>, b: seq<RawChunk>)
    ensures Content(a + b) == Content(a) + Content(b)
  {
    if b == [] {
      assert a + b == a;
    } else {
      var front, last := b[..|b| - 1], b[|b| - 1];
      assert a + b == (a + front) + [last];
      ContentSnoc(a + front, last);
      ContentAppend(a, front);
      Assoc(Content(a), Content(front), last.text);
    }
  }

  lemma OrderedAppend(a: seq<RawChunk>, b: seq<RawChunk>, lo: nat, mid: nat, hi: nat)
    requires lo <= mid <= hi && Ordered(a, lo, mid) && Ordered(b, mid, hi)
    ensures Ordered(a + b, lo, hi)
  {
    forall i, j | 0 <= i < j < |a + b| ensures (a + b)[i].end <= (a + b)[j].start {
      if i < |a| <= j {
        assert b[j - |a|] == (a + b)[j];
      }
    }
  }

  lemma OrderedSnoc(cs: seq<RawChunk>, c: RawChunk, lo: nat, mid: nat, hi: nat)
    requires lo <= mid <= c.start < c.end <= hi && Ordered(cs, lo, mid)
    ensures Ordered(cs + [c], lo, hi)
  {
  }

  /** The chunks are the first `n` characters of the text, cut without gap or overlap. */
  ghost predicate Covers(text: string, base: nat, cs: seq<RawChunk>, n: nat) {
    n <= |text| && Ordered(cs, base, base + n) && Content(cs) == text[..n]
  }

  lemma CoversMore(text: string, base: nat, cs: seq<RawChunk>, n: nat, m: nat, c: RawChunk)
    requires Covers(text, base, cs, n) && n < m <= |text|
    requires c == RawChunk(text[n..m], base + n, base + m)
    ensures Covers(text, base, cs + [c], m)
    ensures Exact(text, base, c)
  {
    assert Content(cs + [c]) == text[..m] by {
      ContentSnoc(cs, c);
      assert text[..m] == text[..n] + text[n..m];
    }
    OrderedSnoc(cs, c, base, base + n, base + m);
    assert c.start - base == n && c.end - base == m;
  }
}
