module Chunker {
  /**
   `ChunkContent` of `pkg/chunking/chunker.go`: the raw chunks, and the tail of each put in front
   of the next one.
   */

  import opened Wrappers
  import opened GoStrings
  import opened ChunkRuns
  import opened CharacterSplit
  import opened SentenceSplit
  import opened WordSplit
  import opened LargeParagraph
  import opened ParagraphGroups
  import opened GroupOffsets

  // ---------- which chunks are what stands in their range ----------

  /** A group of a text: where its paragraphs come from decides. */
  lemma GroupOffset(text: string, opts: Options, k: nat, c: RawChunk, f: nat, l: nat)
    requires GroupOk(Split(text, SEP), opts, k, c, f, l)
    ensures Exact(text, 0, c) <==> NoEmptyPara(Split(text, SEP), f, l) || EndsInLoneBreak(Split(text, SEP), f, l)
  {
    hide Exact, NoEmptyPara, EndsInLoneBreak, GroupOk, IsGroup, BreaksComeLast, Join, Split;
    SplitJoin(text, SEP);
    SplitBreaksComeLast(text);
    GroupOkIsGroup(Split(text, SEP), opts, k, c, f, l);
    GroupExact(text, Split(text, SEP), f, l, c);
  }

  lemma PieceLifts(text: string, ps: seq<string>, p: nat, c: RawChunk)
    requires Join(ps, SEP) == text && p < |ps|
    requires PartStart(ps, 2, p) <= c.start <= c.end <= PartStart(ps, 2, p) + |ps[p]|
    ensures Exact(text, 0, c) <==> Exact(ps[p], PartStart(ps, 2, p), c)
  {
    hide PartStart, Join, Exact;
    PartAt(ps, SEP, p);
    Shift(text, ps[p], PartStart(ps, 2, p), c.start, c.end);
    ExactIs(text, 0, c);
    ExactIs(ps[p], PartStart(ps, 2, p), c);
  }

  lemma ExactIs(text: string, base: nat, c: RawChunk)
    requires base <= c.start <= c.end
    ensures Exact(text, base, c) <==>
            (c.end <= base + |text| && text[c.start - base..c.end - base] == c.text)
  {
  }

  lemma Shift(text: string, part: string, a: nat, lo: nat, hi: nat)
    requires a <= lo <= hi <= a + |part|
    requires a + |part| <= |text| && text[a..a + |part|] == part
    ensures text[lo..hi] == part[lo - a..hi - a]
  {
    forall m | 0 <= m < hi - lo ensures text[lo..hi][m] == part[lo - a..hi - a][m] {
      assert part[m + lo - a] == text[a..a + |part|][m + lo - a] == text[m + lo];
    }
  }

  /**
   Exactly when a raw chunk is what stands in its range of the text: always for pieces cut at
   sentences or characters, for a word piece when its words are single spaced there, and for a
   group when it has no empty paragraph inside, or one only before a lone line break at the end.
   */
  lemma OffsetsAreExact(text: string, opts: Options, k: nat, c: RawChunk, o: Origin)
    requires ChunkOk(Split(text, SEP), opts, k, c, o)
    ensures o.Group? ==>
              var ps := Split(text, SEP);
              Exact(text, 0, c) <==> NoEmptyPara(ps, o.first, o.last) || EndsInLoneBreak(ps, o.first, o.last)
    ensures o.Piece? ==>
              var para := Split(text, SEP)[o.para];
              Exact(text, 0, c) <==>
                (KindOf(para, opts) == Words ==> SingleSpaced(para, o.words.lo, o.words.hi))
  {
    hide Exact, SingleSpaced, KindOf, GroupOk, NoEmptyPara, EndsInLoneBreak, Split;
    match o
    case Group(f, l) =>
      GroupOffset(text, opts, k, c, f, l);
    case Piece(p, j, g) =>
      SplitExact(text, opts, k, c, p, j, g);
  }

  lemma SplitExact(text: string, opts: Options, k: nat, c: RawChunk, p: nat, j: nat, g: Span)
    requires SplitOk(Split(text, SEP), opts, k, c, p, j, g)
    ensures var para := Split(text, SEP)[p];
            Exact(text, 0, c) <==> (KindOf(para, opts) == Words ==> SingleSpaced(para, g.lo, g.hi))
  {
    hide Split, SingleSpaced, PieceOk, KindOf, Exact, Join, PartStart;
    var ps := Split(text, SEP);
    PieceExact(ps[p], PartStart(ps, 2, p), opts, KindOf(ps[p], opts), j, c, g);
    SplitJoin(text, SEP);
    PieceLifts(text, ps, p, c);
  }

  lemma PieceExact(para: string, base: nat, opts: Options, kind: Kind, j: nat, c: RawChunk, g: Span)
    requires PieceOk(para, base, opts, kind, j, c, g)
    ensures base <= c.start <= c.end <= base + |para|
    ensures Exact(para, base, c) <==> (kind == Words ==> SingleSpaced(para, g.lo, g.hi))
  {
    hide SingleSpaced, Spans, Fields, SentenceRun, ByteFits, Joined;
    if kind == Words {
      PieceRange(para, base, opts, j, c, g);
      WordPieceExact(para, base, opts, j, c, g);
      WordStartBound(para, g.hi);
    }
  }

  lemma WordStartBound(para: string, n: nat)
    ensures WordStart(para, n) <= |para|
  {
    if n < |Fields(para)| {
      WordAt(para, 0, Spans(para, 0), n);
    }
  }

  // ---------- overlap ----------

  /** The estimated tokens of the sentences from `i` on, each taken by itself. */
  function TokensFrom(sentences: seq<string>, opts: Options, i: nat): int
    requires i <= |sentences|
    decreases |sentences| - i
  {
    if i == |sentences| then 0 else opts.estimate(sentences[i]) + TokensFrom(sentences, opts, i + 1)
  }

  /** One sentence more at the end adds its tokens. */
  lemma {:induction false} TokensAdd(sentences: seq<string>, last: string, opts: Options, i: nat)
    requires i <= |sentences|
    ensures TokensFrom(sentences + [last], opts, i) == TokensFrom(sentences, opts, i) + opts.estimate(last)
    ensures TokensFrom(sentences, opts, |sentences|) == 0
    decreases |sentences| - i
  {
    if i < |sentences| {
      TokensAdd(sentences, last, opts, i + 1);
    }
  }

  /**
   The overlap takes sentences from the end while their sum stays within the limit, and always
   as long as the sum is not positive yet.
   */
  ghost predicate SentenceOverlap(sentences: seq<string>, opts: Options, i: nat, overlap: string) {
    && i < |sentences|
    && overlap == Join(sentences[i..], "")
    && (forall k :: i <= k < |sentences| ==>
                      TokensFrom(sentences, opts, k) <= opts.overlapTokens || TokensFrom(sentences, opts, k + 1) <= 0)
    && (i > 0 ==> TokensFrom(sentences, opts, i - 1) > opts.overlapTokens && TokensFrom(sentences, opts, i) > 0)
  }

  /** As many characters from the end as the longest fitting prefix has. */
  ghost predicate SizedOverlap(text: string, opts: Options, overlap: string) {
    && |overlap| <= |text|
    && overlap == text[|text| - |overlap|..]
    && (text != "" ==> overlap != "")
    && (|overlap| <= 1 || opts.estimate(text[..|overlap|]) <= opts.overlapTokens)
    && (|overlap| < |text| ==> opts.estimate(text[..|overlap| + 1]) > opts.overlapTokens)
  }

  ghost predicate IsOverlap(text: string, opts: Options, overlap: string) {
    if opts.estimate(text) <= opts.overlapTokens then overlap == text
    else exists sentences :: IsSentences(text, sentences) &&
           if |sentences| > 1 then exists i :: SentenceOverlap(sentences, opts, i, overlap)
           else SizedOverlap(text, opts, overlap)
  }

  lemma OverlapIsSuffix(text: string, opts: Options, overlap: string)
    requires IsOverlap(text, opts, overlap)
    ensures |overlap| <= |text| && overlap == text[|text| - |overlap|..]
    ensures text != "" ==> overlap != ""
  {
    if opts.estimate(text) > opts.overlapTokens {
      var sentences :| IsSentences(text, sentences) &&
                       if |sentences| > 1 then exists i :: SentenceOverlap(sentences, opts, i, overlap)
                       else SizedOverlap(text, opts, overlap);
      if |sentences| > 1 {
        var i :| SentenceOverlap(sentences, opts, i, overlap);
        assert sentences[i] != "" && Join(sentences, "") == text;
        hide *;
        assert overlap == Join(sentences[i..], "") by { OverlapOf(sentences, opts, i, overlap); }
        TailOfSentences(sentences, i);
        SuffixOf(text, Join(sentences[..i], ""), overlap);
      }
    }
  }

  lemma OverlapOf(sentences: seq<string>, opts: Options, i: nat, overlap: string)
    requires SentenceOverlap(sentences, opts, i, overlap)
    ensures overlap == Join(sentences[i..], "")
  {
    hide TokensFrom;
  }

  lemma TailOfSentences(sentences: seq<string>, i: nat)
    requires i < |sentences| && sentences[i] != ""
    ensures Join(sentences, "") == Join(sentences[..i], "") + Join(sentences[i..], "")
    ensures Join(sentences[i..], "") != ""
  {
    assert sentences == sentences[..i] + sentences[i..];
    assert sentences[i..] == [sentences[i]] + sentences[i + 1..];
    hide Join;
    ConcatAppend(sentences[..i], sentences[i..]);
    JoinWordFirst(sentences[i], sentences[i + 1..]);
  }

  lemma SuffixOf(text: string, front: string, tail: string)
    requires text == front + tail
    ensures |tail| <= |text| && tail == text[|text| - |tail|..]
  {
  }

  method ExtractOverlap(text: string, opts: Options) returns (overlap: string)
    ensures IsOverlap(text, opts, overlap)
  {
    if opts.estimate(text) <= opts.overlapTokens {
      return text;
    }
    var sentences := SplitSentences(text);
    if |sentences| > 1 {
      var result: seq<string> := [];
      var tokenCount := 0;
      var i := |sentences|;
      hide IsSentences, Join, IsOverlap;
      while i > 0
        invariant 0 <= i <= |sentences|
        invariant result == sentences[i..] && tokenCount == TokensFrom(sentences, opts, i)
        invariant forall k :: i <= k < |sentences| ==>
                    TokensFrom(sentences, opts, k) <= opts.overlapTokens || TokensFrom(sentences, opts, k + 1) <= 0
      {
        var sentence := sentences[i - 1];
        var sentTokens := opts.estimate(sentence);
        if tokenCount + sentTokens > opts.overlapTokens && tokenCount > 0 {
          break;
        }
        result := [sentence] + result;
        tokenCount := tokenCount + sentTokens;
        i := i - 1;
      }
      overlap := Join(result, "");
      assert SentenceOverlap(sentences, opts, i, overlap);
      SentencesGiveOverlap(text, opts, sentences, i, overlap);
      return;
    }
    var size := FindChunkSize(text, opts.overlapTokens, opts.estimate);
    if size >= |text| {
      overlap := text;
    } else {
      overlap := text[|text| - size..];
    }
    assert text[|text| - |overlap|..] == overlap;
    assert SizedOverlap(text, opts, overlap) by {
      assert text[..|text|] == text;
    }
  }

  lemma SentencesGiveOverlap(text: string, opts: Options, sentences: seq<string>, i: nat, overlap: string)
    requires opts.estimate(text) > opts.overlapTokens
    requires IsSentences(text, sentences) && |sentences| > 1
    requires SentenceOverlap(sentences, opts, i, overlap)
    ensures IsOverlap(text, opts, overlap)
  {
    hide IsSentences, SentenceOverlap;
  }

  // ---------- the result ----------

  /** Chunk `i` keeps the range of the raw chunk and has the overlap of the one before in front. */
  ghost predicate Overlapped(raw: seq<RawChunk>, opts: Options, i: nat, chunk: Chunk) {
    && i < |raw|
    && chunk.index == i && chunk.start == raw[i].start && chunk.end == raw[i].end
    && if i == 0 then chunk.text == raw[0].text
       else exists overlap :: IsOverlap(raw[i - 1].text, opts, overlap) && chunk.text == overlap + raw[i].text
  }

  method AddOverlapToChunks(rawChunks: seq<RawChunk>, opts: Options) returns (result: seq<Chunk>)
    ensures |result| == |rawChunks|
    ensures forall i :: 0 <= i < |result| ==> Overlapped(rawChunks, opts, i, result[i])
  {
    result := [];
    for i := 0 to |rawChunks|
      invariant |result| == i
      invariant forall k :: 0 <= k < i ==> Overlapped(rawChunks, opts, k, result[k])
    {
      var rc := rawChunks[i];
      var chunkText := rc.text;
      if i > 0 {
        var overlap := ExtractOverlap(rawChunks[i - 1].text, opts);
        hide IsOverlap;
        chunkText := overlap + chunkText;
      }
      var chunk := Chunk(i, chunkText, rc.start, rc.end);
      assert Overlapped(rawChunks, opts, i, chunk);
      result := result + [chunk];
    }
  }

  /**
   The chunks are those of raw chunks that are ordered and disjoint, hold all characters but white
   space in order, and are each a proper group or piece; from the second on with the overlap.
   */
  ghost predicate IsChunked(text: string, opts: Options, chunks: seq<Chunk>) {
    exists raw :: IsChunkedFrom(text, opts, raw, chunks)
  }

  ghost predicate IsChunkedFrom(text: string, opts: Options, raw: seq<RawChunk>, chunks: seq<Chunk>) {
    && Ordered(raw, 0, |text|)
    && NonSpace(Content(raw)) == NonSpace(text)
    && EachChunkOk(text, opts, raw)
    && |chunks| == |raw|
    && forall i :: 0 <= i < |chunks| ==> Overlapped(raw, opts, i, chunks[i])
  }

  lemma ChunkedIs(text: string, opts: Options, raw: seq<RawChunk>, chunks: seq<Chunk>)
    requires Ordered(raw, 0, |text|) && NonSpace(Content(raw)) == NonSpace(text) && EachChunkOk(text, opts, raw)
    requires |chunks| == |raw| && forall i :: 0 <= i < |chunks| ==> Overlapped(raw, opts, i, chunks[i])
    ensures IsChunked(text, opts, chunks)
  {
    hide Ordered, EachChunkOk, Overlapped, Content, NonSpace;
    assert IsChunkedFrom(text, opts, raw, chunks);
  }

  /** The three outcomes, for a maximum, an overlap and an estimator. */
  ghost predicate IsResult(text: string, maxTokens: int, overlapTokens: int, estimate: string -> int,
                           chunks: seq<Chunk>) {
    if text == "" then chunks == []
    else if estimate(text) <= maxTokens then chunks == [Chunk(0, text, 0, |text|)]
    else IsChunked(text, Options(maxTokens, overlapTokens, estimate), chunks)
  }

  /** The options of the caller decide: each one that is missing has its own default. */
  ghost predicate IsResultFor(text: string, o: ChunkOptions, chunks: seq<Chunk>) {
    exists maxTokens: int, overlapTokens: int, estimate: string -> int ::
      && (if o.maxTokens > 0 then maxTokens == o.maxTokens else maxTokens == 400)
      && (if o.overlapTokens > 0 then overlapTokens == o.overlapTokens else overlapTokens == 50)
      && (if o.tokenEstimator.Some? then estimate == o.tokenEstimator.value
          else forall s: string :: estimate(s) == |s| / 4)
      && IsResult(text, maxTokens, overlapTokens, estimate, chunks)
  }

  lemma DefaultsGive(text: string, o: ChunkOptions, chunks: seq<Chunk>)
    requires var opts := WithDefaults(o); IsResult(text, opts.maxTokens, opts.overlapTokens, opts.estimate, chunks)
    ensures IsResultFor(text, o, chunks)
  {
    DefaultsAre(o);
    hide WithDefaults, IsResult;
  }

  method ChunkContent(text: string, o: ChunkOptions) returns (chunks: seq<Chunk>)
    ensures IsResultFor(text, o, chunks)
    ensures o.maxTokens > 0 && o.overlapTokens > 0 && o.tokenEstimator.Some? ==>
      IsResult(text, o.maxTokens, o.overlapTokens, o.tokenEstimator.value, chunks)
  {
    var opts := WithDefaults(o);
    DefaultsAre(o);
    if text == "" {
      chunks := [];
    } else if opts.estimate(text) <= opts.maxTokens {
      chunks := [Chunk(0, text, 0, |text|)];
    } else {
      chunks := Chunked(text, opts);
    }
    hide IsChunked, WithDefaults;
    DefaultsGive(text, o, chunks);
  }

  /** A text over the maximum. */
  method Chunked(text: string, opts: Options) returns (chunks: seq<Chunk>)
    requires opts.overlapTokens > 0
    ensures IsChunked(text, opts, chunks)
  {
    hide *;
    var rawChunks := BuildChunksWithoutOverlap(text, opts);
    chunks := AddOverlapToChunks(rawChunks, opts);
    ChunkedIs(text, opts, rawChunks, chunks);
  }

  /** The ranges of the chunks are non-empty, in bounds, increasing and disjoint, and indices count up. */
  lemma {:induction false} ChunkRangesAreOrdered(text: string, opts: Options, chunks: seq<Chunk>)
    requires IsChunked(text, opts, chunks)
    ensures forall i :: 0 <= i < |chunks| ==> chunks[i].index == i && 0 <= chunks[i].start < chunks[i].end <= |text|
    ensures forall i, j :: 0 <= i < j < |chunks| ==> chunks[i].end <= chunks[j].start
  {
    hide EachChunkOk, NonSpace, Content, IsOverlap;
    var raw :| IsChunkedFrom(text, opts, raw, chunks);
    assert forall i :: 0 <= i < |chunks| ==> Overlapped(raw, opts, i, chunks[i]);
  }
}
