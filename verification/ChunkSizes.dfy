module ChunkSizes {
  /**
   How many tokens the texts handed out have: an estimator that looks at the length only bounds the
   overlap, and a long sentence makes a chunk over the maximum.
   */

  import opened GoStrings
  import opened Wrappers
  import opened ChunkRuns
  import opened SentenceSplit
  import opened LargeParagraph
  import opened ParagraphGroups
  import opened Chunker

  // ---------- the overlap ----------

  /** Texts of one length have one number of tokens. */
  ghost predicate ByLength(estimate: string -> int) {
    forall s, t | |s| == |t| :: estimate(s) == estimate(t)
  }

  lemma DefaultIsByLength(o: ChunkOptions)
    requires o.tokenEstimator == None
    ensures ByLength(WithDefaults(o).estimate)
  {
  }

  /** The suffix taken is as long as the prefix measured, so it has as many tokens. */
  lemma SizedOverlapFits(text: string, opts: Options, overlap: string)
    requires ByLength(opts.estimate) && SizedOverlap(text, opts, overlap)
    ensures |overlap| <= 1 || opts.estimate(overlap) <= opts.overlapTokens
    ensures |overlap| < |text| ==>
      opts.estimate(text[|text| - |overlap| - 1..]) > opts.overlapTokens
  {
    assert |text[..|overlap|]| == |overlap|;
    if |overlap| < |text| {
      assert |text[..|overlap| + 1]| == |text[|text| - |overlap| - 1..]|;
    }
  }

  /** The overlap of a raw chunk without a sentence end inside fits, or is one character. */
  lemma OverlapFits(text: string, opts: Options, overlap: string)
    requires ByLength(opts.estimate) && !HasInnerCut(text) && IsOverlap(text, opts, overlap)
    ensures |overlap| <= 1 || opts.estimate(overlap) <= opts.overlapTokens
  {
    hide ByLength, HasInnerCut, SentenceOverlap, SizedOverlap, IsSentences;
    if opts.estimate(text) > opts.overlapTokens {
      var sentences :| IsSentences(text, sentences) &&
                       if |sentences| > 1 then exists i :: SentenceOverlap(sentences, opts, i, overlap)
                       else SizedOverlap(text, opts, overlap);
      OneSentence(text, sentences);
      SizedOverlapFits(text, opts, overlap);
    }
  }

  // ---------- a long sentence ----------

  /** A short sentence and one of `n` letters. */
  function TwoSentences(n: nat): (r: string)
    ensures |r| == n + 4 && r[..4] == "Hi. " && forall i :: 4 <= i < |r| ==> r[i] == 'x'
  {
    "Hi. " + seq(n, _ => 'x')
  }

  lemma OneParagraph(n: nat)
    ensures Split(TwoSentences(n), SEP) == [TwoSentences(n)]
  {
    var text := TwoSentences(n);
    forall i | 0 <= i < |text| ensures text[i] != '\n' {
      assert i < 4 ==> text[i] == text[..4][i];
    }
    forall k: nat ensures !OccursAt(text, SEP, k) {
      assert k + 2 <= |text| ==> text[k..k + 2][0] == text[k];
    }
  }

  /** The only place inside where a sentence stops. */
  lemma CutAtFour(n: nat, p: int)
    requires 0 < p < n + 4
    ensures IsCut(TwoSentences(n), p) <==> p == 4
  {
    var text := TwoSentences(n);
    assert text[0] == text[..4][0] && text[1] == text[..4][1] && text[2] == text[..4][2] && text[3] == text[..4][3];
  }

  lemma {:induction false} ContentHas(cs: seq<RawChunk>, c: char)
    requires c in Content(cs)
    ensures exists i :: 0 <= i < |cs| && c in cs[i].text
  {
    var n := |cs| - 1;
    if c !in cs[n].text {
      ContentHas(cs[..n], c);
      var i :| 0 <= i < n && c in cs[..n][i].text;
      assert c in cs[i].text;
    }
  }

  lemma {:induction false} NonSpaceHas(s: string, c: char)
    requires !IsSpace(c)
    ensures c in NonSpace(s) <==> c in s
  {
    if s != "" {
      var n := |s| - 1;
      NonSpaceHas(s[..n], c);
      assert s == s[..n] + [s[n]];
    }
  }

  /** A raw chunk with a letter of the long sentence has all of it. */
  lemma HoldsLongSentence(n: nat, opts: Options, k: nat, c: RawChunk, o: Origin)
    requires n > 0 && ChunkOk([TwoSentences(n)], opts, k, c, o) && 'x' in c.text
    ensures |c.text| >= n
  {
    var text := TwoSentences(n);
    match o
    case Group(f, l) =>
      assert [text][0..1] == [text];
      NonEmptyIsAll([text]);
    case Piece(p, j, g) =>
      CutAtFour(n, 4);
      assert HasInnerCut(text);
      PieceHolds(n, opts, j, c);
  }

  lemma PieceHolds(n: nat, opts: Options, j: nat, c: RawChunk)
    requires n > 0 && SentencePiece(TwoSentences(n), 0, opts, j, c) && 'x' in c.text
    ensures |c.text| >= n
  {
    var text := TwoSentences(n);
    forall q | 0 <= q < 4 ensures text[q] != 'x' {
      assert text[q] == text[..4][q];
    }
    var i :| 0 <= i < |c.text| && c.text[i] == 'x';
    assert text[c.start + i] == 'x';
    if c.start > 0 {
      CutAtFour(n, c.start);
    }
    if c.end < |text| {
      CutAtFour(n, c.end);
    }
  }

  /** With all defaults: a sentence of 1604 characters or more makes a chunk over 400 tokens. */
  lemma ChunkMayExceed(n: nat, chunks: seq<Chunk>)
    requires n >= 1604 && IsChunked(TwoSentences(n), WithDefaults(ChunkOptions(0, 0, None)), chunks)
    ensures var opts := WithDefaults(ChunkOptions(0, 0, None));
      opts.maxTokens == 400 && exists i :: 0 <= i < |chunks| && opts.estimate(chunks[i].text) > 400
  {
    var opts := WithDefaults(ChunkOptions(0, 0, None));
    var text := TwoSentences(n);
    var raw: seq<RawChunk> :| IsChunkedFrom(text, opts, raw, chunks);
    assert text[4] == 'x';
    NonSpaceHas(text, 'x');
    NonSpaceHas(Content(raw), 'x');
    ContentHas(raw, 'x');
    var i :| 0 <= i < |raw| && 'x' in raw[i].text;
    OneParagraph(n);
    var os :| ChunksOk([text], opts, raw, os);
    HoldsLongSentence(n, opts, i, raw[i], os[i]);
    assert Overlapped(raw, opts, i, chunks[i]);
    assert |chunks[i].text| >= n;
  }
}
