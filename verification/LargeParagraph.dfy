module LargeParagraph {
  /**
   `splitLargeParagraph` of the chunker: a paragraph over the limit is split by sentences, or by
   words, or by characters, and all three promise the same of offsets and content.
   */

  import opened GoStrings
  import opened ChunkRuns
  import opened CharacterSplit
  import opened SentenceSplit
  import opened WordSplit

  ghost predicate HasInnerCut(para: string) {
    exists p :: 0 < p < |para| && IsCut(para, p)
  }

  /** Which splitter a large paragraph goes to. */
  ghost function KindOf(para: string, opts: Options): Kind {
    if HasInnerCut(para) then Sentences
    else if IsOneLongWord(para, opts) then Bytes
    else Words
  }

  /** What each splitter promises of its piece `j`. */
  ghost predicate PieceOk(para: string, base: nat, opts: Options, kind: Kind, j: nat, c: RawChunk, g: Span) {
    match kind
    case Sentences => SentencePiece(para, base, opts, j, c)
    case Words => WordPiece(para, base, opts, j, c, g)
    case Bytes => BytePiece(para, base, opts, j, c)
  }

  ghost predicate Pieces(para: string, base: nat, opts: Options, cs: seq<RawChunk>, gs: seq<Span>) {
    && |gs| == |cs|
    && Ordered(cs, base, base + |para|)
    && NonSpace(Content(cs)) == NonSpace(para)
    && forall j :: 0 <= j < |cs| ==> PieceOk(para, base, opts, KindOf(para, opts), j, cs[j], gs[j])
  }

  lemma {:induction false} OneSentence(para: string, sentences: seq<string>)
    requires IsSentences(para, sentences)
    ensures HasInnerCut(para) <==> |sentences| > 1
  {
    if |sentences| > 1 {
      SentenceAt(para, sentences, 0);
      SentenceAt(para, sentences, 1);
      EndsHas(sentences, 1);
      assert IsCut(para, |Join(sentences[..1], "")|);
    } else if |sentences| == 1 {
      assert sentences[..0] == [];
      assert Ends(sentences) == {|para|};
    }
  }

  lemma CoveredPieces(para: string, base: nat, opts: Options, cs: seq<RawChunk>, gs: seq<Span>)
    requires Covers(para, base, cs, |para|) && |gs| == |cs|
    requires || (KindOf(para, opts) == Sentences && SentencePieces(para, base, opts, cs))
             || (KindOf(para, opts) == Bytes && BytePieces(para, base, opts, cs))
    ensures Pieces(para, base, opts, cs, gs)
  {
    assert para[..|para|] == para;
    hide KindOf, SentencePiece, BytePiece, WordPiece;
  }

  lemma WordsArePieces(para: string, base: nat, opts: Options, cs: seq<RawChunk>, gs: seq<Span>)
    requires KindOf(para, opts) == Words && WordsDone(para, base, opts, cs, gs, |Fields(para)|)
    ensures Pieces(para, base, opts, cs, gs)
  {
    assert Fields(para)[..|Fields(para)|] == Fields(para);
    FieldsConserve(para);
    assert WordStart(para, |Fields(para)|) == |para|;
    hide KindOf, SentencePiece, BytePiece, WordPiece, Fields, Spans;
  }

  /** The paragraph is split as it should be, whatever words each piece holds. */
  ghost predicate IsSplit(para: string, base: nat, opts: Options, cs: seq<RawChunk>) {
    exists gs :: Pieces(para, base, opts, cs, gs)
  }

  lemma SplitIs(para: string, base: nat, opts: Options, cs: seq<RawChunk>, gs: seq<Span>)
    requires Pieces(para, base, opts, cs, gs)
    ensures IsSplit(para, base, opts, cs)
  {
  }

  lemma WordSplitIsSplit(para: string, base: nat, opts: Options, cs: seq<RawChunk>)
    requires KindOf(para, opts) == Words && IsWordSplit(para, base, opts, cs)
    ensures IsSplit(para, base, opts, cs)
  {
    hide WordsDone, Pieces, KindOf;
    var gs :| WordsDone(para, base, opts, cs, gs, |Fields(para)|);
    WordsArePieces(para, base, opts, cs, gs);
  }

  method SplitLargeParagraph(para: string, paraStart: nat, opts: Options) returns (chunks: seq<RawChunk>)
    ensures IsSplit(para, paraStart, opts, chunks)
  {
    var sentences := SplitSentences(para);
    OneSentence(para, sentences);
    assert |sentences| > 1 ==> para != "";
    ghost var groups;
    if |sentences| <= 1 {
      chunks := SplitByWords(para, paraStart, opts);
      assert KindOf(para, opts) == if IsOneLongWord(para, opts) then Bytes else Words;
      hide *;
      if IsOneLongWord(para, opts) {
        groups := seq(|chunks|, _ => Span(0, 0));
        CutIsPieces(para, paraStart, opts, chunks, groups);
        SplitIs(para, paraStart, opts, chunks, groups);
      } else {
        WordSplitIsSplit(para, paraStart, opts, chunks);
      }
    } else {
      chunks := GroupSentences(para, paraStart, opts, sentences);
      groups := seq(|chunks|, _ => Span(0, 0));
      CoveredPieces(para, paraStart, opts, chunks, groups);
      hide *;
      SplitIs(para, paraStart, opts, chunks, groups);
    }
  }

  lemma CutIsPieces(para: string, base: nat, opts: Options, cs: seq<RawChunk>, gs: seq<Span>)
    requires CutUpTo(para, base, opts, cs, |para|) && |gs| == |cs| && KindOf(para, opts) == Bytes
    ensures Pieces(para, base, opts, cs, gs)
  {
    hide KindOf, Covers, BytePieces, Pieces;
    CoveredPieces(para, base, opts, cs, gs);
  }
}
