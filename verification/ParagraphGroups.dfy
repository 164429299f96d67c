/**
 `buildChunksWithoutOverlap` of the chunker: paragraphs are grouped while they fit, a paragraph
 over its limit is split, and empty paragraphs only move the offset.
 */
module ParagraphGroups {
  import opened GoStrings
  import opened ChunkRuns
  import opened WordSplit
  import opened LargeParagraph

  const SEP := "\n\n"

  // ---------- paragraphs in the text ----------

  /** Where the first `i` paragraphs end. */
  function EndOf(ps: seq<string>, i: nat): nat
    requires i <= |ps|
  {
    if i == 0 then 0 else PartStart(ps, 2, i - 1) + |ps[i - 1]|
  }

  lemma EndOfText(ps: seq<string>)
    requires ps != []
    ensures EndOf(ps, |ps|) == |Join(ps, SEP)|
  {
    JoinPrefix(ps, SEP, |ps|);
    assert ps[..|ps|] == ps;
  }

  function NonEmpty(ps: seq<string>): seq<string> {
    if ps == [] then []
    else NonEmpty(ps[..|ps| - 1]) + (if ps[|ps| - 1] == "" then [] else [ps[|ps| - 1]])
  }

  lemma NonEmptySnoc(ps: seq<string>, last: string)
    ensures NonEmpty(ps + [last]) == NonEmpty(ps) + (if last == "" then [] else [last])
  {
    assert (ps + [last])[..|ps|] == ps;
  }

  lemma {:induction false} NonEmptyIsAll(ps: seq<string>)
    requires "" !in ps
    ensures NonEmpty(ps) == ps
  {
    if ps != [] {
      NonEmptyIsAll(ps[..|ps| - 1]);
    }
  }

  lemma {:induction false} NonEmptyConserves(ps: seq<string>)
    ensures Join(NonEmpty(ps), "") == Join(ps, "")
  {
    if ps != [] {
      var front, last := ps[..|ps| - 1], ps[|ps| - 1];
      assert ps == front + [last];
      NonEmptyConserves(front);
      ConcatSnoc(front, last);
      NonEmptySnoc(front, last);
      if last == "" {
        assert NonEmpty(front) + [] == NonEmpty(front);
      } else {
        ConcatSnoc(NonEmpty(front), last);
      }
    }
  }

  /** The text of the group of paragraphs `[f, i)`. */
  function GroupText(ps: seq<string>, f: nat, i: nat): string
    requires f <= i <= |ps|
  {
    Join(NonEmpty(ps[f..i]), SEP)
  }

  /** The first paragraph at or after `i` that is not empty. */
  function NextPara(ps: seq<string>, i: nat): (q: nat)
    ensures i <= |ps| ==> i <= q <= |ps|
    ensures q < |ps| ==> ps[q] != ""
    decreases |ps| - i
  {
    if i < |ps| && ps[i] == "" then NextPara(ps, i + 1) else i
  }

  /** A group is no longer than the stretch of text it comes from. */
  lemma {:induction false} GroupLength(ps: seq<string>, f: nat, i: nat)
    requires f < i <= |ps| && ps[f] != ""
    ensures NonEmpty(ps[f..i]) != []
    ensures 0 < |GroupText(ps, f, i)| && PartStart(ps, 2, f) + |GroupText(ps, f, i)| <= EndOf(ps, i)
    decreases i
  {
    var last := ps[i - 1];
    assert ps[f..i] == ps[f..i - 1] + [last];
    NonEmptySnoc(ps[f..i - 1], last);
    if f == i - 1 {
      assert NonEmpty(ps[f..i]) == [last] by {
        assert ps[f..f] == [];
      }
    } else {
      GroupLength(ps, f, i - 1);
      hide NonEmpty;
      if last == "" {
        assert NonEmpty(ps[f..i]) == NonEmpty(ps[f..i - 1]);
      } else {
        JoinSnoc(NonEmpty(ps[f..i - 1]), last, SEP);
      }
    }
  }

  /** Joined paragraphs stand in the text where the first of them does. */
  lemma JoinAt(ps: seq<string>, f: nat, e: nat)
    requires f < e <= |ps|
    ensures var text, a, run := Join(ps, SEP), PartStart(ps, 2, f), Join(ps[f..e], SEP);
            a + |run| <= |text| && text[a..a + |run|] == run
  {
    var text, a, run := Join(ps, SEP), PartStart(ps, 2, f), Join(ps[f..e], SEP);
    JoinPrefix(ps, SEP, e);
    if f == 0 {
      assert ps[0..e] == ps[..e];
    } else {
      JoinPrefix(ps, SEP, f);
      assert ps[..e] == ps[..f] + ps[f..e];
      JoinAppend(ps[..f], ps[f..e], SEP);
      InPrefix(text, Join(ps[..e], SEP), Join(ps[..f], SEP) + SEP, run);
    }
  }

  lemma InPrefix(text: string, head: string, front: string, run: string)
    requires head <= text && head == front + run
    ensures |front| + |run| <= |text| && text[|front|..|front| + |run|] == run
  {
    assert head[|front|..] == run;
  }

  // ---------- what is promised of every chunk ----------

  /** Where a raw chunk comes from: paragraphs `first` to `last`, or a piece of one paragraph. */
  datatype Origin = Group(first: nat, last: nat) | Piece(para: nat, index: nat, words: Span)

  /**
   Chunk `k` is a group: it has the non-empty paragraphs of its range, it fits, and it ends
   only because the next paragraph has to be split or would not fit.
   */
  ghost predicate GroupOk(ps: seq<string>, opts: Options, k: nat, c: RawChunk, f: nat, l: nat) {
    && f <= l < |ps| && ps[f] != "" && ps[l] != ""
    && c == RawChunk(GroupText(ps, f, l + 1), PartStart(ps, 2, f), PartStart(ps, 2, f) + |GroupText(ps, f, l + 1)|)
    && opts.estimate(c.text) <= Limit(opts, k)
    && var q := NextPara(ps, l + 1);
       q < |ps| && opts.estimate(ps[q]) <= opts.maxTokens - opts.overlapTokens ==>
         opts.estimate(c.text + SEP + ps[q]) > Limit(opts, k)
  }

  /** Chunk `k` is a piece of a paragraph that was over the limit. */
  ghost predicate SplitOk(ps: seq<string>, opts: Options, k: nat, c: RawChunk, p: nat, j: nat, g: Span) {
    && p < |ps|
    && opts.estimate(ps[p]) > Limit(opts, k)
    && PieceOk(ps[p], PartStart(ps, 2, p), opts, KindOf(ps[p], opts), j, c, g)
  }

  ghost predicate ChunkOk(ps: seq<string>, opts: Options, k: nat, c: RawChunk, o: Origin) {
    match o
    case Group(f, l) => GroupOk(ps, opts, k, c, f, l)
    case Piece(p, j, g) => SplitOk(ps, opts, k, c, p, j, g)
  }

  ghost predicate ChunksOk(ps: seq<string>, opts: Options, cs: seq<RawChunk>, os: seq<Origin>) {
    |os| == |cs| && forall k :: 0 <= k < |cs| ==> ChunkOk(ps, opts, k, cs[k], os[k])
  }

  /** The first `i` paragraphs are in the chunks. */
  ghost predicate Done(ps: seq<string>, opts: Options, cs: seq<RawChunk>, os: seq<Origin>, i: nat) {
    && i <= |ps|
    && ChunksOk(ps, opts, cs, os)
    && Ordered(cs, 0, EndOf(ps, i))
    && NonSpace(Content(cs)) == NonSpace(Join(ps[..i], ""))
  }

  lemma JoinSlice(ps: seq<string>, f: nat, i: nat)
    requires f <= i <= |ps|
    ensures NonSpace(Join(ps[..i], "")) == NonSpace(Join(ps[..f], "")) + NonSpace(Join(ps[f..i], ""))
  {
    assert ps[..i] == ps[..f] + ps[f..i];
    ConcatAppend(ps[..f], ps[f..i]);
    NonSpaceAppend(Join(ps[..f], ""), Join(ps[f..i], ""));
  }

  lemma ChunksOkSnoc(ps: seq<string>, opts: Options, cs: seq<RawChunk>, os: seq<Origin>, c: RawChunk, o: Origin)
    requires ChunksOk(ps, opts, cs, os) && ChunkOk(ps, opts, |cs|, c, o)
    ensures ChunksOk(ps, opts, cs + [c], os + [o])
  {
    hide ChunkOk;
  }

  lemma EndOfGrows(ps: seq<string>, f: nat, i: nat)
    requires f < i <= |ps|
    ensures EndOf(ps, f) <= PartStart(ps, 2, f) <= EndOf(ps, i)
  {
    hide *;
    EndOfIs(ps, f);
    EndOfIs(ps, i);
    PartStartAdds(ps, 2, f, i);
  }

  lemma EndOfIs(ps: seq<string>, i: nat)
    requires i <= |ps|
    ensures if i == 0 then EndOf(ps, i) == PartStart(ps, 2, i) == 0 else EndOf(ps, i) + 2 == PartStart(ps, 2, i)
  {
  }

  // ---------- steps ----------

  lemma SkipEmpty(ps: seq<string>, opts: Options, cs: seq<RawChunk>, os: seq<Origin>, i: nat)
    requires Done(ps, opts, cs, os, i) && i < |ps| && ps[i] == ""
    ensures Done(ps, opts, cs, os, i + 1)
  {
    hide ChunksOk;
    JoinSlice(ps, i, i + 1);
    assert ps[i..i + 1] == [""];
    EndOfGrows(ps, i, i + 1);
  }

  ghost function PieceOrigins(p: nat, gs: seq<Span>): seq<Origin> {
    seq(|gs|, j requires 0 <= j < |gs| => Piece(p, j, gs[j]))
  }

  lemma PiecesOk(ps: seq<string>, opts: Options, cs: seq<RawChunk>, os: seq<Origin>, p: nat,
                 pcs: seq<RawChunk>, gs: seq<Span>)
    requires ChunksOk(ps, opts, cs, os) && p < |ps| && opts.overlapTokens >= 0
    requires Pieces(ps[p], PartStart(ps, 2, p), opts, pcs, gs)
    requires opts.estimate(ps[p]) > Limit(opts, |cs|)
    ensures ChunksOk(ps, opts, cs + pcs, os + PieceOrigins(p, gs))
  {
    hide PieceOk, KindOf, PartStart, Content, NonSpace, Ordered, GroupOk;
    var all, origins := cs + pcs, os + PieceOrigins(p, gs);
    forall k | 0 <= k < |all| ensures ChunkOk(ps, opts, k, all[k], origins[k]) {
      if k < |cs| {
        assert ChunkOk(ps, opts, k, cs[k], os[k]);
      } else {
        var j := k - |cs|;
        assert all[k] == pcs[j] && origins[k] == Piece(p, j, gs[j]);
        assert PieceOk(ps[p], PartStart(ps, 2, p), opts, KindOf(ps[p], opts), j, pcs[j], gs[j]);
        assert SplitOk(ps, opts, k, pcs[j], p, j, gs[j]);
      }
    }
  }

  lemma AddPieces(ps: seq<string>, opts: Options, cs: seq<RawChunk>, os: seq<Origin>, i: nat,
                  pcs: seq<RawChunk>, gs: seq<Span>)
    requires Done(ps, opts, cs, os, i) && i < |ps| && opts.overlapTokens >= 0
    requires Pieces(ps[i], PartStart(ps, 2, i), opts, pcs, gs)
    requires opts.estimate(ps[i]) > Limit(opts, |cs|)
    ensures Done(ps, opts, cs + pcs, os + PieceOrigins(i, gs), i + 1)
  {
    PiecesOk(ps, opts, cs, os, i, pcs, gs);
    hide ChunksOk, ChunkOk, PieceOk, KindOf;
    JoinSlice(ps, i, i + 1);
    assert Join(ps[i..i + 1], "") == ps[i] by {
      assert ps[i..i + 1] == [ps[i]];
    }
    ContentAppend(cs, pcs);
    NonSpaceAppend(Content(cs), Content(pcs));
    EndOfGrows(ps, i, i + 1);
    assert Ordered(cs, 0, PartStart(ps, 2, i));
    OrderedAppend(cs, pcs, 0, PartStart(ps, 2, i), EndOf(ps, i + 1));
  }

  /** Paragraphs before `f` are in chunks, those from `f` to `l` are the open group, those up to `i` are empty. */
  ghost predicate OpenGroup(ps: seq<string>, opts: Options, cs: seq<RawChunk>, os: seq<Origin>,
                            f: nat, l: nat, i: nat, parts: seq<string>) {
    && Done(ps, opts, cs, os, f)
    && f <= l < i <= |ps| && ps[f] != "" && ps[l] != ""
    && NextPara(ps, l + 1) >= i
    && parts == NonEmpty(ps[f..l + 1])
    && opts.estimate(Join(parts, SEP)) <= Limit(opts, |cs|)
  }

  lemma {:induction false} NextParaIs(ps: seq<string>, i: nat, q: nat)
    requires i <= q < |ps| && NextPara(ps, i) >= q && ps[q] != ""
    ensures NextPara(ps, i) == q
    decreases q - i
  {
    if i < q {
      NextParaIs(ps, i + 1, q);
    }
  }

  lemma {:induction false} NextParaPast(ps: seq<string>, i: nat, q: nat)
    requires i <= q < |ps| && NextPara(ps, i) >= q && ps[q] == ""
    ensures NextPara(ps, i) >= q + 1
    decreases q - i
  {
    if i < q {
      NextParaPast(ps, i + 1, q);
    }
  }

  lemma OpenSkip(ps: seq<string>, opts: Options, cs: seq<RawChunk>, os: seq<Origin>,
                 f: nat, l: nat, i: nat, parts: seq<string>)
    requires OpenGroup(ps, opts, cs, os, f, l, i, parts) && i < |ps| && ps[i] == ""
    ensures OpenGroup(ps, opts, cs, os, f, l, i + 1, parts)
  {
    hide Done, NonEmpty, Join, Limit;
    NextParaPast(ps, l + 1, i);
  }

  lemma OpenStart(ps: seq<string>, opts: Options, cs: seq<RawChunk>, os: seq<Origin>, i: nat, para: string)
    requires Done(ps, opts, cs, os, i) && i < |ps| && ps[i] == para != ""
    requires opts.estimate(para) <= Limit(opts, |cs|)
    ensures OpenGroup(ps, opts, cs, os, i, i, i + 1, [para])
  {
    hide Done;
    assert ps[i..i + 1] == [] + [para];
    NonEmptySnoc([], para);
    assert NonEmpty(ps[i..i + 1]) == [para];
  }

  lemma {:induction false} SkippedAreEmpty(ps: seq<string>, f: nat, l: nat, i: nat)
    requires f <= l < i <= |ps| && NextPara(ps, l + 1) >= i
    ensures NonEmpty(ps[f..i]) == NonEmpty(ps[f..l + 1])
    decreases i
  {
    if l + 1 < i {
      assert ps[f..i] == ps[f..i - 1] + [ps[i - 1]];
      NonEmptySnoc(ps[f..i - 1], ps[i - 1]);
      if ps[i - 1] != "" && NextPara(ps, l + 1) >= i - 1 {
        NextParaIs(ps, l + 1, i - 1);
      }
      SkippedAreEmpty(ps, f, l, i - 1);
    }
  }

  lemma OpenExtend(ps: seq<string>, opts: Options, cs: seq<RawChunk>, os: seq<Origin>,
                   f: nat, l: nat, i: nat, parts: seq<string>, para: string)
    requires OpenGroup(ps, opts, cs, os, f, l, i, parts) && i < |ps| && ps[i] == para != ""
    requires opts.estimate(Join(parts + [para], SEP)) <= Limit(opts, |cs|)
    ensures OpenGroup(ps, opts, cs, os, f, i, i + 1, parts + [para])
  {
    hide Done, Join, Limit;
    SkippedAreEmpty(ps, f, l, i);
    assert ps[f..i + 1] == ps[f..i] + [para];
    NonEmptySnoc(ps[f..i], para);
  }

  lemma GroupIsOk(ps: seq<string>, opts: Options, cs: seq<RawChunk>, os: seq<Origin>,
                  f: nat, l: nat, i: nat, parts: seq<string>, c: RawChunk)
    requires OpenGroup(ps, opts, cs, os, f, l, i, parts)
    requires c == RawChunk(Join(parts, SEP), PartStart(ps, 2, f), PartStart(ps, 2, f) + |Join(parts, SEP)|)
    requires i < |ps| ==> ps[i] != ""
    requires i < |ps| && opts.estimate(ps[i]) <= opts.maxTokens - opts.overlapTokens ==>
               opts.estimate(Join(parts + [ps[i]], SEP)) > Limit(opts, |cs|)
    ensures GroupOk(ps, opts, |cs|, c, f, l)
  {
    hide Done, Limit, NonEmpty, PartStart;
    if i < |ps| {
      NextParaIs(ps, l + 1, i);
      GroupLength(ps, f, l + 1);
      JoinSnoc(parts, ps[i], SEP);
    }
    hide Join;
  }

  lemma CloseGroup(ps: seq<string>, opts: Options, cs: seq<RawChunk>, os: seq<Origin>,
                   f: nat, l: nat, i: nat, parts: seq<string>, c: RawChunk)
    requires OpenGroup(ps, opts, cs, os, f, l, i, parts)
    requires c == RawChunk(Join(parts, SEP), PartStart(ps, 2, f), PartStart(ps, 2, f) + |Join(parts, SEP)|)
    requires GroupOk(ps, opts, |cs|, c, f, l)
    ensures Done(ps, opts, cs + [c], os + [Group(f, l)], i)
  {
    assert ChunkOk(ps, opts, |cs|, c, Group(f, l));
    ChunksOkSnoc(ps, opts, cs, os, c, Group(f, l));
    hide ChunksOk, ChunkOk, GroupOk, Limit;
    SkippedAreEmpty(ps, f, l, i);
    GroupLength(ps, f, i);
    EndOfGrows(ps, f, i);
    assert c.text == GroupText(ps, f, i);
    OrderedSnoc(cs, c, 0, EndOf(ps, f), EndOf(ps, i));
    assert NonSpace(Content(cs + [c])) == NonSpace(Join(ps[..i], "")) by {
      hide Ordered, PartStart, EndOf;
      ContentSnoc(cs, c);
      NonSpaceAppend(Content(cs), c.text);
      NonSpaceJoin(parts, SEP);
      NonEmptyConserves(ps[f..i]);
      JoinSlice(ps, f, i);
    }
  }

  // ---------- the loop ----------

  /** Before paragraph `i`: everything is in chunks, or in chunks and an open group. */
  ghost predicate Stands(ps: seq<string>, opts: Options, cs: seq<RawChunk>, os: seq<Origin>,
                         f: nat, l: nat, i: nat, parts: seq<string>, start: nat) {
    if parts == [] then Done(ps, opts, cs, os, i)
    else OpenGroup(ps, opts, cs, os, f, l, i, parts) && f <= |ps| && start == PartStart(ps, 2, f)
  }

  lemma StandsMeans(ps: seq<string>, opts: Options, cs: seq<RawChunk>, os: seq<Origin>,
                    f: nat, l: nat, i: nat, parts: seq<string>, start: nat)
    requires Stands(ps, opts, cs, os, f, l, i, parts, start)
    ensures parts == [] ==> Done(ps, opts, cs, os, i)
    ensures parts != [] ==> OpenGroup(ps, opts, cs, os, f, l, i, parts) && f <= |ps| && start == PartStart(ps, 2, f)
  {
    hide Done, OpenGroup;
  }

  lemma StandsDone(ps: seq<string>, opts: Options, cs: seq<RawChunk>, os: seq<Origin>,
                   f: nat, l: nat, i: nat, start: nat)
    requires Done(ps, opts, cs, os, i)
    ensures Stands(ps, opts, cs, os, f, l, i, [], start)
  {
    hide Done;
  }

  lemma StandsOpen(ps: seq<string>, opts: Options, cs: seq<RawChunk>, os: seq<Origin>,
                   f: nat, l: nat, i: nat, parts: seq<string>, start: nat)
    requires OpenGroup(ps, opts, cs, os, f, l, i, parts) && parts != []
    requires f <= |ps| && start == PartStart(ps, 2, f)
    ensures Stands(ps, opts, cs, os, f, l, i, parts, start)
  {
    hide OpenGroup;
  }

  lemma StandsSkip(ps: seq<string>, opts: Options, cs: seq<RawChunk>, os: seq<Origin>,
                   f: nat, l: nat, i: nat, parts: seq<string>, start: nat)
    requires Stands(ps, opts, cs, os, f, l, i, parts, start) && i < |ps| && ps[i] == ""
    ensures Stands(ps, opts, cs, os, f, l, i + 1, parts, start)
  {
    hide Done, OpenGroup;
    if parts == [] {
      SkipEmpty(ps, opts, cs, os, i);
    } else {
      OpenSkip(ps, opts, cs, os, f, l, i, parts);
    }
  }

  /** Finish the open group. */
  method FinalizeGroup(ghost ps: seq<string>, opts: Options, ghost cs: seq<RawChunk>, ghost os: seq<Origin>,
                       ghost f: nat, ghost l: nat, ghost i: nat, currentParts: seq<string>, currentStart: nat)
    returns (c: RawChunk)
    requires OpenGroup(ps, opts, cs, os, f, l, i, currentParts)
    requires f <= |ps| && currentStart == PartStart(ps, 2, f)
    requires i < |ps| ==> ps[i] != ""
    requires i < |ps| && opts.estimate(ps[i]) <= opts.maxTokens - opts.overlapTokens ==>
               opts.estimate(Join(currentParts + [ps[i]], SEP)) > Limit(opts, |cs|)
    ensures Done(ps, opts, cs + [c], os + [Group(f, l)], i)
  {
    hide *;
    var content := Join(currentParts, SEP);
    c := RawChunk(content, currentStart, currentStart + |content|);
    FinishGroup(ps, opts, cs, os, f, l, i, currentParts, c);
  }

  lemma GroupsOf(para: string, base: nat, opts: Options, cs: seq<RawChunk>) returns (gs: seq<Span>)
    requires IsSplit(para, base, opts, cs)
    ensures Pieces(para, base, opts, cs, gs)
  {
    hide Pieces;
    gs :| Pieces(para, base, opts, cs, gs);
  }

  /** Every chunk is a proper group of paragraphs or a piece of one. */
  ghost predicate EachChunkOk(text: string, opts: Options, cs: seq<RawChunk>) {
    exists os :: ChunksOk(Split(text, SEP), opts, cs, os)
  }

  /** Append the pieces of a paragraph over the limit. */
  method AppendPieces(ghost ps: seq<string>, opts: Options, cs: seq<RawChunk>, ghost os: seq<Origin>,
                      ghost i: nat, para: string, offset: nat)
    returns (chunks: seq<RawChunk>, ghost origins: seq<Origin>)
    requires Done(ps, opts, cs, os, i) && i < |ps| && opts.overlapTokens >= 0
    requires para == ps[i] && offset == PartStart(ps, 2, i)
    requires opts.estimate(para) > Limit(opts, |cs|)
    ensures Done(ps, opts, chunks, origins, i + 1)
  {
    hide *;
    var paraChunks := SplitLargeParagraph(para, offset, opts);
    ghost var groups := GroupsOf(para, offset, opts, paraChunks);
    AddPieces(ps, opts, cs, os, i, paraChunks, groups);
    chunks := cs + paraChunks;
    origins := os + PieceOrigins(i, groups);
  }

  /** A paragraph over the limit: the open group is finished, then the pieces follow. */
  method AddLargeParagraph(ghost ps: seq<string>, opts: Options, cs: seq<RawChunk>, ghost os: seq<Origin>,
                           ghost f: nat, ghost l: nat, ghost i: nat, currentParts: seq<string>, currentStart: nat,
                           para: string, offset: nat, limit: int)
    returns (chunks: seq<RawChunk>, ghost origins: seq<Origin>)
    requires opts.overlapTokens > 0
    requires i < |ps| && para == ps[i] != "" && offset == PartStart(ps, 2, i)
    requires Stands(ps, opts, cs, os, f, l, i, currentParts, currentStart)
    requires limit == if |cs| > 0 || |currentParts| > 0 then opts.maxTokens - opts.overlapTokens else opts.maxTokens
    requires opts.estimate(para) > limit
    ensures Done(ps, opts, chunks, origins, i + 1)
  {
    StandsMeans(ps, opts, cs, os, f, l, i, currentParts, currentStart);
    hide *;
    chunks, origins := cs, os;
    if |currentParts| > 0 {
      var c := FinalizeGroup(ps, opts, chunks, origins, f, l, i, currentParts, currentStart);
      chunks := chunks + [c];
      origins := origins + [Group(f, l)];
    }
    LimitIs(opts, |chunks|);
    chunks, origins := AppendPieces(ps, opts, chunks, origins, i, para, offset);
  }

  /** The paragraph does not fit: the open group is finished and a new one begins with it. */
  method StartNewGroup(ghost ps: seq<string>, opts: Options, cs: seq<RawChunk>, ghost os: seq<Origin>,
                       ghost f: nat, ghost l: nat, ghost i: nat, currentParts: seq<string>, currentStart: nat,
                       para: string)
    returns (chunks: seq<RawChunk>, ghost origins: seq<Origin>)
    requires i < |ps| && para == ps[i] != "" && OpenGroup(ps, opts, cs, os, f, l, i, currentParts)
    requires f <= |ps| && currentStart == PartStart(ps, 2, f)
    requires opts.estimate(para) <= opts.maxTokens - opts.overlapTokens
    requires opts.estimate(Join(currentParts + [para], SEP)) > Limit(opts, |cs|)
    ensures OpenGroup(ps, opts, chunks, origins, i, i, i + 1, [para])
  {
    hide *;
    var c := FinalizeGroup(ps, opts, cs, os, f, l, i, currentParts, currentStart);
    chunks := cs + [c];
    origins := os + [Group(f, l)];
    LimitIs(opts, |chunks|);
    OpenStart(ps, opts, chunks, origins, i, para);
  }

  lemma NothingDone(ps: seq<string>, opts: Options)
    ensures Done(ps, opts, [], [], 0) && PartStart(ps, 2, 0) == 0
  {
  }

  /** A paragraph that fits by itself goes into the open group, or begins a new one. */
  method AddFitting(ghost ps: seq<string>, opts: Options, cs: seq<RawChunk>, ghost os: seq<Origin>,
                    ghost f: nat, ghost l: nat, ghost i: nat, parts: seq<string>, start: nat,
                    para: string, offset: nat)
    returns (chunks: seq<RawChunk>, ghost origins: seq<Origin>, ghost first: nat, ghost last: nat,
             currentParts: seq<string>, currentStart: nat)
    requires opts.overlapTokens > 0
    requires i < |ps| && para == ps[i] != "" && offset == PartStart(ps, 2, i)
    requires Stands(ps, opts, cs, os, f, l, i, parts, start)
    requires opts.estimate(para) <=
             if |cs| > 0 || |parts| > 0 then opts.maxTokens - opts.overlapTokens else opts.maxTokens
    ensures currentParts != [] && Stands(ps, opts, chunks, origins, first, last, i + 1, currentParts, currentStart)
  {
    StandsMeans(ps, opts, cs, os, f, l, i, parts, start);
    hide *;
    chunks, origins, currentParts, currentStart := cs, os, parts, start;
    LimitIs(opts, |chunks|);
    if |currentParts| == 0 {
      OpenStart(ps, opts, chunks, origins, i, para);
      currentParts := [para];
      currentStart := offset;
      first, last := i, i;
    } else {
      var combinedTokens := opts.estimate(Join(currentParts + [para], SEP));
      var groupLimit := opts.maxTokens;
      if |chunks| > 0 {
        groupLimit := opts.maxTokens - opts.overlapTokens;
      }
      if combinedTokens <= groupLimit {
        OpenExtend(ps, opts, chunks, origins, f, l, i, currentParts, para);
        currentParts := currentParts + [para];
        first, last := f, i;
      } else {
        chunks, origins := StartNewGroup(ps, opts, chunks, origins, f, l, i, currentParts, currentStart, para);
        currentParts := [para];
        currentStart := offset;
        first, last := i, i;
      }
    }
    StandsOpen(ps, opts, chunks, origins, first, last, i + 1, currentParts, currentStart);
  }

  /** A paragraph that is not empty: over its limit it is split, otherwise it is grouped. */
  method AddParagraph(ghost ps: seq<string>, opts: Options, cs: seq<RawChunk>, ghost os: seq<Origin>,
                      ghost f: nat, ghost l: nat, ghost i: nat, parts: seq<string>, start: nat,
                      para: string, offset: nat)
    returns (chunks: seq<RawChunk>, ghost origins: seq<Origin>, ghost first: nat, ghost last: nat,
             currentParts: seq<string>, currentStart: nat)
    requires opts.overlapTokens > 0
    requires i < |ps| && para == ps[i] != "" && offset == PartStart(ps, 2, i)
    requires Stands(ps, opts, cs, os, f, l, i, parts, start)
    ensures Stands(ps, opts, chunks, origins, first, last, i + 1, currentParts, currentStart)
  {
    hide *;
    var targetMaxTokens := opts.maxTokens - opts.overlapTokens;
    var paraTokens := opts.estimate(para);
    var limit := opts.maxTokens;
    if |cs| > 0 || |parts| > 0 {
      limit := targetMaxTokens;
    }
    if paraTokens > limit {
      chunks, origins := AddLargeParagraph(ps, opts, cs, os, f, l, i, parts, start, para, offset, limit);
      first, last, currentParts, currentStart := f, l, [], offset + (|para| + 2);
      StandsDone(ps, opts, chunks, origins, f, l, i + 1, currentStart);
      return;
    }
    chunks, origins, first, last, currentParts, currentStart :=
      AddFitting(ps, opts, cs, os, f, l, i, parts, start, para, offset);
  }

  method BuildChunksWithoutOverlap(text: string, opts: Options)
    returns (chunks: seq<RawChunk>)
    requires opts.overlapTokens > 0
    ensures Ordered(chunks, 0, |text|)
    ensures NonSpace(Content(chunks)) == NonSpace(text)
    ensures EachChunkOk(text, opts, chunks)
  {
    var paragraphs := Split(text, SEP);
    hide *;
    ghost var origins;
    chunks, origins := GroupParagraphs(paragraphs, opts);
    AllDone(text, opts, chunks, origins);
  }

  /** The loop over the paragraphs. */
  method GroupParagraphs(paragraphs: seq<string>, opts: Options)
    returns (chunks: seq<RawChunk>, ghost origins: seq<Origin>)
    requires opts.overlapTokens > 0
    ensures Done(paragraphs, opts, chunks, origins, |paragraphs|)
  {
    hide *;
    chunks, origins := [], [];
    var currentParts: seq<string> := [];
    var currentStart: nat := 0;
    var offset: nat := 0;
    ghost var f: nat, l: nat := 0, 0;
    NothingDone(paragraphs, opts);
    StandsDone(paragraphs, opts, chunks, origins, f, l, 0, currentStart);
    for i := 0 to |paragraphs|
      invariant offset == PartStart(paragraphs, 2, i)
      invariant Stands(paragraphs, opts, chunks, origins, f, l, i, currentParts, currentStart)
    {
      var para := paragraphs[i];
      NextStart(paragraphs, i);
      if para == "" {
        StandsSkip(paragraphs, opts, chunks, origins, f, l, i, currentParts, currentStart);
        offset := offset + 2;
        continue;
      }

      chunks, origins, f, l, currentParts, currentStart :=
        AddParagraph(paragraphs, opts, chunks, origins, f, l, i, currentParts, currentStart, para, offset);
      offset := offset + (|para| + 2);
    }

    StandsMeans(paragraphs, opts, chunks, origins, f, l, |paragraphs|, currentParts, currentStart);
    if |currentParts| > 0 {
      var c := FinalizeGroup(paragraphs, opts, chunks, origins, f, l, |paragraphs|, currentParts, currentStart);
      chunks := chunks + [c];
      origins := origins + [Group(f, l)];
    }
  }

  lemma NextStart(ps: seq<string>, i: nat)
    requires i < |ps|
    ensures PartStart(ps, 2, i + 1) == PartStart(ps, 2, i) + (|ps[i]| + 2)
  {
  }

  lemma LimitIs(opts: Options, k: nat)
    ensures Limit(opts, k) == if k > 0 then opts.maxTokens - opts.overlapTokens else opts.maxTokens
  {
  }

  lemma FinishGroup(ps: seq<string>, opts: Options, cs: seq<RawChunk>, os: seq<Origin>,
                    f: nat, l: nat, i: nat, parts: seq<string>, c: RawChunk)
    requires OpenGroup(ps, opts, cs, os, f, l, i, parts)
    requires f <= |ps|
    requires c == RawChunk(Join(parts, SEP), PartStart(ps, 2, f), PartStart(ps, 2, f) + |Join(parts, SEP)|)
    requires i < |ps| ==> ps[i] != ""
    requires i < |ps| && opts.estimate(ps[i]) <= opts.maxTokens - opts.overlapTokens ==>
               opts.estimate(Join(parts + [ps[i]], SEP)) > Limit(opts, |cs|)
    ensures Done(ps, opts, cs + [c], os + [Group(f, l)], i)
  {
    hide Done, GroupOk, Join, PartStart, Limit;
    GroupIsOk(ps, opts, cs, os, f, l, i, parts, c);
    CloseGroup(ps, opts, cs, os, f, l, i, parts, c);
  }

  lemma AllDone(text: string, opts: Options, cs: seq<RawChunk>, os: seq<Origin>)
    requires var ps := Split(text, SEP); Done(ps, opts, cs, os, |ps|)
    ensures Ordered(cs, 0, |text|)
    ensures NonSpace(Content(cs)) == NonSpace(text)
    ensures EachChunkOk(text, opts, cs)
  {
    assert SEP != "" && AllSpace(SEP);
    hide *;
    SplitJoin(text, SEP);
    AllInChunks(Split(text, SEP), opts, cs, os);
    NonSpaceJoin(Split(text, SEP), SEP);
    ChunksAre(text, opts, cs, os);
  }

  lemma AllInChunks(ps: seq<string>, opts: Options, cs: seq<RawChunk>, os: seq<Origin>)
    requires Done(ps, opts, cs, os, |ps|) && ps != []
    ensures Ordered(cs, 0, |Join(ps, SEP)|)
    ensures NonSpace(Content(cs)) == NonSpace(Join(ps, ""))
    ensures ChunksOk(ps, opts, cs, os)
  {
    hide ChunksOk, NonSpace, Content, Join, EndOf;
    EndOfText(ps);
    assert ps[..|ps|] == ps;
  }

  lemma ChunksAre(text: string, opts: Options, cs: seq<RawChunk>, os: seq<Origin>)
    requires ChunksOk(Split(text, SEP), opts, cs, os)
    ensures EachChunkOk(text, opts, cs)
  {
    hide ChunksOk, Split;
  }
}
