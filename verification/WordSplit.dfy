module WordSplit {
  /**
   The word splitter of the chunker: it looks every word up again in the paragraph, groups the
   words greedily and puts one space between them.
   */

  import opened GoStrings
  import opened ChunkRuns
  import opened CharacterSplit

  // ---------- words in their paragraph ----------

  /** The words `[lo, hi)` of the paragraph with single spaces between them. */
  function Joined(para: string, lo: nat, hi: nat): string
    requires lo <= hi <= |Fields(para)|
  {
    Join(Fields(para)[lo..hi], " ")
  }

  predicate OneSpaceAfter(para: string, m: nat) {
    var sp := Spans(para, 0);
    m + 1 < |sp| && sp[m].hi < |para| && para[sp[m].hi] == ' ' && sp[m + 1].lo == sp[m].hi + 1
  }

  /** In the paragraph the words `[lo, hi)` have exactly one space character between them. */
  ghost predicate SingleSpaced(para: string, lo: nat, hi: nat) {
    forall m :: lo <= m < hi - 1 ==> OneSpaceAfter(para, m)
  }

  lemma OccursFirst(s: string, sub: string, m: nat)
    requires OccursAt(s, sub, m) && sub != ""
    ensures s[m] == sub[0]
  {
    assert s[m] == s[m..m + |sub|][0];
  }

  lemma SpaceWithin(s: string, lo: nat, i: nat, hi: nat)
    requires lo <= i < hi <= |s| && AllSpace(s[lo..hi])
    ensures IsSpace(s[i])
  {
    assert s[i] == s[lo..hi][i - lo];
  }

  lemma FoundAfterSpace(s: string, gap: string, word: string, tail: string)
    requires s == gap + (word + tail) && AllSpace(gap) && NoSpace(word) && word != ""
    ensures Index(s, word) == |gap|
  {
    forall m: nat | m < |gap| ensures !OccursAt(s, word, m) {
      assert s[m] == gap[m];
      if OccursAt(s, word, m) {
        OccursFirst(s, word, m);
      }
    }
    assert s[|gap|..|gap| + |word|] == word;
    IndexIs(s, word, |gap|);
  }

  lemma FoundAt(s: string, gap: nat, lo: nat, hi: nat)
    requires gap <= lo < hi <= |s| && AllSpace(s[gap..lo]) && NoSpace(s[lo..hi])
    ensures Index(s[gap..], s[lo..hi]) == lo - gap
  {
    assert s[gap..] == s[gap..lo] + (s[lo..hi] + s[hi..]);
    FoundAfterSpace(s[gap..], s[gap..lo], s[lo..hi], s[hi..]);
  }

  /**
   Looking a word up in the rest of the paragraph finds the word itself: in front of it there
   is only white space, and no word begins with that.
   */
  lemma WordFound(para: string, k: nat)
    requires k < |Fields(para)|
    ensures var sp := Spans(para, 0);
            && GapStart(0, sp, k) <= sp[k].lo <= |para|
            && Index(para[GapStart(0, sp, k)..], Fields(para)[k]) == sp[k].lo - GapStart(0, sp, k)
            && sp[k].lo + |Fields(para)[k]| == sp[k].hi == GapStart(0, sp, k + 1) <= |para|
  {
    hide Spans, AreWords;
    var sp := Spans(para, 0);
    WordAt(para, 0, sp, k);
    FoundAt(para, GapStart(0, sp, k), sp[k].lo, sp[k].hi);
  }

  lemma JoinedSnoc(para: string, lo: nat, hi: nat)
    requires lo < hi < |Fields(para)|
    ensures Joined(para, lo, hi + 1) == Joined(para, lo, hi) + " " + Fields(para)[hi]
  {
    hide Spans, AreWords;
    var ws := Fields(para);
    assert ws[lo..hi + 1] == ws[lo..hi] + [ws[hi]];
    JoinSnoc(ws[lo..hi], ws[hi], " ");
  }

  /** The joined words are no longer than the stretch of paragraph they come from. */
  lemma {:induction false} JoinedLength(para: string, lo: nat, hi: nat)
    requires lo < hi <= |Fields(para)|
    ensures var sp := Spans(para, 0);
            0 < |Joined(para, lo, hi)| <= sp[hi - 1].hi - sp[lo].lo && sp[hi - 1].hi <= |para|
    decreases hi
  {
    hide Spans, AreWords;
    var sp, ws := Spans(para, 0), Fields(para);
    WordAt(para, 0, sp, hi - 1);
    if hi == lo + 1 {
      assert ws[lo..hi] == [ws[lo]];
    } else {
      JoinedLength(para, lo, hi - 1);
      JoinedSnoc(para, lo, hi - 1);
    }
  }

  /** With single spaces in the paragraph the joined words are that stretch of it. */
  lemma {:induction false} SingleSpacedIsExact(para: string, lo: nat, hi: nat)
    requires lo < hi <= |Fields(para)| && SingleSpaced(para, lo, hi)
    ensures var sp := Spans(para, 0);
            sp[lo].lo <= sp[hi - 1].hi <= |para| && Joined(para, lo, hi) == para[sp[lo].lo..sp[hi - 1].hi]
    decreases hi
  {
    hide Spans, AreWords;
    var sp, ws := Spans(para, 0), Fields(para);
    WordAt(para, 0, sp, hi - 1);
    if hi == lo + 1 {
      assert ws[lo..hi] == [ws[lo]];
    } else {
      SingleSpacedIsExact(para, lo, hi - 1);
      JoinedSnoc(para, lo, hi - 1);
      assert OneSpaceAfter(para, hi - 2);
      OneMoreWord(para, sp[lo].lo, sp[hi - 2].hi, sp[hi - 1].hi, ws[hi - 1]);
    }
  }

  lemma OneMoreWord(para: string, a: nat, b: nat, c: nat, word: string)
    requires a <= b < c <= |para| && para[b] == ' ' && word == para[b + 1..c]
    ensures para[a..c] == para[a..b] + " " + word
  {
  }

  lemma SingleSpacedSnoc(para: string, lo: nat, hi: nat)
    requires lo + 1 < hi && SingleSpaced(para, lo, hi - 1) && OneSpaceAfter(para, hi - 2)
    ensures SingleSpaced(para, lo, hi)
  {
    hide OneSpaceAfter;
  }

  /** And only then: joined words that stand in the paragraph as they are were single spaced. */
  lemma {:induction false} ExactIsSingleSpaced(para: string, lo: nat, hi: nat, a: nat, rest: string)
    requires lo < hi <= |Fields(para)|
    requires a == Spans(para, 0)[lo].lo <= |para|
    requires para[a..] == Joined(para, lo, hi) + rest
    ensures SingleSpaced(para, lo, hi)
    decreases hi
  {
    if hi > lo + 1 {
      ExactFront(para, lo, hi, a, rest);
      ExactIsSingleSpaced(para, lo, hi - 1, a, " " + Fields(para)[hi - 1] + rest);
      ExactLast(para, lo, hi, a, rest);
      SingleSpacedSnoc(para, lo, hi);
    }
  }

  lemma ExactFront(para: string, lo: nat, hi: nat, a: nat, rest: string)
    requires lo + 1 < hi <= |Fields(para)| && a <= |para|
    requires para[a..] == Joined(para, lo, hi) + rest
    ensures para[a..] == Joined(para, lo, hi - 1) + (" " + Fields(para)[hi - 1] + rest)
  {
    hide Spans, AreWords;
    JoinedSnoc(para, lo, hi - 1);
    Tail(para[a..], Joined(para, lo, hi - 1), Fields(para)[hi - 1], rest);
  }

  lemma ExactLast(para: string, lo: nat, hi: nat, a: nat, rest: string)
    requires lo + 1 < hi <= |Fields(para)| && a == Spans(para, 0)[lo].lo <= |para|
    requires SingleSpaced(para, lo, hi - 1)
    requires para[a..] == Joined(para, lo, hi - 1) + (" " + Fields(para)[hi - 1] + rest)
    ensures OneSpaceAfter(para, hi - 2)
  {
    hide Spans, AreWords;
    SingleSpacedIsExact(para, lo, hi - 1);
    hide OneSpaceAfter, SingleSpaced;
    NextWordFollows(para, lo, hi - 2, a, Joined(para, lo, hi - 1), Fields(para)[hi - 1], rest);
  }

  lemma Tail(s: string, front: string, word: string, rest: string)
    requires s == front + " " + word + rest
    ensures s == front + (" " + word + rest)
  {
  }

  lemma NextWordFollows(para: string, lo: nat, k: nat, a: nat, front: string, word: string, rest: string)
    requires lo <= k < k + 1 < |Fields(para)| && word == Fields(para)[k + 1]
    requires a <= Spans(para, 0)[k].hi <= |para|
    requires front == para[a..Spans(para, 0)[k].hi]
    requires para[a..] == front + (" " + word + rest)
    ensures OneSpaceAfter(para, k)
  {
    hide Spans, AreWords;
    var sp := Spans(para, 0);
    var b, next := sp[k].hi, sp[k + 1].lo;
    WordAt(para, 0, sp, k + 1);
    assert GapStart(0, sp, k + 1) == b;
    var s := front + (" " + word + rest);
    assert para[b] == para[a..][b - a] == s[|front|] == ' ';
    assert para[b + 1] == para[a..][b + 1 - a] == s[|front| + 1] == word[0];
    if next > b + 1 {
      SpaceWithin(para, b, b + 1, next);
    }
  }

  // ---------- word pieces ----------

  /** A piece that is not the last takes one space from behind its last word, if it finds one there. */
  predicate TakesSpace(para: string, base: nat, start: nat, joined: string, hi: nat) {
    && hi < |Fields(para)|
    && base <= start
    && start + |joined| < |para|
    && para[start + |joined| - base] == ' '
  }

  /**
   Piece `k` of a word split holds the words `g`: it starts where its first word does, it is one
   word or within its limit, and the next word would take it over the limit.
   */
  ghost predicate WordPiece(para: string, base: nat, opts: Options, k: nat, c: RawChunk, g: Span) {
    && g.lo < g.hi <= |Fields(para)|
    && c.start == base + Spans(para, 0)[g.lo].lo
    && c.end == c.start + |c.text|
    && (var joined := Joined(para, g.lo, g.hi);
        && c.text == (if TakesSpace(para, base, c.start, joined, g.hi) then joined + " " else joined)
        && (g.hi == g.lo + 1 || opts.estimate(joined) <= Limit(opts, k)))
    && (g.hi < |Fields(para)| ==> opts.estimate(Joined(para, g.lo, g.hi + 1)) > Limit(opts, k))
  }

  /**
   The text of a piece: its words with one space between, and one more behind them exactly when a word
   follows and the text has a space there.  The place is compared with the length of the paragraph as it
   stands in the text, so that far into a text no space is taken.
   */
  lemma PieceText(para: string, base: nat, opts: Options, k: nat, c: RawChunk, g: Span)
    requires WordPiece(para, base, opts, k, c, g)
    ensures var words := Join(Fields(para)[g.lo..g.hi], " ");
      if g.hi < |Fields(para)| && c.start + |words| < |para| && para[c.start + |words| - base] == ' '
      then c.text == words + " " else c.text == words
  {
    hide Spans, Fields;
  }

  ghost predicate WordPieces(para: string, base: nat, opts: Options, cs: seq<RawChunk>, gs: seq<Span>) {
    |gs| == |cs| && forall k :: 0 <= k < |cs| ==> WordPiece(para, base, opts, k, cs[k], gs[k])
  }

  lemma WordPiecesSnoc(para: string, base: nat, opts: Options, cs: seq<RawChunk>, gs: seq<Span>, c: RawChunk, g: Span)
    requires WordPieces(para, base, opts, cs, gs) && WordPiece(para, base, opts, |cs|, c, g)
    ensures WordPieces(para, base, opts, cs + [c], gs + [g])
  {
    hide WordPiece;
  }

  /** The groups take up the first `n` words, one group after another. */
  ghost predicate Consecutive(gs: seq<Span>, n: nat) {
    if gs == [] then n == 0
    else gs[|gs| - 1].hi == n && Consecutive(gs[..|gs| - 1], gs[|gs| - 1].lo)
  }

  function WordStart(para: string, n: nat): nat {
    if n < |Fields(para)| then Spans(para, 0)[n].lo else |para|
  }

  lemma {:induction false} PieceRange(para: string, base: nat, opts: Options, k: nat, c: RawChunk, g: Span)
    requires WordPiece(para, base, opts, k, c, g)
    ensures g.lo < g.hi <= |Fields(para)|
    ensures c.start == base + WordStart(para, g.lo)
    ensures c.start < c.end <= base + WordStart(para, g.hi)
  {
    hide Spans, AreWords;
    var sp := Spans(para, 0);
    JoinedLength(para, g.lo, g.hi);
    if g.hi < |sp| {
      WordAt(para, 0, sp, g.hi);
    }
  }

  lemma {:induction false} JoinOfWords(ws: seq<string>)
    requires forall k :: 0 <= k < |ws| ==> NoSpace(ws[k])
    ensures NonSpace(Join(ws, "")) == Join(ws, "")
  {
    if |ws| > 0 {
      var front, last := ws[..|ws| - 1], ws[|ws| - 1];
      assert ws == front + [last];
      ConcatSnoc(front, last);
      JoinOfWords(front);
      NonSpaceAppend(Join(front, ""), last);
      NonSpaceOfWord(last);
    }
  }

  ghost predicate AllWords(ws: seq<string>) {
    forall k :: 0 <= k < |ws| ==> NoSpace(ws[k])
  }

  lemma {:induction false} SpacedWords(ws: seq<string>)
    requires AllWords(ws)
    ensures NonSpace(Join(ws, " ")) == NonSpace(Join(ws, " ") + " ") == Join(ws, "")
  {
    JoinOfWords(ws);
    hide NonSpace, Join, NoSpace;
    NonSpaceJoin(ws, " ");
    NonSpaceAppend(Join(ws, " "), " ");
    NonSpaceOfSpace(" ");
    assert NonSpace(Join(ws, " ")) + "" == NonSpace(Join(ws, " "));
  }

  lemma {:induction false} PieceContent(para: string, base: nat, opts: Options, k: nat, c: RawChunk, g: Span)
    requires WordPiece(para, base, opts, k, c, g)
    ensures NonSpace(c.text) == Join(Fields(para)[g.lo..g.hi], "")
  {
    hide NoSpace, Spans, Fields, NonSpace, Join;
    var ws := Fields(para)[g.lo..g.hi];
    forall k | 0 <= k < |ws| ensures NoSpace(ws[k]) {
      FieldIsWord(para, g.lo + k);
    }
    SpacedWords(ws);
  }

  /** The first `n` words of the paragraph are in the chunks. */
  ghost predicate WordsDone(para: string, base: nat, opts: Options, cs: seq<RawChunk>, gs: seq<Span>, n: nat) {
    && WordPieces(para, base, opts, cs, gs)
    && Consecutive(gs, n) && n <= |Fields(para)|
    && Ordered(cs, base, base + WordStart(para, n))
    && NonSpace(Content(cs)) == Join(Fields(para)[..n], "")
  }

  lemma {:induction false} ConcatAppend(a: seq<string>, b: seq<string>)
    ensures Join(a + b, "") == Join(a, "") + Join(b, "")
  {
    if b == [] {
      assert a + b == a;
    } else {
      var front, last := b[..|b| - 1], b[|b| - 1];
      assert a + b == (a + front) + [last] && b == front + [last];
      ConcatSnoc(a + front, last);
      ConcatSnoc(front, last);
      ConcatAppend(a, front);
      Assoc(Join(a, ""), Join(front, ""), last);
    }
  }

  lemma ContentStep(cs: seq<RawChunk>, c: RawChunk, ws: seq<string>, n: nat, m: nat)
    requires n <= m <= |ws|
    requires NonSpace(Content(cs)) == Join(ws[..n], "")
    requires NonSpace(c.text) == Join(ws[n..m], "")
    ensures NonSpace(Content(cs + [c])) == Join(ws[..m], "")
  {
    hide *;
    ContentSnoc(cs, c);
    NonSpaceAppend(Content(cs), c.text);
    assert ws[..m] == ws[..n] + ws[n..m];
    ConcatAppend(ws[..n], ws[n..m]);
  }

  lemma ConsecutiveSnoc(gs: seq<Span>, g: Span)
    requires Consecutive(gs, g.lo)
    ensures Consecutive(gs + [g], g.hi)
  {
    assert (gs + [g])[..|gs|] == gs;
  }

  lemma WordsMore(para: string, base: nat, opts: Options, cs: seq<RawChunk>, gs: seq<Span>, n: nat,
                  c: RawChunk, g: Span)
    requires WordsDone(para, base, opts, cs, gs, n)
    requires g.lo == n && WordPiece(para, base, opts, |cs|, c, g)
    ensures WordsDone(para, base, opts, cs + [c], gs + [g], g.hi)
  {
    hide Spans, AreWords, WordPiece, WordPieces, WordStart, Ordered, Content, Fields, Join, NonSpace, Consecutive;
    ConsecutiveSnoc(gs, g);
    PieceRange(para, base, opts, |cs|, c, g);
    PieceContent(para, base, opts, |cs|, c, g);
    ContentStep(cs, c, Fields(para), n, g.hi);
    WordPiecesSnoc(para, base, opts, cs, gs, c, g);
    OrderedSnoc(cs, c, base, c.start, base + WordStart(para, g.hi));
  }

  lemma ExactIfSingle(para: string, a: nat, b: nat, joined: string, text: string)
    requires a <= b <= |para| && joined == para[a..b]
    requires text == joined || (text == joined + " " && b < |para| && para[b] == ' ')
    ensures a + |text| <= |para| && para[a..a + |text|] == text
  {
  }

  lemma RestAfter(para: string, a: nat, joined: string, text: string)
    requires a + |text| <= |para| && para[a..a + |text|] == text && joined <= text
    ensures para[a..] == joined + para[a + |joined|..]
  {
    assert para[a..a + |joined|] == text[..|joined|];
  }

  /** A word piece is what stands in its range exactly when its words are single spaced there. */
  lemma WordPieceExact(para: string, base: nat, opts: Options, k: nat, c: RawChunk, g: Span)
    requires WordPiece(para, base, opts, k, c, g)
    ensures Exact(para, base, c) <==> SingleSpaced(para, g.lo, g.hi)
  {
    hide Spans, AreWords, Fields, Joined, SingleSpaced;
    JoinedLength(para, g.lo, g.hi);
    if SingleSpaced(para, g.lo, g.hi) {
      WordPieceIsExact(para, base, opts, k, c, g);
    }
    if Exact(para, base, c) {
      var a, joined := Spans(para, 0)[g.lo].lo, Joined(para, g.lo, g.hi);
      ExactRange(para, base, a, c);
      RestAfter(para, a, joined, c.text);
      ExactIsSingleSpaced(para, g.lo, g.hi, a, para[a + |joined|..]);
    }
  }

  lemma ExactRange(para: string, base: nat, a: nat, c: RawChunk)
    requires c.start == base + a && c.end == base + a + |c.text|
    ensures Exact(para, base, c) <==> a + |c.text| <= |para| && para[a..a + |c.text|] == c.text
  {
    assert c.start - base == a && c.end - base == a + |c.text|;
  }

  lemma WordPieceIsExact(para: string, base: nat, opts: Options, k: nat, c: RawChunk, g: Span)
    requires WordPiece(para, base, opts, k, c, g) && SingleSpaced(para, g.lo, g.hi)
    ensures Exact(para, base, c)
  {
    hide Spans, AreWords, Fields, Joined, SingleSpaced;
    SingleSpacedIsExact(para, g.lo, g.hi);
    var a, b := Spans(para, 0)[g.lo].lo, Spans(para, 0)[g.hi - 1].hi;
    var joined := Joined(para, g.lo, g.hi);
    assert c.start + |joined| == base + b;
    ExactIfSingle(para, a, b, joined, c.text);
    ExactRange(para, base, a, c);
  }

  // ---------- the splitter ----------

  ghost predicate Located(para: string, base: nat, positions: seq<nat>) {
    && |positions| <= |Fields(para)|
    && forall k :: 0 <= k < |positions| ==> positions[k] == base + Spans(para, 0)[k].lo
  }

  lemma LocatedSnoc(para: string, base: nat, positions: seq<nat>, p: nat)
    requires Located(para, base, positions) && |positions| < |Fields(para)|
    requires p == base + Spans(para, 0)[|positions|].lo
    ensures Located(para, base, positions + [p])
  {
    hide Fields, Spans;
  }

  /** Look every word up again, each from the end of the one before. */
  method LocateWords(para: string, paraStart: nat, words: seq<string>) returns (positions: seq<nat>)
    requires words == Fields(para)
    ensures |positions| == |words| && Located(para, paraStart, positions)
  {
    var wordPositions := new nat[|words|];
    var pos := 0;
    for i := 0 to |words|
      invariant pos == GapStart(0, Spans(para, 0), i) <= |para|
      invariant Located(para, paraStart, wordPositions[..i])
    {
      hide *;
      WordFound(para, i);
      var word := words[i];
      var idx := Index(para[pos..], word);
      LocatedSnoc(para, paraStart, wordPositions[..i], paraStart + pos + idx);
      wordPositions[i] := paraStart + pos + idx;
      pos := pos + (idx + |word|);
      assert wordPositions[..i + 1] == wordPositions[..i] + [wordPositions[i]];
    }
    positions := wordPositions[..];
  }

  /** Words up to `i` are read, those up to `f` are in chunks, and `current` is what lies between. */
  ghost predicate OpenWords(para: string, base: nat, opts: Options, cs: seq<RawChunk>, gs: seq<Span>,
                            f: nat, i: nat, current: seq<string>) {
    && WordsDone(para, base, opts, cs, gs, f)
    && f < i <= |Fields(para)|
    && current == Fields(para)[f..i]
    && (i == f + 1 || opts.estimate(Join(current, " ")) <= Limit(opts, |cs|))
  }

  lemma StartWords(para: string, base: nat, opts: Options, cs: seq<RawChunk>, gs: seq<Span>, f: nat, word: string)
    requires WordsDone(para, base, opts, cs, gs, f) && f < |Fields(para)| && word == Fields(para)[f]
    ensures OpenWords(para, base, opts, cs, gs, f, f + 1, [word])
  {
    hide WordsDone, Fields;
  }

  lemma ExtendWords(para: string, base: nat, opts: Options, cs: seq<RawChunk>, gs: seq<Span>,
                    f: nat, i: nat, current: seq<string>, word: string)
    requires OpenWords(para, base, opts, cs, gs, f, i, current)
    requires i < |Fields(para)| && word == Fields(para)[i]
    requires opts.estimate(Join(current + [word], " ")) <= Limit(opts, |cs|)
    ensures OpenWords(para, base, opts, cs, gs, f, i + 1, current + [word])
  {
    hide WordsDone, Fields, Join;
  }

  lemma CloseWords(para: string, base: nat, opts: Options, cs: seq<RawChunk>, gs: seq<Span>,
                   f: nat, i: nat, current: seq<string>, c: RawChunk)
    requires OpenWords(para, base, opts, cs, gs, f, i, current)
    requires i < |Fields(para)| ==> opts.estimate(Join(current + [Fields(para)[i]], " ")) > Limit(opts, |cs|)
    requires c.start == base + Spans(para, 0)[f].lo && c.end == c.start + |c.text|
    requires c.text == if TakesSpace(para, base, c.start, Join(current, " "), i)
                       then Join(current, " ") + " " else Join(current, " ")
    ensures WordsDone(para, base, opts, cs + [c], gs + [Span(f, i)], i)
  {
    hide WordsDone, Join, Spans, TakesSpace, Fields;
    assert i < |Fields(para)| ==> Fields(para)[f..i + 1] == current + [Fields(para)[i]];
    assert WordPiece(para, base, opts, |cs|, c, Span(f, i));
    WordsMore(para, base, opts, cs, gs, f, c, Span(f, i));
  }

  /** Finish the current group before word `i`. */
  method FinishWords(para: string, paraStart: nat, opts: Options, words: seq<string>, wordPositions: seq<nat>,
                     i: nat, currentWords: seq<string>,
                     ghost chunks: seq<RawChunk>, ghost groups: seq<Span>, ghost f: nat)
    returns (c: RawChunk)
    requires words == Fields(para) && |wordPositions| == |words| && Located(para, paraStart, wordPositions)
    requires OpenWords(para, paraStart, opts, chunks, groups, f, i, currentWords)
    requires i < |words| ==> opts.estimate(Join(currentWords + [words[i]], " ")) > Limit(opts, |chunks|)
    ensures WordsDone(para, paraStart, opts, chunks + [c], groups + [Span(f, i)], i)
  {
    hide Fields, Spans, Slices, WordsDone, Join;
    var content := Join(currentWords, " ");
    var startPos := wordPositions[i - |currentWords|];
    var endPos := startPos + |content|;
    if i < |words| && endPos < |para| && para[endPos - paraStart] == ' ' {
      content := content + " ";
      endPos := endPos + 1;
    }
    c := RawChunk(content, startPos, endPos);
    CloseWords(para, paraStart, opts, chunks, groups, f, i, currentWords, c);
  }

  /** All words of the paragraph are in the chunks, in order, as the greedy grouping puts them. */
  ghost predicate IsWordSplit(para: string, base: nat, opts: Options, cs: seq<RawChunk>) {
    exists gs :: WordsDone(para, base, opts, cs, gs, |Fields(para)|)
  }

  lemma WordSplitIs(para: string, base: nat, opts: Options, cs: seq<RawChunk>, gs: seq<Span>)
    requires WordsDone(para, base, opts, cs, gs, |Fields(para)|)
    ensures IsWordSplit(para, base, opts, cs)
  {
  }

  lemma NoWordsDone(para: string, base: nat, opts: Options)
    ensures WordsDone(para, base, opts, [], [], 0)
  {
  }

  method GroupWords(para: string, paraStart: nat, opts: Options, words: seq<string>, wordPositions: seq<nat>)
    returns (chunks: seq<RawChunk>)
    requires words == Fields(para) && |wordPositions| == |words| && Located(para, paraStart, wordPositions)
    ensures IsWordSplit(para, paraStart, opts, chunks)
  {
    hide *;
    chunks := [];
    ghost var groups: seq<Span> := [];
    var currentWords: seq<string> := [];
    ghost var f: nat := 0;
    NoWordsDone(para, paraStart, opts);
    for i := 0 to |words|
      invariant currentWords == [] <==> i == 0
      invariant i == 0 ==> f == 0 && WordsDone(para, paraStart, opts, chunks, groups, 0)
      invariant i > 0 ==> OpenWords(para, paraStart, opts, chunks, groups, f, i, currentWords)
    {
      var word := words[i];
      if |currentWords| == 0 {
        StartWords(para, paraStart, opts, chunks, groups, i, word);
        currentWords := [word];
      } else {
        var combined := Join(currentWords + [word], " ");
        if opts.estimate(combined) <= Limit(opts, |chunks|) {
          ExtendWords(para, paraStart, opts, chunks, groups, f, i, currentWords, word);
          currentWords := currentWords + [word];
        } else {
          var c := FinishWords(para, paraStart, opts, words, wordPositions, i, currentWords, chunks, groups, f);
          chunks := chunks + [c];
          groups := groups + [Span(f, i)];
          f := i;
          StartWords(para, paraStart, opts, chunks, groups, i, word);
          currentWords := [word];
        }
      }
    }
    if |currentWords| > 0 {
      var c := FinishWords(para, paraStart, opts, words, wordPositions, |words|, currentWords, chunks, groups, f);
      chunks := chunks + [c];
      groups := groups + [Span(f, |words|)];
    }
    WordSplitIs(para, paraStart, opts, chunks, groups);
  }

  /** How a large paragraph was split. */
  datatype Kind = Sentences | Words | Bytes

  /** A paragraph of one word over the maximum has to be split inside it. */
  predicate IsOneLongWord(para: string, opts: Options) {
    |Fields(para)| == 1 && opts.estimate(Fields(para)[0]) > opts.maxTokens
  }

  method SplitByWords(para: string, paraStart: nat, opts: Options) returns (chunks: seq<RawChunk>)
    ensures if |Fields(para)| == 1 && opts.estimate(Fields(para)[0]) > opts.maxTokens
            then CutUpTo(para, paraStart, opts, chunks, |para|)
            else IsWordSplit(para, paraStart, opts, chunks)
    ensures IsOneLongWord(para, opts) <==> |Fields(para)| == 1 && opts.estimate(Fields(para)[0]) > opts.maxTokens
  {
    var words := Fields(para);
    assert IsOneLongWord(para, opts) <==> |words| == 1 && opts.estimate(words[0]) > opts.maxTokens;
    hide *;
    if |words| == 1 && opts.estimate(words[0]) > opts.maxTokens {
      chunks := SplitByCharacters(para, paraStart, opts);
    } else {
      var wordPositions := LocateWords(para, paraStart, words);
      chunks := GroupWords(para, paraStart, opts, words, wordPositions);
    }
  }
}
