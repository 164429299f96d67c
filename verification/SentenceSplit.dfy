/**
 The sentence splitter of the chunker and the greedy grouping of its sentences.
 */
module SentenceSplit {
  import opened GoStrings
  import opened ChunkRuns

  /** A full stop, exclamation or question mark before a space, a newline or the end. */
  predicate SentenceEnd(text: string, i: int) {
    && 0 <= i < |text|
    && text[i] in ".!?"
    && (i + 1 >= |text| || text[i + 1] == ' ' || text[i + 1] == '\n')
  }

  /** The three marks end a sentence before a space, before a newline and at the end of the text, nothing else does. */
  lemma MarksEnd(before: string, c: char, after: string)
    ensures SentenceEnd(before + [c] + after, |before|) <==>
            (c == '.' || c == '!' || c == '?') && (after == "" || after[0] == ' ' || after[0] == '\n')
  {
  }

  /** A sentence may stop at offset `p`: after its mark, or after the one space behind it. */
  predicate IsCut(text: string, p: int) {
    && 0 < p <= |text|
    && (if text[p - 1] == ' ' then SentenceEnd(text, p - 2)
        else SentenceEnd(text, p - 1) && (p < |text| ==> text[p] != ' '))
  }

  /** The offsets at which the parts end in their concatenation. */
  ghost function Ends(parts: seq<string>): set<nat> {
    if parts == [] then {} else Ends(parts[..|parts| - 1]) + {|Join(parts, "")|}
  }

  ghost predicate NonEmptyParts(parts: seq<string>) {
    forall k :: 0 <= k < |parts| ==> parts[k] != ""
  }

  lemma EndsSnoc(parts: seq<string>, last: string)
    ensures Join(parts + [last], "") == Join(parts, "") + last
    ensures Ends(parts + [last]) == Ends(parts) + {|Join(parts, "")| + |last|}
  {
    JoinSnoc(parts, last, "");
    assert (parts + [last])[..|parts|] == parts;
  }

  /** The sentences put together are the text, and inside the text they stop exactly at the cuts. */
  ghost predicate IsSentences(text: string, parts: seq<string>) {
    && Join(parts, "") == text
    && NonEmptyParts(parts)
    && forall p :: 0 < p < |text| ==> (p in Ends(parts) <==> IsCut(text, p))
  }

  /** The sentences of the first `n` characters, and what has been read of the next one. */
  ghost predicate Reading(text: string, sentences: seq<string>, current: string, n: nat) {
    && n <= |text|
    && text[..n] == Join(sentences, "") + current
    && NonEmptyParts(sentences)
    && (forall p :: p in Ends(sentences) <==> 0 < p <= n && IsCut(text, p))
    && (n < |text| && text[n] == ' ' ==> !SentenceEnd(text, n - 1))
  }

  lemma ReadOn(text: string, sentences: seq<string>, current: string, n: nat)
    requires Reading(text, sentences, current, n) && n < |text| && !SentenceEnd(text, n)
    ensures Reading(text, sentences, current + [text[n]], n + 1)
  {
    assert text[..n + 1] == text[..n] + [text[n]];
  }

  lemma ReadEnd(text: string, sentences: seq<string>, current: string, n: nat, m: nat, last: string)
    requires Reading(text, sentences, current, n) && n < |text| && SentenceEnd(text, n)
    requires m == if n + 1 < |text| && text[n + 1] == ' ' then n + 2 else n + 1
    requires last == current + text[n..m]
    ensures Reading(text, sentences + [last], "", m)
  {
    var more := sentences + [last];
    TextUpTo(text, n, m, Join(sentences, ""), current, last);
    EndsSnoc(sentences, last);
    forall p ensures p in Ends(more) <==> 0 < p <= m && IsCut(text, p) {
      CutsAfterEnd(text, n, m, p);
    }
  }

  lemma TextUpTo(text: string, n: nat, m: nat, done: string, current: string, last: string)
    requires n <= m <= |text| && text[..n] == done + current && last == current + text[n..m]
    ensures text[..m] == done + last && |done| + |last| == m
  {
    assert text[..m] == text[..n] + text[n..m];
  }

  lemma CutsAfterEnd(text: string, n: nat, m: nat, p: int)
    requires SentenceEnd(text, n)
    requires m == if n + 1 < |text| && text[n + 1] == ' ' then n + 2 else n + 1
    ensures n < p <= m ==> (IsCut(text, p) <==> p == m)
  {
  }

  lemma ReadAll(text: string, sentences: seq<string>, current: string)
    requires Reading(text, sentences, current, |text|)
    ensures IsSentences(text, if current == "" then sentences else sentences + [current])
  {
    assert text[..|text|] == text;
    if current != "" {
      EndsSnoc(sentences, current);
    }
  }

  lemma NothingRead(text: string)
    ensures Reading(text, [], "", 0)
  {
  }

  lemma OneOrTwo(text: string, before: string, n: nat)
    requires n < |text|
    ensures before + [text[n]] == before + text[n..n + 1]
    ensures n + 1 < |text| && text[n + 1] == ' ' ==> before + [text[n]] + " " == before + text[n..n + 2]
  {
    assert text[n..n + 1] == [text[n]];
    if n + 1 < |text| && text[n + 1] == ' ' {
      assert text[n..n + 2] == [text[n]] + " ";
    }
  }

  method SplitSentences(text: string) returns (sentences: seq<string>)
    ensures IsSentences(text, sentences)
  {
    sentences := [];
    var current := "";
    var i := 0;
    hide Reading, IsSentences, IsCut, Join, Ends;
    NothingRead(text);
    while i < |text|
      invariant i <= |text| && Reading(text, sentences, current, i)
      decreases |text| - i
    {
      ghost var before, n := current, i;
      current := current + [text[i]];
      if text[i] == '.' || text[i] == '!' || text[i] == '?' {
        if i + 1 >= |text| || text[i + 1] == ' ' || text[i + 1] == '\n' {
          if i + 1 < |text| && text[i + 1] == ' ' {
            current := current + " ";
            i := i + 1;
          }
          OneOrTwo(text, before, n);
          ReadEnd(text, sentences, before, n, i + 1, current);
          sentences := sentences + [current];
          current := "";
        } else {
          ReadOn(text, sentences, before, n);
        }
      } else {
        ReadOn(text, sentences, before, n);
      }
      i := i + 1;
    }
    ReadAll(text, sentences, current);
    if |current| > 0 {
      sentences := sentences + [current];
    }
  }

  // ---------- runs of sentences ----------

  ghost predicate IsBoundary(text: string, p: int) {
    p == 0 || p == |text| || IsCut(text, p)
  }

  ghost predicate NoCutIn(text: string, a: int, b: int) {
    forall p :: a < p < b ==> !IsCut(text, p)
  }

  /**
   Piece `k` of a sentence split, `[a, b)`: it begins and ends where sentences do, it is one
   sentence or within its limit, and the next sentence would take it over the limit.
   */
  ghost predicate SentenceRun(para: string, opts: Options, k: nat, a: int, b: int) {
    && 0 <= a < b <= |para|
    && IsBoundary(para, a) && IsBoundary(para, b)
    && (NoCutIn(para, a, b) || opts.estimate(para[a..b]) <= Limit(opts, k))
    && forall e :: b < e <= |para| && IsBoundary(para, e) && NoCutIn(para, b, e) ==>
                     opts.estimate(para[a..e]) > Limit(opts, k)
  }

  ghost predicate SentencePiece(para: string, base: nat, opts: Options, k: nat, c: RawChunk) {
    Exact(para, base, c) && SentenceRun(para, opts, k, c.start - base, c.end - base)
  }

  ghost predicate SentencePieces(para: string, base: nat, opts: Options, cs: seq<RawChunk>) {
    forall k :: 0 <= k < |cs| ==> SentencePiece(para, base, opts, k, cs[k])
  }

  lemma SentencePiecesSnoc(para: string, base: nat, opts: Options, cs: seq<RawChunk>, c: RawChunk)
    requires SentencePieces(para, base, opts, cs) && SentencePiece(para, base, opts, |cs|, c)
    ensures SentencePieces(para, base, opts, cs + [c])
  {
  }

  lemma {:induction false} EndsAreBounded(parts: seq<string>, p: nat)
    requires p in Ends(parts)
    ensures p <= |Join(parts, "")|
  {
    var front := parts[..|parts| - 1];
    assert parts == front + [parts[|parts| - 1]];
    EndsSnoc(front, parts[|parts| - 1]);
    if p in Ends(front) {
      EndsAreBounded(front, p);
    }
  }

  lemma {:induction false} EndsBetween(parts: seq<string>, i: nat, p: nat)
    requires i < |parts| && p in Ends(parts)
    ensures !(|Join(parts[..i], "")| < p < |Join(parts[..i + 1], "")|)
    decreases |parts|
  {
    var front := parts[..|parts| - 1];
    assert parts == front + [parts[|parts| - 1]];
    EndsSnoc(front, parts[|parts| - 1]);
    if i == |front| {
      assert parts[..i + 1] == parts;
      if p in Ends(front) {
        EndsAreBounded(front, p);
      }
    } else if p in Ends(front) {
      assert front[..i] == parts[..i] && front[..i + 1] == parts[..i + 1];
      EndsBetween(front, i, p);
    } else {
      assert front[..i + 1] == parts[..i + 1];
      EmptyJoinPrefix(front, i + 1);
    }
  }

  lemma {:induction false} EmptyJoinPrefix(parts: seq<string>, i: nat)
    requires i <= |parts|
    ensures Join(parts[..i], "") <= Join(parts, "")
  {
    if i == 0 {
    } else {
      JoinPrefix(parts, "", i);
    }
  }

  lemma {:induction false} EndsHas(parts: seq<string>, i: nat)
    requires 0 < i <= |parts|
    ensures |Join(parts[..i], "")| in Ends(parts)
    decreases |parts|
  {
    if i == |parts| {
      assert parts[..i] == parts;
    } else {
      var front := parts[..|parts| - 1];
      assert front[..i] == parts[..i];
      EndsHas(front, i);
    }
  }

  /** Sentence `i` occupies the stretch from one boundary to the next. */
  lemma SentenceAt(text: string, parts: seq<string>, i: nat)
    requires IsSentences(text, parts) && i < |parts|
    ensures var a, b := |Join(parts[..i], "")|, |Join(parts[..i + 1], "")|;
            && a < b <= |text|
            && text[a..b] == parts[i]
            && IsBoundary(text, a) && IsBoundary(text, b)
            && NoCutIn(text, a, b)
  {
    hide Join, SentenceEnd;
    SentenceSpan(text, parts, i);
    var a, b := |Join(parts[..i], "")|, |Join(parts[..i + 1], "")|;
    EndsHas(parts, i + 1);
    if i > 0 {
      EndsHas(parts, i);
    } else {
      assert a == 0 by { NothingBefore(parts); }
    }
    forall p | a < p < b ensures !IsCut(text, p) {
      if p in Ends(parts) {
        EndsBetween(parts, i, p);
      }
    }
  }

  lemma NothingBefore(parts: seq<string>)
    ensures |Join(parts[..0], "")| == 0
  {
  }

  lemma SentenceSpan(text: string, parts: seq<string>, i: nat)
    requires Join(parts, "") == text && i < |parts| && parts[i] != ""
    ensures var a, b := |Join(parts[..i], "")|, |Join(parts[..i + 1], "")|;
            a < b <= |text| && text[a..b] == parts[i]
  {
    assert parts[..i + 1] == parts[..i] + [parts[i]];
    hide Join;
    EmptyJoinPrefix(parts, i + 1);
    ConcatSnoc(parts[..i], parts[i]);
    LastOf(text, Join(parts[..i], ""), parts[i]);
  }

  lemma LastOf(text: string, front: string, last: string)
    requires front + last <= text
    ensures |front| + |last| <= |text| && text[|front|..|front + last|] == last
  {
  }

  lemma NextBoundary(text: string, b: int, e: int, e': int)
    requires 0 <= b < e <= |text| && IsBoundary(text, e) && NoCutIn(text, b, e)
    requires b < e' <= |text| && IsBoundary(text, e') && NoCutIn(text, b, e')
    ensures e == e'
  {
  }

  /** Sentences up to `n` are read, those up to `a` are in chunks, and `run` is what lies between. */
  ghost predicate OpenRun(para: string, base: nat, opts: Options, cs: seq<RawChunk>, a: nat, n: nat, run: string) {
    && Covers(para, base, cs, a)
    && SentencePieces(para, base, opts, cs)
    && a < n <= |para|
    && IsBoundary(para, a) && IsBoundary(para, n)
    && run == para[a..n]
    && (NoCutIn(para, a, n) || opts.estimate(run) <= Limit(opts, |cs|))
  }

  lemma StartRun(para: string, base: nat, opts: Options, cs: seq<RawChunk>, a: nat, e: nat, sent: string)
    requires Covers(para, base, cs, a) && SentencePieces(para, base, opts, cs)
    requires a < e <= |para| && sent == para[a..e]
    requires IsBoundary(para, a) && IsBoundary(para, e) && NoCutIn(para, a, e)
    ensures OpenRun(para, base, opts, cs, a, e, Join([sent], ""))
  {
  }

  lemma ExtendRun(para: string, base: nat, opts: Options, cs: seq<RawChunk>, a: nat, n: nat, run: string,
                  e: nat, more: string)
    requires OpenRun(para, base, opts, cs, a, n, run)
    requires n < e <= |para| && IsBoundary(para, e)
    requires more == run + para[n..e] && opts.estimate(more) <= Limit(opts, |cs|)
    ensures OpenRun(para, base, opts, cs, a, e, more)
  {
    hide Covers, SentencePieces, IsBoundary, NoCutIn;
    assert para[a..e] == para[a..n] + para[n..e];
  }

  lemma RunIsFull(para: string, opts: Options, k: nat, a: nat, n: nat, e: nat)
    requires a < n <= |para| && IsBoundary(para, a) && IsBoundary(para, n)
    requires NoCutIn(para, a, n) || opts.estimate(para[a..n]) <= Limit(opts, k)
    requires n == e == |para| ||
             (n < e <= |para| && IsBoundary(para, e) && NoCutIn(para, n, e) &&
              opts.estimate(para[a..e]) > Limit(opts, k))
    ensures SentenceRun(para, opts, k, a, n)
  {
    forall e' | n < e' <= |para| && IsBoundary(para, e') && NoCutIn(para, n, e')
      ensures opts.estimate(para[a..e']) > Limit(opts, k)
    {
      NextBoundary(para, n, e, e');
    }
  }

  lemma {:induction false} CloseRun(para: string, base: nat, opts: Options, cs: seq<RawChunk>, a: nat, n: nat,
                                    run: string, e: nat, more: string, c: RawChunk)
    requires OpenRun(para, base, opts, cs, a, n, run)
    requires c == RawChunk(run, base + a, base + a + |run|)
    requires n == e == |para| ||
             (n < e <= |para| && IsBoundary(para, e) && NoCutIn(para, n, e) &&
              more == run + para[n..e] && opts.estimate(more) > Limit(opts, |cs|))
    ensures a + |run| == n
    ensures Covers(para, base, cs + [c], n)
    ensures SentencePieces(para, base, opts, cs + [c])
  {
    if n < e {
      assert para[a..e] == more;
    }
    RunIsFull(para, opts, |cs|, a, n, e);
    CloseFullRun(para, base, opts, cs, a, n, c);
  }

  lemma RunRange(para: string, opts: Options, k: nat, a: int, b: int)
    requires SentenceRun(para, opts, k, a, b)
    ensures 0 <= a < b <= |para|
  {
  }

  lemma {:induction false} CloseFullRun(para: string, base: nat, opts: Options, cs: seq<RawChunk>, a: nat, n: nat,
                                        c: RawChunk)
    requires Covers(para, base, cs, a) && SentencePieces(para, base, opts, cs)
    requires SentenceRun(para, opts, |cs|, a, n)
    requires c == RawChunk(para[a..n], base + a, base + n)
    ensures Covers(para, base, cs + [c], n)
    ensures SentencePieces(para, base, opts, cs + [c])
  {
    hide Covers, SentenceRun, SentencePieces, Exact;
    RunRange(para, opts, |cs|, a, n);
    CoversMore(para, base, cs, a, n, c);
    assert c.start - base == a && c.end - base == n;
    SentencePiecesSnoc(para, base, opts, cs, c);
  }

  method GroupSentences(para: string, paraStart: nat, opts: Options, sentences: seq<string>)
    returns (chunks: seq<RawChunk>)
    requires para != "" && IsSentences(para, sentences)
    ensures Covers(para, paraStart, chunks, |para|)
    ensures SentencePieces(para, paraStart, opts, chunks)
  {
    chunks := [];
    var currentSents: seq<string> := [];
    var offset := paraStart;
    ghost var a, n := 0, 0;
    assert Covers(para, paraStart, [], 0) && SentencePieces(para, paraStart, opts, []);
    assert Join(sentences, "") == para;
    hide *;
    for i := 0 to |sentences|
      invariant 0 <= a <= n == |Join(sentences[..i], "")| && offset == paraStart + a
      invariant currentSents == [] <==> i == 0
      invariant i == 0 ==> chunks == [] && a == n
      invariant i > 0 ==> OpenRun(para, paraStart, opts, chunks, a, n, Join(currentSents, ""))
    {
      var sent := sentences[i];
      ghost var e := |Join(sentences[..i + 1], "")|;
      SentenceAt(para, sentences, i);
      ghost var run := Join(currentSents, "");
      if |currentSents| == 0 {
        currentSents := [sent];
        StartRun(para, paraStart, opts, chunks, a, e, sent);
      } else {
        var combined := Join(currentSents + [sent], "");
        var combinedTokens := opts.estimate(combined);
        var limit := Limit(opts, |chunks|);
        ConcatSnoc(currentSents, sent);
        if combinedTokens <= limit {
          ExtendRun(para, paraStart, opts, chunks, a, n, run, e, combined);
          currentSents := currentSents + [sent];
        } else {
          var content := Join(currentSents, "");
          var c := RawChunk(content, offset, offset + |content|);
          CloseRun(para, paraStart, opts, chunks, a, n, run, e, combined, c);
          chunks := chunks + [c];
          offset := offset + |content|;
          a := n;
          currentSents := [sent];
          StartRun(para, paraStart, opts, chunks, a, e, sent);
        }
      }
      n := e;
    }
    assert sentences[..|sentences|] == sentences;
    if |currentSents| > 0 {
      var content := Join(currentSents, "");
      var c := RawChunk(content, offset, offset + |content|);
      CloseRun(para, paraStart, opts, chunks, a, n, content, n, content, c);
      chunks := chunks + [c];
    }
  }
}
