module CharacterSplit {
  /**
   The last resort of the chunker: binary search for the piece that fits, over and over.
   */

  import opened ChunkRuns

  ghost predicate Monotone(text: string, estimate: string -> int) {
    forall i, j :: 0 <= i <= j <= |text| ==> estimate(text[..i]) <= estimate(text[..j])
  }

  /**
   Binary search for the longest prefix within the target.  For every estimator the result
   is a prefix that fits, or 1, and one more character would not fit; for a monotone one it
   is the longest prefix that fits.
   */
  method FindChunkSize(text: string, target: int, estimate: string -> int) returns (size: nat)
    ensures text != "" ==> 1 <= size <= |text|
    ensures text == "" ==> size == if estimate("") <= target then 0 else 1
    ensures size == 1 || (size <= |text| && estimate(text[..size]) <= target)
    ensures size < |text| ==> estimate(text[..size + 1]) > target
    ensures text != "" && Monotone(text, estimate) ==>
              forall p :: size < p <= |text| ==> estimate(text[..p]) > target
  {
    assert text[..|text|] == text;
    if estimate(text) <= target {
      return |text|;
    }
    var low, high := 1, |text|;
    while low < high
      invariant 1 <= low
      invariant if text == "" then low == 1 && high == 0 else low <= high <= |text|
      invariant low == 1 || (low <= |text| && estimate(text[..low]) <= target)
      invariant high == |text| || (high < |text| && estimate(text[..high + 1]) > target)
    {
      var mid := (low + high + 1) / 2;
      if estimate(text[..mid]) <= target {
        low := mid;
      } else {
        high := mid - 1;
      }
    }
    return low;
  }

  /** Piece `k` of a character split, `[a, b)`: within its limit or one character, and as long as can be. */
  ghost predicate ByteFits(para: string, opts: Options, k: nat, a: int, b: int) {
    && 0 <= a < b <= |para|
    && (b == a + 1 || opts.estimate(para[a..b]) <= Limit(opts, k))
    && (b < |para| ==> opts.estimate(para[a..b + 1]) > Limit(opts, k))
  }

  ghost predicate BytePiece(para: string, base: nat, opts: Options, k: nat, c: RawChunk) {
    Exact(para, base, c) && ByteFits(para, opts, k, c.start - base, c.end - base)
  }

  ghost predicate BytePieces(para: string, base: nat, opts: Options, cs: seq<RawChunk>) {
    forall k :: 0 <= k < |cs| ==> BytePiece(para, base, opts, k, cs[k])
  }

  lemma BytePiecesSnoc(para: string, base: nat, opts: Options, cs: seq<RawChunk>, c: RawChunk)
    requires BytePieces(para, base, opts, cs) && BytePiece(para, base, opts, |cs|, c)
    ensures BytePieces(para, base, opts, cs + [c])
  {
  }

  /** The first `n` characters of the paragraph have been cut into `cs`. */
  ghost predicate CutUpTo(para: string, base: nat, opts: Options, cs: seq<RawChunk>, n: nat) {
    Covers(para, base, cs, n) && BytePieces(para, base, opts, cs)
  }

  lemma CutMore(para: string, base: nat, opts: Options, cs: seq<RawChunk>, n: nat, size: nat)
    requires CutUpTo(para, base, opts, cs, n)
    requires ByteFits(para, opts, |cs|, n, n + size)
    ensures CutUpTo(para, base, opts,
                    cs + [RawChunk(para[n..n + size], base + n, base + n + size)], n + size)
  {
    var c := RawChunk(para[n..n + size], base + n, base + n + size);
    CoversMore(para, base, cs, n, n + size, c);
    assert BytePiece(para, base, opts, |cs|, c) by {
      assert c.start - base == n && c.end - base == n + size;
    }
    hide BytePiece, BytePieces, Covers;
    BytePiecesSnoc(para, base, opts, cs, c);
  }

  lemma CutRest(para: string, base: nat, opts: Options, cs: seq<RawChunk>, n: nat, rest: string, size: nat, c: RawChunk)
    requires CutUpTo(para, base, opts, cs, n) && rest == para[n..]
    requires ByteFits(rest, opts, |cs|, 0, size)
    requires c == RawChunk(rest[..size], base + n, base + n + size)
    ensures CutUpTo(para, base, opts, cs + [c], n + size)
    ensures rest[size..] == para[n + size..]
  {
    assert rest[0..size] == rest[..size] == para[n..n + size];
    assert size < |rest| ==> rest[0..size + 1] == para[n..n + size + 1];
    CutMore(para, base, opts, cs, n, size);
  }

  method SplitByCharacters(para: string, paraStart: nat, opts: Options) returns (cs: seq<RawChunk>)
    ensures CutUpTo(para, paraStart, opts, cs, |para|)
  {
    cs := [];
    var offset := paraStart;
    var remaining := para;
    ghost var n := 0;
    assert CutUpTo(para, paraStart, opts, cs, n);
    hide CutUpTo;
    while |remaining| > 0
      invariant n <= |para| && offset == paraStart + n && remaining == para[n..]
      invariant CutUpTo(para, paraStart, opts, cs, n)
      decreases |para| - n
    {
      var limit := Limit(opts, |cs|);
      var chunkSize := FindChunkSize(remaining, limit, opts.estimate);
      var chunk := remaining[..chunkSize];
      var c := RawChunk(chunk, offset, offset + |chunk|);
      CutRest(para, paraStart, opts, cs, n, remaining, chunkSize, c);
      cs := cs + [c];
      offset := offset + |chunk|;
      remaining := remaining[chunkSize..];
      n := n + chunkSize;
    }
  }
}
