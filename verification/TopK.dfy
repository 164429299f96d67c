module TopK {
  /**
   `FindTopK` of `pkg/embeddings/normalize.go`: a partial selection sort in place.  Its result is a
   top-k list of the scores, and any two such lists carry the same scores.
   */

  import opened VectorMath
  import opened Wrappers

  datatype SimilarityResult = SimilarityResult(index: nat, similarity: real)

  function Scores(sqrt: real -> real, query: Vector, vectors: seq<Vector>): (r: seq<real>)
    ensures |r| == |vectors|
    ensures forall v :: 0 <= v < |vectors| ==> r[v] == Cosine(sqrt, query, vectors[v])
  {
    seq(|vectors|, v requires 0 <= v < |vectors| => Cosine(sqrt, query, vectors[v]))
  }

  function Count(k: int, n: nat): nat {
    if k <= 0 then 0 else if k > n then n else k
  }

  /** Every entry is one of the vectors with its own score. */
  ghost predicate TrueScores(s: seq<SimilarityResult>, scores: seq<real>) {
    forall p :: 0 <= p < |s| ==> s[p].index < |scores| && s[p].similarity == scores[s[p].index]
  }

  ghost predicate DistinctIndices(s: seq<SimilarityResult>) {
    forall p, q :: 0 <= p < q < |s| ==> s[p].index != s[q].index
  }

  ghost predicate Descending(s: seq<SimilarityResult>) {
    forall p, q :: 0 <= p < q < |s| ==> s[p].similarity >= s[q].similarity
  }

  ghost predicate Returned(s: seq<SimilarityResult>, v: nat) {
    exists p :: 0 <= p < |s| && s[p].index == v
  }

  /** Whatever was left out scores no higher than anything returned. */
  ghost predicate NothingBetterLeft(s: seq<SimilarityResult>, scores: seq<real>) {
    forall v, p :: 0 <= v < |scores| && !Returned(s, v) && 0 <= p < |s| ==> scores[v] <= s[p].similarity
  }

  ghost predicate IsTopK(s: seq<SimilarityResult>, scores: seq<real>, k: int) {
    && |s| == Count(k, |scores|)
    && TrueScores(s, scores)
    && DistinctIndices(s)
    && Descending(s)
    && NothingBetterLeft(s, scores)
  }

  // ---------- a top-k list is determined by the scores ----------

  function Indices(s: seq<SimilarityResult>): set<nat> {
    set p | 0 <= p < |s| :: s[p].index
  }

  lemma {:induction false} IndicesSize(s: seq<SimilarityResult>)
    requires DistinctIndices(s)
    ensures |Indices(s)| == |s|
  {
    if |s| > 0 {
      var n := |s| - 1;
      IndicesSize(s[..n]);
      assert Indices(s) == Indices(s[..n]) + {s[n].index};
      assert s[n].index !in Indices(s[..n]);
    }
  }

  /** At no place does one top-k list carry a higher score than another. */
  lemma NoHigher(s: seq<SimilarityResult>, t: seq<SimilarityResult>, scores: seq<real>, k: int, i: nat)
    requires IsTopK(s, scores, k) && IsTopK(t, scores, k) && i < |s|
    ensures s[i].similarity <= t[i].similarity
  {
    if s[i].similarity > t[i].similarity {
      forall v | v in Indices(s[..i + 1]) ensures v in Indices(t[..i]) {
        HigherIsEarlier(s, t, scores, k, i, v);
      }
      IndicesSize(s[..i + 1]);
      IndicesSize(t[..i]);
      SubsetSize(Indices(s[..i + 1]), Indices(t[..i]));
    }
  }

  lemma {:induction false} HigherIsEarlier(s: seq<SimilarityResult>, t: seq<SimilarityResult>, scores: seq<real>,
                                           k: int, i: nat, v: nat)
    requires IsTopK(s, scores, k) && IsTopK(t, scores, k) && i < |s|
    requires s[i].similarity > t[i].similarity && v in Indices(s[..i + 1])
    ensures v in Indices(t[..i])
  {
    var p :| 0 <= p < i + 1 && s[..i + 1][p].index == v;
    assert s[p].similarity >= s[i].similarity;
    assert scores[v] > t[i].similarity;
    assert Returned(t, v);
    var q :| 0 <= q < |t| && t[q].index == v;
    assert q < i;
    assert t[..i][q].index == v;
  }

  /** Two top-k lists of the same scores agree score by score. */
  lemma TopKScoresAgree(s: seq<SimilarityResult>, t: seq<SimilarityResult>, scores: seq<real>, k: int)
    requires IsTopK(s, scores, k) && IsTopK(t, scores, k)
    ensures |s| == |t| && forall i :: 0 <= i < |s| ==> s[i].similarity == t[i].similarity
  {
    forall i | 0 <= i < |s| ensures s[i].similarity == t[i].similarity {
      NoHigher(s, t, scores, k, i);
      NoHigher(t, s, scores, k, i);
    }
  }

  // ---------- the partial selection sort ----------

  /** The entries are the vectors in some order: vector `v` stands at place `at[v]`. */
  ghost predicate Arranged(s: seq<SimilarityResult>, scores: seq<real>, at: seq<nat>) {
    && |s| == |scores| == |at|
    && TrueScores(s, scores)
    && (forall p :: 0 <= p < |s| ==> at[s[p].index] == p)
    && (forall v :: 0 <= v < |at| ==> at[v] < |s| && s[at[v]].index == v)
  }

  /** The first `i` places are final. */
  ghost predicate Settled(s: seq<SimilarityResult>, i: nat) {
    forall p, q :: 0 <= p < i && p < q < |s| ==> s[p].similarity >= s[q].similarity
  }

  /** `s` with two places exchanged. */
  function Swap(s: seq<SimilarityResult>, i: nat, j: nat): seq<SimilarityResult>
    requires i < |s| && j < |s|
  {
    s[i := s[j]][j := s[i]]
  }

  lemma SwapKeepsArranged(s: seq<SimilarityResult>, scores: seq<real>, at: seq<nat>, i: nat, j: nat)
      returns (now: seq<nat>)
    requires Arranged(s, scores, at) && i < |s| && j < |s|
    ensures Arranged(Swap(s, i, j), scores, now)
  {
    now := at[s[i].index := j][s[j].index := i];
  }

  /** Place `m` holds the best of the places from `i` up to `j`. */
  ghost predicate BestOf(s: seq<SimilarityResult>, i: nat, j: nat, m: nat) {
    i <= m < |s| && forall q :: i <= q < j && q < |s| ==> s[m].similarity >= s[q].similarity
  }

  lemma BestStarts(s: seq<SimilarityResult>, i: nat)
    requires i < |s|
    ensures BestOf(s, i, i + 1, i)
  {
  }

  lemma BestGrows(s: seq<SimilarityResult>, i: nat, j: nat, m: nat)
    requires i <= m < j < |s| && BestOf(s, i, j, m)
    ensures BestOf(s, i, j + 1, if s[j].similarity > s[m].similarity then j else m)
  {
  }

  lemma StartArranged(s: seq<SimilarityResult>, scores: seq<real>) returns (at: seq<nat>)
    requires |s| == |scores| && forall p :: 0 <= p < |s| ==> s[p] == SimilarityResult(p, scores[p])
    ensures Arranged(s, scores, at) && Settled(s, 0)
  {
    at := seq(|scores|, v requires 0 <= v => v);
  }

  lemma SwapSettles(s: seq<SimilarityResult>, i: nat, j: nat)
    requires i <= j < |s| && Settled(s, i) && BestOf(s, i, |s|, j)
    ensures Settled(Swap(s, i, j), i + 1)
  {
  }

  lemma PrefixIsTopK(s: seq<SimilarityResult>, scores: seq<real>, at: seq<nat>, k: int)
    requires Arranged(s, scores, at) && 0 <= k <= |s| && Settled(s, k)
    ensures IsTopK(s[..k], scores, k)
  {
    var t := s[..k];
    forall p, q | 0 <= p < q < |t| ensures t[p].index != t[q].index {
      assert at[s[p].index] == p && at[s[q].index] == q;
    }
    forall q | 0 <= q < k ensures Returned(t, s[q].index) {
      assert t[q].index == s[q].index;
    }
    forall v, p | 0 <= v < |scores| && !Returned(t, v) && 0 <= p < |t| ensures scores[v] <= t[p].similarity {
      var q := at[v];
      assert s[q].index == v;
      assert s[p].similarity >= s[q].similarity;
    }
  }

  method FindTopK(sqrt: real -> real, query: Vector, vectors: seq<Vector>, k: int)
      returns (results: seq<SimilarityResult>)
    requires IsSqrt(sqrt)
    ensures IsTopK(results, Scores(sqrt, query, vectors), k)
  {
    if k <= 0 || |vectors| == 0 {
      return [];
    }
    ghost var scores := Scores(sqrt, query, vectors);
    var count := if k > |vectors| then |vectors| else k;
    var similarities := new SimilarityResult[|vectors|];
    for i := 0 to |vectors|
      invariant forall p :: 0 <= p < i ==> similarities[p] == SimilarityResult(p, scores[p])
    {
      var score := CosineSimilarity(sqrt, query, vectors[i]);
      similarities[i] := SimilarityResult(i, score);
    }
    ghost var at := StartArranged(similarities[..], scores);
    hide Arranged, Settled, BestOf, IsTopK, Scores, IsSqrt;
    for i := 0 to count
      invariant Arranged(similarities[..], scores, at)
      invariant Settled(similarities[..], i)
    {
      ghost var before := similarities[..];
      var maxIdx := i;
      BestStarts(before, i);
      for j := i + 1 to similarities.Length
        invariant i <= maxIdx < j
        invariant similarities[..] == before
        invariant BestOf(before, i, j, maxIdx)
      {
        BestGrows(before, i, j, maxIdx);
        if similarities[j].similarity > similarities[maxIdx].similarity {
          maxIdx := j;
        }
      }
      if maxIdx != i {
        similarities[i], similarities[maxIdx] := similarities[maxIdx], similarities[i];
      }
      assert similarities[..] == Swap(before, i, maxIdx);
      at := SwapKeepsArranged(before, scores, at, i, maxIdx);
      SwapSettles(before, i, maxIdx);
    }
    results := similarities[..count];
    assert results == similarities[..][..count];
    PrefixIsTopK(similarities[..], scores, at, count);
  }
}
