/**
 The vector functions of `pkg/embeddings/normalize.go` in exact arithmetic.  The square root is a
 parameter: any function that is one on the non-negative reals.
 */
module VectorMath {
  type Vector = seq<real>

  ghost predicate IsSqrt(sqrt: real -> real) {
    forall x :: x >= 0.0 ==> sqrt(x) >= 0.0 && sqrt(x) * sqrt(x) == x
  }

  // ---------- sums ----------

  /** The scalar product of two vectors of one length. */
  function Dot(a: Vector, b: Vector): real
    requires |a| == |b|
  {
    if |a| == 0 then 0.0 else Dot(a[..|a| - 1], b[..|a| - 1]) + a[|a| - 1] * b[|a| - 1]
  }

  /** `DotProduct`: 0 for vectors of different length. */
  function ScalarProduct(a: Vector, b: Vector): real {
    if |a| == |b| then Dot(a, b) else 0.0
  }

  function Squares(a: Vector): (r: real)
    ensures r >= 0.0
  {
    if |a| == 0 then 0.0 else Squares(a[..|a| - 1]) + a[|a| - 1] * a[|a| - 1]
  }

  lemma {:induction false} DotSelf(a: Vector)
    ensures Dot(a, a) == Squares(a)
  {
    if |a| > 0 {
      DotSelf(a[..|a| - 1]);
    }
  }

  lemma {:induction false} DotComm(a: Vector, b: Vector)
    requires |a| == |b|
    ensures Dot(a, b) == Dot(b, a)
  {
    if |a| > 0 {
      DotComm(a[..|a| - 1], b[..|a| - 1]);
    }
  }

  // ---------- Cauchy-Schwarz ----------

  /** The sum of `(t a_i - s b_i)^2`. */
  function Gap(a: Vector, b: Vector, t: real, s: real): (r: real)
    requires |a| == |b|
    ensures r >= 0.0
  {
    if |a| == 0 then 0.0
    else
      var d := t * a[|a| - 1] - s * b[|a| - 1];
      Gap(a[..|a| - 1], b[..|a| - 1], t, s) + d * d
  }

  lemma SquareOfDifference(t: real, s: real, x: real, y: real)
    ensures (t * x - s * y) * (t * x - s * y) == t * t * (x * x) - 2.0 * t * s * (x * y) + s * s * (y * y)
  {
  }

  lemma Distribute(t: real, p: real, q: real)
    ensures t * (p + q) == t * p + t * q
  {
  }

  lemma {:induction false} GapExpands(a: Vector, b: Vector, t: real, s: real)
    requires |a| == |b|
    ensures Gap(a, b, t, s) == t * t * Squares(a) - 2.0 * t * s * Dot(a, b) + s * s * Squares(b)
  {
    if |a| > 0 {
      var n := |a| - 1;
      GapExpands(a[..n], b[..n], t, s);
      SquareOfDifference(t, s, a[n], b[n]);
      Distribute(t * t, Squares(a[..n]), a[n] * a[n]);
      Distribute(2.0 * t * s, Dot(a[..n], b[..n]), a[n] * b[n]);
      Distribute(s * s, Squares(b[..n]), b[n] * b[n]);
    }
  }

  /** From `B * B * A - 2 * B * D * D + D * D * B >= 0` with `B > 0`. */
  lemma FromGap(A: real, B: real, D: real)
    requires B > 0.0 && B * B * A - 2.0 * B * D * D + D * D * B >= 0.0
    ensures D * D <= A * B
  {
    assert B * B * A - 2.0 * B * D * D + D * D * B == B * (A * B - D * D);
    if A * B - D * D < 0.0 {
      NegativeProduct(B, A * B - D * D);
    }
  }

  lemma NegativeProduct(x: real, y: real)
    requires x > 0.0 && y < 0.0
    ensures x * y < 0.0
  {
  }

  lemma PositiveProduct(x: real, y: real, s: real)
    requires x > 0.0 && y > 0.0 && s == x * y
    ensures s > 0.0
  {
  }

  lemma SquareOfNegative(q: real)
    ensures (-q) * (-q) == q * q
  {
  }

  lemma SquarePositive(x: real, s: real)
    requires x != 0.0 && s == x * x
    ensures s > 0.0
  {
    if x < 0.0 {
      SquareOfNegative(x);
      PositiveProduct(-x, -x, s);
    } else {
      PositiveProduct(x, x, s);
    }
  }

  lemma {:induction false} ZeroSquares(b: Vector, a: Vector)
    requires |a| == |b| && Squares(b) == 0.0
    ensures Dot(a, b) == 0.0
  {
    if |b| > 0 {
      var n := |b| - 1;
      var s := b[n] * b[n];
      assert s == 0.0;
      if b[n] != 0.0 {
        SquarePositive(b[n], s);
      }
      ZeroSquares(b[..n], a[..n]);
    }
  }

  lemma CauchySchwarz(a: Vector, b: Vector)
    requires |a| == |b|
    ensures Dot(a, b) * Dot(a, b) <= Squares(a) * Squares(b)
  {
    hide Dot, Squares, Gap;
    if Squares(b) == 0.0 {
      ZeroSquares(b, a);
    } else {
      GapExpands(a, b, Squares(b), Dot(a, b));
      FromGap(Squares(a), Squares(b), Dot(a, b));
    }
  }

  // ---------- similarity ----------

  /** The cosine from the scalar product and the two lengths; 0 when a length is. */
  function Ratio(d: real, magA: real, magB: real): real {
    if magA == 0.0 || magB == 0.0 then 0.0
    else
      ProductNonZero(magA, magB);
      d / (magA * magB)
  }

  /** `CosineSimilarity`: 0 for vectors of different length, empty ones and zero ones. */
  function Cosine(sqrt: real -> real, a: Vector, b: Vector): real {
    if |a| != |b| || |a| == 0 then 0.0 else Ratio(Dot(a, b), sqrt(Squares(a)), sqrt(Squares(b)))
  }

  lemma RatioIs(d: real, magA: real, magB: real, r: real)
    requires magA != 0.0 && magB != 0.0 && magA * magB != 0.0 && r == d / (magA * magB)
    ensures r == Ratio(d, magA, magB)
  {
  }

  lemma RatioZero(d: real, magA: real, magB: real)
    requires magA == 0.0 || magB == 0.0
    ensures Ratio(d, magA, magB) == 0.0
  {
  }

  lemma ProductNonZero(x: real, y: real)
    requires x != 0.0 && y != 0.0
    ensures x * y != 0.0
  {
  }

  lemma SqrtFacts(sqrt: real -> real, x: real)
    requires IsSqrt(sqrt) && x >= 0.0
    ensures sqrt(x) >= 0.0 && sqrt(x) * sqrt(x) == x
    ensures sqrt(x) == 0.0 <==> x == 0.0
  {
    if sqrt(x) != 0.0 {
      SquarePositive(sqrt(x), x);
    }
  }

  /** Between non-negative numbers squares compare like the numbers. */
  lemma SquaresCompare(x: real, y: real)
    requires x > y >= 0.0
    ensures x * x > y * y
  {
    assert x * x - y * y == (x - y) * (x + y);
    PositiveProduct(x - y, x + y, x * x - y * y);
  }

  /** `d / m` lies between -1 and 1 when `d * d <= m * m`. */
  lemma DivideBound(d: real, m: real)
    requires m > 0.0 && d * d <= m * m
    ensures -1.0 <= d / m <= 1.0
  {
    SquareOfNegative(d);
    if d > m {
      SquaresCompare(d, m);
    } else if -d > m {
      SquaresCompare(-d, m);
    } else {
      QuotientBound(d / m, d, m);
    }
  }

  lemma QuotientBound(q: real, d: real, m: real)
    requires m > 0.0 && q * m == d && -m <= d <= m
    ensures -1.0 <= q <= 1.0
  {
    assert (q - 1.0) * m == d - m && (-1.0 - q) * m == -m - d;
    if q > 1.0 {
      PositiveProduct(q - 1.0, m, d - m);
    } else if q < -1.0 {
      PositiveProduct(-1.0 - q, m, -m - d);
    }
  }

  lemma SquareOfProduct(x: real, y: real)
    ensures (x * y) * (x * y) == (x * x) * (y * y)
  {
  }

  predicate IsRoot(x: real, A: real) {
    x >= 0.0 && x * x == A
  }

  predicate SquareWithin(d: real, A: real, B: real) {
    d * d <= A * B
  }

  lemma RatioBound(d: real, A: real, B: real, x: real, y: real)
    requires IsRoot(x, A) && IsRoot(y, B) && SquareWithin(d, A, B)
    ensures -1.0 <= Ratio(d, x, y) <= 1.0
  {
    if x != 0.0 && y != 0.0 {
      SquareOfProduct(x, y);
      PositiveProduct(x, y, x * y);
      DivideBound(d, x * y);
    }
  }

  lemma RootIs(sqrt: real -> real, x: real)
    requires IsSqrt(sqrt) && x >= 0.0
    ensures IsRoot(sqrt(x), x)
  {
  }

  lemma DotWithin(a: Vector, b: Vector)
    requires |a| == |b|
    ensures SquareWithin(Dot(a, b), Squares(a), Squares(b))
  {
    CauchySchwarz(a, b);
  }

  /** The cosine of any two vectors lies between -1 and 1. */
  lemma CosineBound(sqrt: real -> real, a: Vector, b: Vector)
    requires IsSqrt(sqrt)
    ensures -1.0 <= Cosine(sqrt, a, b) <= 1.0
  {
    if |a| == |b| && |a| > 0 {
      hide Squares, Dot, IsSqrt, Ratio, IsRoot, SquareWithin;
      var A, B := Squares(a), Squares(b);
      RootIs(sqrt, A);
      RootIs(sqrt, B);
      DotWithin(a, b);
      RatioBound(Dot(a, b), A, B, sqrt(A), sqrt(B));
    }
  }

  lemma CosineSymmetric(sqrt: real -> real, a: Vector, b: Vector)
    ensures Cosine(sqrt, a, b) == Cosine(sqrt, b, a)
  {
    if |a| == |b| {
      DotComm(a, b);
    }
  }

  /** A vector that is not zero is as similar to itself as can be. */
  lemma CosineSelf(sqrt: real -> real, a: Vector)
    requires IsSqrt(sqrt)
    ensures Cosine(sqrt, a, a) == if Squares(a) == 0.0 then 0.0 else 1.0
  {
    if |a| > 0 {
      SqrtFacts(sqrt, Squares(a));
      DotSelf(a);
      hide Squares, Dot, IsSqrt;
      var m, s := sqrt(Squares(a)), Dot(a, a);
      if m != 0.0 {
        ProductNonZero(m, m);
        assert Cosine(sqrt, a, a) == s / (m * m);
        Whole(s, m * m);
      }
    }
  }

  lemma Whole(s: real, m: real)
    requires s == m != 0.0
    ensures s / m == 1.0
  {
  }

  // ---------- normalizing ----------

  function Scaled(a: Vector, m: real): (r: Vector)
    requires m != 0.0
    ensures |r| == |a|
    ensures forall i :: 0 <= i < |a| ==> r[i] == a[i] / m
  {
    seq(|a|, i requires 0 <= i < |a| => a[i] / m)
  }

  function Zeros(n: nat): (r: Vector)
    ensures |r| == n && forall i :: 0 <= i < n ==> r[i] == 0.0
  {
    seq(n, _ => 0.0)
  }

  /** `Normalize`: a zero vector stays one. */
  function Normalized(sqrt: real -> real, a: Vector): (r: Vector)
    ensures |r| == |a|
  {
    if |a| == 0 then a
    else
      var m := sqrt(Squares(a));
      if m == 0.0 then Zeros(|a|) else Scaled(a, m)
  }

  lemma {:induction false} DotZeros(a: Vector, b: Vector)
    requires |a| == |b| && (forall i :: 0 <= i < |a| ==> a[i] == 0.0)
    ensures Dot(a, b) == 0.0
  {
    if |a| > 0 {
      DotZeros(a[..|a| - 1], b[..|b| - 1]);
    }
  }

  lemma Quotient(q: real, m: real, d: real)
    requires m != 0.0 && q * m == d
    ensures q == d / m
  {
  }

  lemma QuotientProduct(x: real, y: real, m: real, n: real)
    requires m != 0.0 && n != 0.0 && m * n != 0.0
    ensures (x / m) * (y / n) == (x * y) / (m * n)
  {
    var p, q := x / m, y / n;
    assert p * m == x && q * n == y;
    assert (p * q) * (m * n) == (p * m) * (q * n);
    Quotient(p * q, m * n, x * y);
  }

  lemma QuotientSum(x: real, y: real, m: real)
    requires m != 0.0
    ensures x / m + y / m == (x + y) / m
  {
    var p, q := x / m, y / m;
    assert p * m == x && q * m == y;
    assert (p + q) * m == x + y;
    Quotient(p + q, m, x + y);
  }

  lemma QuotientStep(d: real, x: real, y: real, m: real, n: real)
    requires m != 0.0 && n != 0.0 && m * n != 0.0
    ensures d / (m * n) + (x / m) * (y / n) == (d + x * y) / (m * n)
  {
    QuotientProduct(x, y, m, n);
    QuotientSum(d, x * y, m * n);
  }

  lemma ScaledPrefix(a: Vector, m: real, k: nat)
    requires m != 0.0 && k <= |a|
    ensures Scaled(a, m)[..k] == Scaled(a[..k], m)
  {
  }

  lemma ScaledStep(a: Vector, b: Vector, k: nat, m: real, n: real, d: real, q: real)
    requires k < |a| == |b| && m != 0.0 && n != 0.0 && m * n == q != 0.0
    ensures d / q + Scaled(a, m)[k] * Scaled(b, n)[k] == (d + a[k] * b[k]) / q
  {
    QuotientStep(d, a[k], b[k], m, n);
  }

  lemma DotSnoc(a: Vector, b: Vector, k: nat)
    requires k + 1 == |a| == |b|
    ensures Dot(a, b) == Dot(a[..k], b[..k]) + a[k] * b[k]
  {
  }

  lemma {:induction false} DotScaled(a: Vector, b: Vector, m: real, n: real, q: real)
    requires |a| == |b| && m != 0.0 && n != 0.0 && m * n == q != 0.0
    ensures Dot(Scaled(a, m), Scaled(b, n)) == Dot(a, b) / q
  {
    if |a| == 0 {
      assert Dot(a, b) == 0.0 && Dot(Scaled(a, m), Scaled(b, n)) == 0.0;
    } else {
      hide *;
      var k := |a| - 1;
      ScaledPrefix(a, m, k);
      ScaledPrefix(b, n, k);
      DotScaled(a[..k], b[..k], m, n, q);
      ScaledStep(a, b, k, m, n, Dot(a[..k], b[..k]), q);
      DotSnoc(a, b, k);
      DotSnoc(Scaled(a, m), Scaled(b, n), k);
    }
  }

  /**
   The scalar product of normalized vectors is the cosine of the vectors; zero vectors and vectors of
   different length included.
   */
  lemma NormalizedDotIsCosine(sqrt: real -> real, a: Vector, b: Vector)
    requires IsSqrt(sqrt)
    ensures ScalarProduct(Normalized(sqrt, a), Normalized(sqrt, b)) == Cosine(sqrt, a, b)
  {
    if |a| == |b| && |a| > 0 {
      var m, n := sqrt(Squares(a)), sqrt(Squares(b));
      if m == 0.0 {
        DotZeros(Zeros(|a|), Normalized(sqrt, b));
      } else if n == 0.0 {
        DotComm(Normalized(sqrt, a), Zeros(|b|));
        DotZeros(Zeros(|b|), Normalized(sqrt, a));
      } else {
        ProductNonZero(m, n);
        DotScaled(a, b, m, n, m * n);
      }
    }
  }

  /** The direction stays: the length times the normalized vector is the vector. */
  lemma NormalizedScales(sqrt: real -> real, a: Vector, i: nat)
    requires IsSqrt(sqrt) && i < |a|
    ensures sqrt(Squares(a)) * Normalized(sqrt, a)[i] == a[i]
  {
    hide *;
    SqrtFacts(sqrt, Squares(a));
    NormalizedAt(sqrt, a, i);
    if sqrt(Squares(a)) == 0.0 {
      ZeroEntries(a, i);
    } else {
      TimesQuotient(a[i], sqrt(Squares(a)));
    }
  }

  lemma NormalizedAt(sqrt: real -> real, a: Vector, i: nat)
    requires i < |a|
    ensures Normalized(sqrt, a)[i] == if sqrt(Squares(a)) == 0.0 then 0.0 else a[i] / sqrt(Squares(a))
  {
    hide Squares;
  }

  lemma TimesQuotient(x: real, m: real)
    requires m != 0.0
    ensures m * (x / m) == x
  {
  }

  lemma {:induction false} ZeroEntries(a: Vector, i: nat)
    requires i < |a| && Squares(a) == 0.0
    ensures a[i] == 0.0
  {
    var n := |a| - 1;
    var s := a[n] * a[n];
    if a[n] != 0.0 {
      SquarePositive(a[n], s);
    }
    if i < n {
      ZeroEntries(a[..n], i);
    }
  }

  /** A normalized vector has length 1, unless it is zero. */
  lemma NormalizedIsUnit(sqrt: real -> real, a: Vector)
    requires IsSqrt(sqrt)
    ensures Squares(Normalized(sqrt, a)) == if Squares(a) == 0.0 then 0.0 else 1.0
  {
    DotSelf(Normalized(sqrt, a));
    NormalizedDotIsCosine(sqrt, a, a);
    CosineSelf(sqrt, a);
  }

  // ---------- the loops ----------

  lemma NoTerms(a: Vector, b: Vector)
    ensures Dot(a[..0], b[..0]) == Squares(a[..0]) == Squares(b[..0]) == 0.0
  {
  }

  lemma DotGrows(a: Vector, b: Vector, i: nat)
    requires i < |a| == |b|
    ensures Dot(a[..i + 1], b[..i + 1]) == Dot(a[..i], b[..i]) + a[i] * b[i]
  {
    assert a[..i + 1][..i] == a[..i] && b[..i + 1][..i] == b[..i];
  }

  lemma SquaresGrow(a: Vector, i: nat)
    requires i < |a|
    ensures Squares(a[..i + 1]) == Squares(a[..i]) + a[i] * a[i]
  {
    assert a[..i + 1][..i] == a[..i];
  }

  method CosineSimilarity(sqrt: real -> real, a: Vector, b: Vector) returns (r: real)
    requires IsSqrt(sqrt)
    ensures r == Cosine(sqrt, a, b)
    ensures -1.0 <= r <= 1.0
  {
    CosineBound(sqrt, a, b);
    hide Dot, Squares, IsSqrt, Ratio;
    if |a| != |b| || |a| == 0 {
      return 0.0;
    }
    var dotProduct := 0.0;
    var magA, magB := 0.0, 0.0;
    NoTerms(a, b);
    for i := 0 to |a|
      invariant dotProduct == Dot(a[..i], b[..i])
      invariant magA == Squares(a[..i]) && magB == Squares(b[..i])
    {
      DotGrows(a, b, i);
      SquaresGrow(a, i);
      SquaresGrow(b, i);
      dotProduct := dotProduct + a[i] * b[i];
      magA := magA + a[i] * a[i];
      magB := magB + b[i] * b[i];
    }
    assert a[..|a|] == a && b[..|b|] == b;
    magA := sqrt(magA);
    magB := sqrt(magB);
    if magA == 0.0 || magB == 0.0 {
      RatioZero(dotProduct, magA, magB);
      return 0.0;
    }
    ProductNonZero(magA, magB);
    r := dotProduct / (magA * magB);
    RatioIs(dotProduct, magA, magB, r);
  }

  method CosineDistance(sqrt: real -> real, a: Vector, b: Vector) returns (r: real)
    requires IsSqrt(sqrt)
    ensures 0.0 <= r <= 2.0 && r == 1.0 - Cosine(sqrt, a, b)
  {
    var similarity := CosineSimilarity(sqrt, a, b);
    r := 1.0 - similarity;
  }

  method DotProduct(a: Vector, b: Vector) returns (r: real)
    ensures r == ScalarProduct(a, b)
  {
    if |a| != |b| {
      return 0.0;
    }
    r := 0.0;
    for i := 0 to |a|
      invariant r == Dot(a[..i], b[..i])
    {
      DotGrows(a, b, i);
      r := r + a[i] * b[i];
    }
    assert a[..|a|] == a && b[..|b|] == b;
  }

  method Magnitude(sqrt: real -> real, vector: Vector) returns (r: real)
    requires IsSqrt(sqrt)
    ensures r == sqrt(Squares(vector))
  {
    if |vector| == 0 {
      SqrtFacts(sqrt, 0.0);
      return 0.0;
    }
    var sum := 0.0;
    for i := 0 to |vector|
      invariant sum == Squares(vector[..i])
    {
      SquaresGrow(vector, i);
      sum := sum + vector[i] * vector[i];
    }
    assert vector[..|vector|] == vector;
    r := sqrt(sum);
  }

  method Normalize(sqrt: real -> real, vector: Vector) returns (result: Vector)
    requires IsSqrt(sqrt)
    ensures result == Normalized(sqrt, vector)
    ensures Squares(result) == if Squares(vector) == 0.0 then 0.0 else 1.0
  {
    NormalizedIsUnit(sqrt, vector);
    if |vector| == 0 {
      return vector;
    }
    var magnitude := Magnitude(sqrt, vector);
    if magnitude == 0.0 {
      return Zeros(|vector|);
    }
    result := [];
    for i := 0 to |vector|
      invariant |result| == i
      invariant forall k :: 0 <= k < i ==> result[k] == vector[k] / magnitude
    {
      result := result + [vector[i] / magnitude];
    }
    assert result == Scaled(vector, magnitude);
  }
}
