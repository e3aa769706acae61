/** Cosine similarity of question vectors (cosineSimilarity in backend/internal/services/qa_cache.go), over
    the reals. The square root is a parameter: any function that yields square roots. */
module Similarity {

  function Dot(a: seq<real>, b: seq<real>): real
    requires |a| == |b|
  {
    if a == [] then 0.0 else Dot(a[..|a| - 1], b[..|b| - 1]) + a[|a| - 1] * b[|b| - 1]
  }

  function Norm2(a: seq<real>): real {
    Dot(a, a)
  }

  function Cosine(sqrt: real -> real, a: seq<real>, b: seq<real>): real
    requires IsSquareRoot(sqrt)
  {
    if a == [] || |a| != |b| || Norm2(a) == 0.0 || Norm2(b) == 0.0 then -1.0
    else
      NormsArePositive(sqrt, a, b);
      Ratio(sqrt, Dot(a, b), Norm2(a), Norm2(b))
  }

  function Ratio(sqrt: real -> real, dot: real, normA: real, normB: real): real
    requires sqrt(normA) * sqrt(normB) > 0.0
  {
    dot / (sqrt(normA) * sqrt(normB))
  }

  ghost predicate IsSquareRoot(sqrt: real -> real) {
    forall x: real | x >= 0.0 :: sqrt(x) >= 0.0 && sqrt(x) * sqrt(x) == x
  }

  method CosineSimilarity(sqrt: real -> real, a: seq<real>, b: seq<real>) returns (r: real)
    requires IsSquareRoot(sqrt)
    ensures r == Cosine(sqrt, a, b)
  {
    if a == [] || |a| != |b| {
      return -1.0;
    }
    var dot, normA, normB := 0.0, 0.0, 0.0;
    for i := 0 to |a|
      invariant dot == Dot(a[..i], b[..i]) && normA == Norm2(a[..i]) && normB == Norm2(b[..i])
    {
      assert a[..i + 1][..i] == a[..i] && b[..i + 1][..i] == b[..i];
      dot := dot + a[i] * b[i];
      normA := normA + a[i] * a[i];
      normB := normB + b[i] * b[i];
    }
    assert a[..|a|] == a && b[..|b|] == b;
    assert dot == Dot(a, b) && normA == Norm2(a) && normB == Norm2(b);
    hide Dot, Norm2;
    if normA == 0.0 || normB == 0.0 {
      return -1.0;
    }
    NormsArePositive(sqrt, a, b);
    return Ratio(sqrt, dot, normA, normB);
  }

  lemma {:induction false} NormIsNonNegative(a: seq<real>)
    ensures Norm2(a) >= 0.0
    decreases |a|
  {
    if a != [] {
      NormIsNonNegative(a[..|a| - 1]);
    }
  }

  lemma NormsArePositive(sqrt: real -> real, a: seq<real>, b: seq<real>)
    requires IsSquareRoot(sqrt) && Norm2(a) != 0.0 && Norm2(b) != 0.0
    ensures sqrt(Norm2(a)) > 0.0 && sqrt(Norm2(b)) > 0.0 && sqrt(Norm2(a)) * sqrt(Norm2(b)) > 0.0
  {
    NormIsNonNegative(a);
    NormIsNonNegative(b);
    PositiveRoot(sqrt(Norm2(a)), Norm2(a));
    PositiveRoot(sqrt(Norm2(b)), Norm2(b));
    PositiveProduct(sqrt(Norm2(a)), sqrt(Norm2(b)));
  }

  lemma ZeroSquare(r: real)
    ensures r == 0.0 ==> r * r == 0.0
  {
  }

  lemma PositiveRoot(r: real, x: real)
    requires r >= 0.0 && r * r == x && x > 0.0
    ensures r > 0.0
  {
    ZeroSquare(r);
  }

  lemma PositiveProduct(x: real, y: real)
    requires x > 0.0 && y > 0.0
    ensures x * y > 0.0
  {
  }

  /** p*a + q*b, element by element. */
  function Combine(p: real, a: seq<real>, q: real, b: seq<real>): (r: seq<real>)
    requires |a| == |b|
    ensures |r| == |a|
  {
    seq(|a|, i requires 0 <= i < |a| => p * a[i] + q * b[i])
  }

  lemma CombinePrefix(p: real, a: seq<real>, q: real, b: seq<real>, n: nat)
    requires |a| == |b| && n <= |a|
    ensures Combine(p, a, q, b)[..n] == Combine(p, a[..n], q, b[..n])
  {
    forall i | 0 <= i < n
      ensures Combine(p, a, q, b)[..n][i] == Combine(p, a[..n], q, b[..n])[i]
    {
      assert a[..n][i] == a[i] && b[..n][i] == b[i];
    }
  }

  lemma {:induction false} NormOfCombination(p: real, a: seq<real>, q: real, b: seq<real>)
    requires |a| == |b|
    ensures Norm2(Combine(p, a, q, b)) == p * p * Norm2(a) + 2.0 * p * q * Dot(a, b) + q * q * Norm2(b)
    decreases |a|
  {
    if a != [] {
      var n := |a| - 1;
      NormOfCombination(p, a[..n], q, b[..n]);
      CombinePrefix(p, a, q, b, n);
      Expand(p, a[n], q, b[n], Norm2(a[..n]), Dot(a[..n], b[..n]), Norm2(b[..n]));
    }
  }

  lemma Expand(p: real, x: real, q: real, y: real, a: real, d: real, b: real)
    ensures (p * p * a + 2.0 * p * q * d + q * q * b) + (p * x + q * y) * (p * x + q * y)
         == p * p * (a + x * x) + 2.0 * p * q * (d + x * y) + q * q * (b + y * y)
  {
  }

  /** Cauchy-Schwarz. */
  lemma CauchySchwarz(a: seq<real>, b: seq<real>)
    requires |a| == |b| && Norm2(b) != 0.0
    ensures Dot(a, b) * Dot(a, b) <= Norm2(a) * Norm2(b)
  {
    var n, m, d := Norm2(a), Norm2(b), Dot(a, b);
    NormOfCombination(m, a, -d, b);
    NormIsNonNegative(Combine(m, a, -d, b));
    NormIsNonNegative(b);
    Rearrange(n, m, d);
    if n * m - d * d < 0.0 {
      PositiveProduct(m, d * d - n * m);
    }
  }

  lemma Rearrange(n: real, m: real, d: real)
    ensures m * m * n + 2.0 * m * (-d) * d + (-d) * (-d) * m == m * (n * m - d * d)
  {
  }

  lemma BoundedBySquares(d: real, r: real)
    requires r > 0.0 && d * d <= r * r
    ensures -r <= d <= r
  {
    if d > r {
      PositiveProduct(d - r, d + r);
    } else if d < -r {
      PositiveProduct(-d - r, r - d);
    }
  }

  lemma QuotientInUnit(d: real, r: real)
    requires r > 0.0 && -r <= d <= r
    ensures -1.0 <= d / r <= 1.0
  {
  }

  lemma SquareOfProduct(x: real, y: real, n: real, m: real)
    requires x * x == n && y * y == m
    ensures (x * y) * (x * y) == n * m
  {
    assert (x * y) * (x * y) == (x * x) * (y * y);
  }

  /** The similarity of any two vectors lies between -1 and 1. */
  lemma CosineIsBounded(sqrt: real -> real, a: seq<real>, b: seq<real>)
    requires IsSquareRoot(sqrt)
    ensures -1.0 <= Cosine(sqrt, a, b) <= 1.0
  {
    if a != [] && |a| == |b| && Norm2(a) != 0.0 && Norm2(b) != 0.0 {
      var x, y := sqrt(Norm2(a)), sqrt(Norm2(b));
      NormsArePositive(sqrt, a, b);
      NormIsNonNegative(a);
      NormIsNonNegative(b);
      CauchySchwarz(a, b);
      SquareOfProduct(x, y, Norm2(a), Norm2(b));
      BoundedBySquares(Dot(a, b), x * y);
      QuotientInUnit(Dot(a, b), x * y);
    }
  }

  /** A vector other than zero is as similar to itself as can be. */
  lemma CosineOfItself(sqrt: real -> real, a: seq<real>)
    requires IsSquareRoot(sqrt) && Norm2(a) != 0.0
    ensures Cosine(sqrt, a, a) == 1.0
  {
    NormsArePositive(sqrt, a, a);
    NormIsNonNegative(a);
    DividedByItself(Norm2(a), sqrt(Norm2(a)) * sqrt(Norm2(a)));
  }

  lemma DividedByItself(x: real, y: real)
    requires x == y && y != 0.0
    ensures x / y == 1.0
  {
  }

  // ----- What the cosine means -----

  /** The squares, added from the first on. */
  function SumOfSquares(a: seq<real>): real {
    if a == [] then 0.0 else a[0] * a[0] + SumOfSquares(a[1..])
  }

  lemma {:induction false} SquaresGrow(a: seq<real>, x: real)
    ensures SumOfSquares(a + [x]) == SumOfSquares(a) + x * x
    decreases |a|
  {
    if a == [] {
      assert [x][1..] == [];
    } else {
      assert (a + [x])[1..] == a[1..] + [x];
      SquaresGrow(a[1..], x);
    }
  }

  lemma {:induction false} NormIsSumOfSquares(a: seq<real>)
    ensures Norm2(a) == SumOfSquares(a)
    decreases |a|
  {
    if a != [] {
      var n := |a| - 1;
      NormIsSumOfSquares(a[..n]);
      SquaresGrow(a[..n], a[n]);
      assert a[..n] + [a[n]] == a;
    }
  }

  /** The cosine of two non-zero vectors of one length, times their norms, is their dot product; of others it is -1. */
  lemma CosineMeans(sqrt: real -> real, a: seq<real>, b: seq<real>)
    requires IsSquareRoot(sqrt)
    ensures if |a| == |b| && SumOfSquares(a) != 0.0 && SumOfSquares(b) != 0.0 then
              Cosine(sqrt, a, b) * (sqrt(SumOfSquares(a)) * sqrt(SumOfSquares(b))) == Dot(a, b)
            else Cosine(sqrt, a, b) == -1.0
  {
    hide Dot, SumOfSquares, Norm2, IsSquareRoot, Ratio;
    NormIsSumOfSquares(a);
    NormIsSumOfSquares(b);
    if |a| == |b| && SumOfSquares(a) != 0.0 && SumOfSquares(b) != 0.0 {
      EmptyNorm(a);
      NormsArePositive(sqrt, a, b);
      RatioTimes(sqrt, Dot(a, b), Norm2(a), Norm2(b));
    }
  }

  lemma EmptyNorm(a: seq<real>)
    ensures a == [] ==> SumOfSquares(a) == 0.0
  {
  }

  lemma RatioTimes(sqrt: real -> real, dot: real, normA: real, normB: real)
    requires sqrt(normA) * sqrt(normB) > 0.0
    ensures Ratio(sqrt, dot, normA, normB) * (sqrt(normA) * sqrt(normB)) == dot
  {
    QuotientTimes(sqrt(normA) * sqrt(normB), dot);
  }

  lemma QuotientTimes(d: real, x: real)
    requires d > 0.0
    ensures x / d * d == x
  {
  }
}
