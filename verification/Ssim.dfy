/**
 Ssim8x8_C of libyuv's compare.cc up to its final division: the integer numerator and
 denominator of the structural similarity of two blocks of 8 by 8 bytes.
 */
module Ssim {
  import opened MachineInts
  import opened Planes
  import opened Products

  const CC1 := 26634
  const CC2 := 239708
  const COUNT := 64

  /** The constants scaled by the number of pixels: (cc * count * count) >> 12. */
  const C1 := CC1 * COUNT * COUNT / 4096
  const C2 := CC2 * COUNT * COUNT / 4096

  predicate FitsInt64(x: int) {
    -0x8000_0000_0000_0000 <= x <= 0x7fff_ffff_ffff_ffff
  }

  function Sum(x: seq<int>): int {
    if x == [] then 0 else Sum(x[..|x| - 1]) + x[|x| - 1]
  }

  function Dot(x: seq<int>, y: seq<int>): int
    requires |x| == |y|
  {
    if x == [] then 0 else Dot(x[..|x| - 1], y[..|y| - 1]) + x[|x| - 1] * y[|y| - 1]
  }

  // ---------------------------------------------------------------------------
  // The kernel
  // ---------------------------------------------------------------------------

  /** The first k pixels of a block, row by row. */
  ghost function Pixels(a: array<uchar>, offset: int, stride: int, k: nat): (s: seq<int>)
    requires PlaneIn(a.Length, offset, stride, 8, 8) && k <= 64
    reads a
    ensures |s| == k
    ensures forall i :: 0 <= i < k ==> 0 <= s[i] <= 255
  {
    if k == 0 then []
    else
      assert 0 <= RowAt(offset, stride, (k - 1) / 8);
      Pixels(a, offset, stride, k - 1) + [a[RowAt(offset, stride, (k - 1) / 8) + (k - 1) % 8]]
  }

  lemma PixelsGrow(a: array<uchar>, offset: int, stride: int, i: nat, j: nat)
    requires PlaneIn(a.Length, offset, stride, 8, 8) && i < 8 && j < 8
    ensures 0 <= RowAt(offset, stride, i) && RowAt(offset, stride, i) + j < a.Length
    ensures Pixels(a, offset, stride, 8 * i + j + 1)
            == Pixels(a, offset, stride, 8 * i + j) + [a[RowAt(offset, stride, i) + j]]
  {
    assert (8 * i + j) / 8 == i && (8 * i + j) % 8 == j;
  }

  /** Pixel j of row i is the byte i strides and j columns on. */
  lemma PixelOf(a: array<uchar>, offset: int, stride: int, k: nat, i: nat, j: nat)
    requires PlaneIn(a.Length, offset, stride, 8, 8) && k <= 64 && i < 8 && j < 8 && 8 * i + j < k
    ensures 0 <= offset + i * stride + j < a.Length
    ensures Pixels(a, offset, stride, k)[8 * i + j] == a[offset + i * stride + j]
  {
    assert RowAt(offset, stride, i) == offset + i * stride;
    if k == 8 * i + j + 1 {
      PixelsGrow(a, offset, stride, i, j);
    } else {
      PixelOf(a, offset, stride, k - 1, i, j);
    }
  }

  lemma SumsGrow(x: seq<int>, y: seq<int>, u: int, v: int)
    requires |x| == |y|
    ensures Sum(x + [u]) == Sum(x) + u
    ensures Dot(x + [u], y + [v]) == Dot(x, y) + u * v
  {
    assert (x + [u])[..|x|] == x && (y + [v])[..|y|] == y;
  }

  function Numerator(x: seq<int>, y: seq<int>): int
    requires |x| == |y|
  {
    (2 * (Sum(x) * Sum(y)) + C1) * (2 * COUNT * Dot(x, y) - 2 * (Sum(x) * Sum(y)) + C2)
  }

  function Denominator(x: seq<int>, y: seq<int>): int
    requires |x| == |y|
  {
    (Sum(x) * Sum(x) + Sum(y) * Sum(y) + C1)
    * (COUNT * Dot(x, x) - Sum(x) * Sum(x) + COUNT * Dot(y, y) - Sum(y) * Sum(y) + C2)
  }

  /** The five running sums over the first k pixels. */
  ghost predicate SumsOf(x: seq<int>, y: seq<int>, sumA: int, sumB: int, sumSqA: int, sumSqB: int, sumAxB: int)
    requires |x| == |y|
  {
    sumA == Sum(x) && sumB == Sum(y) && sumSqA == Dot(x, x) && sumSqB == Dot(y, y) && sumAxB == Dot(x, y)
  }

  /** Ssim8x8_C: the two integers it divides */
  method Ssim8x8(srcA: array<uchar>, offsetA: int, strideA: int, srcB: array<uchar>, offsetB: int, strideB: int)
    returns (ssimN: int, ssimD: int)
    requires PlaneIn(srcA.Length, offsetA, strideA, 8, 8) && PlaneIn(srcB.Length, offsetB, strideB, 8, 8)
    ensures var x, y := Pixels(srcA, offsetA, strideA, 64), Pixels(srcB, offsetB, strideB, 64);
            && ssimN == Numerator(x, y) && ssimD == Denominator(x, y)
            && 0 < ssimD && -ssimD <= ssimN <= ssimD && (ssimN == ssimD <==> x == y)
    ensures var x, y := Pixels(srcA, offsetA, strideA, 64), Pixels(srcB, offsetB, strideB, 64);
            && ssimN as real / ssimD as real == Similarity(x, y)
            && (Uniform(x) && Uniform(y) ==>
                  ssimN * (4096 * (x[0] * x[0] + y[0] * y[0]) + 26634) == ssimD * (8192 * (x[0] * y[0]) + 26634))
            && (Sum(x) == Sum(y) ==>
                  ssimN * (64 * Dot(x, x) + 64 * Dot(y, y) - 2 * (Sum(x) * Sum(x)) + 239708)
                  == ssimD * (128 * Dot(x, y) - 2 * (Sum(x) * Sum(x)) + 239708))
  {
    hide Pixels, SumsOf, Sum, Dot, Numerator, Denominator, RowAt, Similarity, Uniform;
    var sumA: int, sumB: int, sumSqA: int, sumSqB: int, sumAxB: int := 0, 0, 0, 0, 0;
    var a, b := offsetA, offsetB;
    NoPixels(srcA, offsetA, strideA, srcB, offsetB, strideB);
    for i := 0 to 8
      invariant a == RowAt(offsetA, strideA, i) && b == RowAt(offsetB, strideB, i)
      invariant SumsOf(Pixels(srcA, offsetA, strideA, 8 * i), Pixels(srcB, offsetB, strideB, 8 * i),
                       sumA, sumB, sumSqA, sumSqB, sumAxB)
    {
      for j := 0 to 8
        invariant SumsOf(Pixels(srcA, offsetA, strideA, 8 * i + j), Pixels(srcB, offsetB, strideB, 8 * i + j),
                         sumA, sumB, sumSqA, sumSqB, sumAxB)
      {
        PixelsGrow(srcA, offsetA, strideA, i, j);
        PixelsGrow(srcB, offsetB, strideB, i, j);
        var u: int, v: int := srcA[a + j], srcB[b + j];
        AllSumsGrow(Pixels(srcA, offsetA, strideA, 8 * i + j), Pixels(srcB, offsetB, strideB, 8 * i + j),
                    u, v, sumA, sumB, sumSqA, sumSqB, sumAxB);
        sumA := sumA + u;
        sumB := sumB + v;
        sumSqA := sumSqA + u * u;
        sumSqB := sumSqB + v * v;
        sumAxB := sumAxB + u * v;
      }
      NextRow(offsetA, strideA, i);
      NextRow(offsetB, strideB, i);
      a := a + strideA;
      b := b + strideB;
    }
    ghost var x, y := Pixels(srcA, offsetA, strideA, 64), Pixels(srcB, offsetB, strideB, 64);
    var sumAxSumB := sumA * sumB;
    ssimN := (2 * sumAxSumB + C1) * (2 * COUNT * sumAxB - 2 * sumAxSumB + C2);
    var sumASq := sumA * sumA;
    var sumBSq := sumB * sumB;
    ssimD := (sumASq + sumBSq + C1) * (COUNT * sumSqA - sumASq + COUNT * sumSqB - sumBSq + C2);
    FinalSums(x, y, sumA, sumB, sumSqA, sumSqB, sumAxB);
    SsimBounds(x, y);
    QuotientIsSimilarity(x, y);
    UniformBlocks(x, y);
    EqualSums(x, y);
  }

  lemma NoPixels(srcA: array<uchar>, offsetA: int, strideA: int, srcB: array<uchar>, offsetB: int, strideB: int)
    requires PlaneIn(srcA.Length, offsetA, strideA, 8, 8) && PlaneIn(srcB.Length, offsetB, strideB, 8, 8)
    ensures SumsOf(Pixels(srcA, offsetA, strideA, 0), Pixels(srcB, offsetB, strideB, 0), 0, 0, 0, 0, 0)
    ensures RowAt(offsetA, strideA, 0) == offsetA && RowAt(offsetB, strideB, 0) == offsetB
  {
  }

  lemma AllSumsGrow(x: seq<int>, y: seq<int>, u: int, v: int, sumA: int, sumB: int, sumSqA: int, sumSqB: int,
                    sumAxB: int)
    requires |x| == |y| && SumsOf(x, y, sumA, sumB, sumSqA, sumSqB, sumAxB)
    ensures SumsOf(x + [u], y + [v], sumA + u, sumB + v, sumSqA + u * u, sumSqB + v * v, sumAxB + u * v)
  {
    SumsGrow(x, y, u, v);
    SumsGrow(x, x, u, u);
    SumsGrow(y, y, v, v);
  }

  lemma FinalSums(x: seq<int>, y: seq<int>, sumA: int, sumB: int, sumSqA: int, sumSqB: int, sumAxB: int)
    requires |x| == |y| && SumsOf(x, y, sumA, sumB, sumSqA, sumSqB, sumAxB)
    ensures Numerator(x, y) == (2 * (sumA * sumB) + C1) * (2 * COUNT * sumAxB - 2 * (sumA * sumB) + C2)
    ensures Denominator(x, y)
            == (sumA * sumA + sumB * sumB + C1) * (COUNT * sumSqA - sumA * sumA + COUNT * sumSqB - sumB * sumB + C2)
  {
  }

  // ---------------------------------------------------------------------------
  // Cauchy-Schwarz, for a sequence and the constant one
  // ---------------------------------------------------------------------------

  /** |x| times the sum of squares, less the square of the sum. */
  function Variance(x: seq<int>): int {
    |x| * Dot(x, x) - Sum(x) * Sum(x)
  }

  /** Sum of the squared distances from v. */
  function Spread(x: seq<int>, v: int): nat {
    if x == [] then 0 else Spread(x[..|x| - 1], v) + Square(x[|x| - 1] - v)
  }

  lemma {:induction false} SpreadExpands(x: seq<int>, v: int)
    ensures Spread(x, v) == Dot(x, x) - 2 * v * Sum(x) + |x| * (v * v)
  {
    if x != [] {
      var n := |x| - 1;
      SpreadExpands(x[..n], v);
      var u, s, q := x[n], Sum(x[..n]), Dot(x[..n], x[..n]);
      assert Spread(x, v) == Spread(x[..n], v) + Square(u - v);
      assert Sum(x) == s + u && Dot(x, x) == q + u * u;
      hide Sum, Dot, Spread, Square;
      SpreadStep(n, s, q, u, v);
    }
  }

  lemma SpreadStep(n: int, s: int, q: int, u: int, v: int)
    ensures q - 2 * v * s + n * (v * v) + Square(u - v) == (q + u * u) - 2 * v * (s + u) + (n + 1) * (v * v)
  {
    assert Square(u - v) == u * u - 2 * v * u + v * v;
    assert 2 * v * (s + u) == 2 * v * s + 2 * v * u;
  }

  lemma {:induction false} SpreadZero(x: seq<int>, v: int)
    ensures Spread(x, v) == 0 <==> forall i :: 0 <= i < |x| ==> x[i] == v
  {
    if x != [] {
      var n := |x| - 1;
      SpreadZero(x[..n], v);
      assert Square(x[n] - v) == 0 <==> x[n] == v by { SquareZero(x[n] - v); }
      assert forall i :: 0 <= i < n ==> x[..n][i] == x[i];
    }
  }

  lemma SquareZero(d: int)
    ensures Square(d) == 0 <==> d == 0
  {
    if d > 0 {
      assert d * d >= d;
    } else if d < 0 {
      assert (-d) * (-d) == d * d && (-d) * (-d) >= -d;
    }
  }

  /** The variance is never negative, and zero exactly for a constant sequence. */
  lemma {:induction false} VarianceNonNegative(x: seq<int>)
    ensures Variance(x) >= 0
    ensures Variance(x) == 0 <==> forall i, j :: 0 <= i < j < |x| ==> x[i] == x[j]
  {
    if x != [] {
      var n := |x| - 1;
      var w, v := x[..n], x[n];
      VarianceNonNegative(w);
      VarianceGrows(w, v);
      SpreadZero(w, v);
      assert x == w + [v];
    }
  }

  lemma VarianceGrows(w: seq<int>, v: int)
    ensures Variance(w + [v]) == Variance(w) + Spread(w, v)
  {
    var n, q, s := |w|, Dot(w, w), Sum(w);
    SumsGrow(w, w, v, v);
    SpreadExpands(w, v);
    hide Sum, Dot, Spread;
    SquareOfSum(s, v);
    ProductOfSums(n, q, v * v);
  }

  lemma SquareOfSum(s: int, v: int)
    ensures (s + v) * (s + v) == s * s + 2 * v * s + v * v
  {
  }

  lemma ProductOfSums(n: int, q: int, w: int)
    ensures (n + 1) * (q + w) == n * q + n * w + q + w
  {
  }

  /** The sequence x + k * y, for k one or minus one. */
  function Combine(x: seq<int>, y: seq<int>, k: int): (d: seq<int>)
    requires |x| == |y|
    ensures |d| == |x| && forall i :: 0 <= i < |x| ==> d[i] == x[i] + k * y[i]
  {
    seq(|x|, i requires 0 <= i < |x| && |x| == |y| => x[i] + k * y[i])
  }

  lemma {:induction false} CombineSums(x: seq<int>, y: seq<int>, k: int)
    requires |x| == |y| && (k == 1 || k == -1)
    ensures var d := Combine(x, y, k);
            Sum(d) == Sum(x) + k * Sum(y) && Dot(d, d) == Dot(x, x) + 2 * k * Dot(x, y) + Dot(y, y)
    decreases |x|
  {
    if x != [] {
      var n := |x| - 1;
      var d := Combine(x, y, k);
      CombineSums(x[..n], y[..n], k);
      assert d[..n] == Combine(x[..n], y[..n], k);
      var u, v := x[n], y[n];
      SquareOfCombined(u, v, k);
    }
  }

  lemma SquareOfCombined(u: int, v: int, k: int)
    requires k == 1 || k == -1
    ensures (u + k * v) * (u + k * v) == u * u + 2 * k * (u * v) + v * v
  {
    if k == 1 {
      SquareOfSum(u, v);
    } else {
      assert (u - v) * (u - v) == u * u - 2 * (u * v) + v * v;
    }
  }

  // ---------------------------------------------------------------------------
  // The bounds
  // ---------------------------------------------------------------------------

  lemma {:induction false} SumBounds(x: seq<int>)
    requires forall i :: 0 <= i < |x| ==> 0 <= x[i] <= 255
    ensures 0 <= Sum(x) <= 255 * |x| && 0 <= Dot(x, x) <= 65025 * |x|
  {
    if x != [] {
      var v := x[|x| - 1];
      SumBounds(x[..|x| - 1]);
      assert 0 <= v * v <= 255 * 255 by { SquareBound(v); }
    }
  }

  lemma {:induction false} CrossBound(x: seq<int>, y: seq<int>)
    requires |x| == |y|
    requires (forall i :: 0 <= i < |x| ==> 0 <= x[i] <= 255) && forall i :: 0 <= i < |y| ==> 0 <= y[i] <= 255
    ensures 0 <= Dot(x, y) <= 65025 * |x|
  {
    if x != [] {
      var u, v := x[|x| - 1], y[|y| - 1];
      CrossBound(x[..|x| - 1], y[..|y| - 1]);
      assert 0 <= u * v <= 255 * 255 by { ProductBound(u, v); }
    }
  }

  lemma ProductBound(u: int, v: int)
    requires 0 <= u <= 255 && 0 <= v <= 255
    ensures 0 <= u * v <= 65025
  {
    Monotone(u, v, 255);
    Monotone(255, u, 255);
    Monotone(u, 0, v);
  }

  /** Covariance, doubled, is at most the sum of the variances. */
  lemma CovarianceBound(x: seq<int>, y: seq<int>)
    requires |x| == |y| == 64
    ensures var c := COUNT * Dot(x, y) - Sum(x) * Sum(y);
            && -(Variance(x) + Variance(y)) <= 2 * c <= Variance(x) + Variance(y)
            && Variance(Combine(x, y, -1)) == Variance(x) + Variance(y) - 2 * c
  {
    var d, e := Combine(x, y, -1), Combine(x, y, 1);
    CombineSums(x, y, -1);
    CombineSums(x, y, 1);
    VarianceNonNegative(d);
    VarianceNonNegative(e);
    hide Sum, Dot, Combine;
    CovarianceArithmetic(Sum(x), Sum(y), Dot(x, x), Dot(x, y), Dot(y, y));
  }

  lemma CovarianceArithmetic(a: int, b: int, p: int, q: int, r: int)
    ensures 64 * (p - 2 * q + r) - (a - b) * (a - b) == (64 * p - a * a) + (64 * r - b * b) - 2 * (64 * q - a * b)
    ensures 64 * (p + 2 * q + r) - (a + b) * (a + b) == (64 * p - a * a) + (64 * r - b * b) + 2 * (64 * q - a * b)
  {
    SquareOfDifference(a, b);
    SquareOfSum(a, b);
  }

  lemma SquareOfDifference(a: int, b: int)
    ensures (a - b) * (a - b) == a * a - 2 * (a * b) + b * b && (a - b) * (a - b) >= 0
    ensures (a - b) * (a - b) == 0 <==> a == b
    ensures (a + -1 * b) == a - b
  {
    SquareZero(a - b);
  }

  /** A product of two quotients at most one is at most one, and one only if both are. */
  lemma ProductOfFractions(n1: int, d1: int, n2: int, d2: int)
    requires 0 < n1 <= d1 && -d2 <= n2 <= d2 && 0 < d2
    ensures 0 < d1 * d2 && -(d1 * d2) <= n1 * n2 <= d1 * d2
    ensures n1 * n2 == d1 * d2 <==> n1 == d1 && n2 == d2
  {
    Monotone(d2, 1, d1);
    Monotone(n1, n2, d2);
    Monotone(n1, -d2, n2);
    Monotone(d2, n1, d1);
    OppositeProduct(n1, d2);
    if n1 < d1 {
      LessProduct(d2, n1, d1);
    } else if n2 < d2 {
      LessProduct(n1, n2, d2);
    }
  }

  lemma OppositeProduct(a: int, b: int)
    ensures a * (-b) == -(a * b) == (-b) * a && a * b == b * a
  {
  }

  lemma LessProduct(k: int, a: int, b: int)
    requires k > 0 && a < b
    ensures k * a < k * b && a * k < b * k
  {
  }

  /** A block of bytes. */
  ghost predicate IsBlock(x: seq<int>) {
    |x| == 64 && forall i :: 0 <= i < 64 ==> 0 <= x[i] <= 255
  }

  /** The factors that numerator and denominator multiply. */
  lemma FactorBounds(x: seq<int>, y: seq<int>)
    requires IsBlock(x) && IsBlock(y)
    ensures var n1 := 2 * (Sum(x) * Sum(y)) + C1;
            var n2 := 2 * COUNT * Dot(x, y) - 2 * (Sum(x) * Sum(y)) + C2;
            var d1 := Sum(x) * Sum(x) + Sum(y) * Sum(y) + C1;
            var d2 := COUNT * Dot(x, x) - Sum(x) * Sum(x) + COUNT * Dot(y, y) - Sum(y) * Sum(y) + C2;
            && 0 < n1 <= d1 <= 600_000_000 && -d2 <= n2 <= d2 && 0 < d2 <= 600_000_000
            && (n1 == d1 <==> Sum(x) == Sum(y))
            && (n2 == d2 <==> Variance(Combine(x, y, -1)) == 0)
  {
    SumBounds(x);
    SumBounds(y);
    CovarianceBound(x, y);
    VarianceNonNegative(x);
    VarianceNonNegative(y);
    hide Sum, Dot, Combine;
    FactorArithmetic(Sum(x), Sum(y), Dot(x, x), Dot(x, y), Dot(y, y));
  }

  /** The same, on the five sums */
  lemma FactorArithmetic(a: int, b: int, p: int, q: int, r: int)
    requires 0 <= a <= 16320 && 0 <= b <= 16320 && 0 <= p <= 64 * 65025 && 0 <= r <= 64 * 65025
    requires var c := 64 * q - a * b;
             && 64 * p - a * a >= 0 && 64 * r - b * b >= 0
             && -((64 * p - a * a) + (64 * r - b * b)) <= 2 * c <= (64 * p - a * a) + (64 * r - b * b)
    ensures var n1, d1 := 2 * (a * b) + C1, a * a + b * b + C1;
            var n2, d2 := 128 * q - 2 * (a * b) + C2, 64 * p - a * a + 64 * r - b * b + C2;
            && 0 < n1 <= d1 <= 600_000_000 && -d2 <= n2 <= d2 && 0 < d2 <= 600_000_000
            && (n1 == d1 <==> a == b)
            && (n2 == d2 <==> (64 * p - a * a) + (64 * r - b * b) - 2 * (64 * q - a * b) == 0)
  {
    SquareOfDifference(a, b);
    SumsProductBound(a, a);
    SumsProductBound(b, b);
    SumsProductBound(a, b);
  }

  /** For every two blocks the quotient that Ssim8x8_C returns is at least -1 and at most 1, its denominator is never
      zero, and it is 1 exactly for identical blocks. */
  lemma SsimBounds(x: seq<int>, y: seq<int>)
    requires IsBlock(x) && IsBlock(y)
    ensures Denominator(x, y) > 0
    ensures -Denominator(x, y) <= Numerator(x, y) <= Denominator(x, y)
    ensures Numerator(x, y) == Denominator(x, y) <==> x == y
  {
    FactorBounds(x, y);
    var d := Combine(x, y, -1);
    CombineSums(x, y, -1);
    VarianceNonNegative(d);
    hide Variance, Dot;
    var n1 := 2 * (Sum(x) * Sum(y)) + C1;
    var n2 := 2 * COUNT * Dot(x, y) - 2 * (Sum(x) * Sum(y)) + C2;
    var d1 := Sum(x) * Sum(x) + Sum(y) * Sum(y) + C1;
    var d2 := COUNT * Dot(x, x) - Sum(x) * Sum(x) + COUNT * Dot(y, y) - Sum(y) * Sum(y) + C2;
    ProductOfFractions(n1, d1, n2, d2);
    if n1 == d1 && n2 == d2 {
      ConstantSum(d, d[0]);
      assert forall i :: 0 <= i < 64 ==> d[i] == 0;
      assert forall i :: 0 <= i < 64 ==> x[i] == y[i];
    }
  }

  lemma {:induction false} ConstantSum(x: seq<int>, v: int)
    requires forall i :: 0 <= i < |x| ==> x[i] == v
    ensures Sum(x) == |x| * v
  {
    if x != [] {
      ConstantSum(x[..|x| - 1], v);
      assert |x| * v == (|x| - 1) * v + v;
    }
  }

  // ---------------------------------------------------------------------------
  // The quotient is the structural similarity
  // ---------------------------------------------------------------------------

  function Mean(x: seq<int>): real {
    Sum(x) as real / 64.0
  }

  function MeanProduct(x: seq<int>, y: seq<int>): real {
    Mean(x) * Mean(y)
  }

  /** Product of the distances of u from a and of v from b. */
  function Deviation(u: int, v: int, a: real, b: real): real {
    (u as real - a) * (v as real - b)
  }

  function Deviations(x: seq<int>, y: seq<int>, a: real, b: real): real
    requires |x| == |y|
  {
    if x == [] then 0.0
    else Deviations(x[..|x| - 1], y[..|y| - 1], a, b) + Deviation(x[|x| - 1], y[|y| - 1], a, b)
  }

  /** The mean product of the distances from the means: of a block with itself, its variance */
  function Covariance(x: seq<int>, y: seq<int>): real
    requires |x| == |y|
  {
    Deviations(x, y, Mean(x), Mean(y)) / 64.0
  }

  /** 0.01 and 0.03 of the largest pixel, squared, rounded down to a multiple of 1 / 4096. */
  const K1 := 26634.0 / 4096.0
  const K2 := 239708.0 / 4096.0

  /** The index of structural similarity, by its definition. */
  function Similarity(x: seq<int>, y: seq<int>): real
    requires |x| == |y|
  {
    var d := (MeanProduct(x, x) + MeanProduct(y, y) + K1) * (Covariance(x, x) + Covariance(y, y) + K2);
    if d == 0.0 then 0.0 else (2.0 * MeanProduct(x, y) + K1) * (2.0 * Covariance(x, y) + K2) / d
  }

  lemma ConstantsRounded()
    ensures 26634 * 10000 <= 4096 * (255 * 255) < 26635 * 10000
    ensures 239708 * 10000 <= 4096 * (9 * 255 * 255) < 239709 * 10000
    ensures CC1 == 26634 && CC2 == 239708 && C1 == CC1 && C2 == CC2
    ensures K1 <= 2.55 * 2.55 < K1 + 1.0 / 4096.0 && K2 <= 7.65 * 7.65 < K2 + 1.0 / 4096.0
  {
  }

  /** The sum of deviations from the sum of products, the two sums and the number of pairs */
  function Expanded(q: int, s: int, t: int, n: int, a: real, b: real): real {
    q as real - b * s as real - a * t as real + n as real * (a * b)
  }

  lemma {:induction false} DeviationsExpand(x: seq<int>, y: seq<int>, a: real, b: real)
    requires |x| == |y|
    ensures Deviations(x, y, a, b) == Expanded(Dot(x, y), Sum(x), Sum(y), |x|, a, b)
    decreases |x|
  {
    hide Deviation, Expanded;
    if x != [] {
      var n := |x| - 1;
      DeviationsExpand(x[..n], y[..n], a, b);
      ExpandStep(Dot(x[..n], y[..n]), Sum(x[..n]), Sum(y[..n]), n, x[n], y[n], a, b);
    } else {
      ExpandNothing(a, b);
    }
  }

  lemma ExpandNothing(a: real, b: real)
    ensures Expanded(0, 0, 0, 0, a, b) == 0.0
  {
  }

  lemma ExpandStep(q: int, s: int, t: int, n: int, u: int, v: int, a: real, b: real)
    ensures Expanded(q, s, t, n, a, b) + Deviation(u, v, a, b) == Expanded(q + u * v, s + u, t + v, n + 1, a, b)
  {
    RealProduct(u, v);
    DeviationExpands(u as real, v as real, a, b);
    Distribute(b, s as real, u as real);
    Distribute(a, t as real, v as real);
    Distribute(a * b, n as real, 1.0);
  }

  lemma DeviationExpands(u: real, v: real, a: real, b: real)
    ensures (u - a) * (v - b) == u * v - b * u - a * v + a * b
  {
  }

  lemma Distribute(k: real, m: real, n: real)
    ensures k * (m + n) == k * m + k * n == (m + n) * k && m * k == k * m
  {
  }

  lemma RealProduct(m: int, n: int)
    ensures (m * n) as real == m as real * n as real
  {
  }

  /** Scaled by the square of the number of pixels, means and covariances are the integers of the code. */
  lemma Scaled(x: seq<int>, y: seq<int>)
    requires |x| == |y| == 64
    ensures 4096.0 * MeanProduct(x, y) == SumProduct(x, y) as real
    ensures 4096.0 * Covariance(x, y) == (64 * Dot(x, y) - SumProduct(x, y)) as real
  {
    DeviationsExpand(x, y, Mean(x), Mean(y));
    assert Covariance(x, y) == Deviations(x, y, Mean(x), Mean(y)) / 64.0;
    hide Deviations, Sum, Dot, Covariance;
    RealProduct(Sum(x), Sum(y));
    ScaledArithmetic(Sum(x) as real, Sum(y) as real, Mean(x), Mean(y));
  }

  function SumProduct(x: seq<int>, y: seq<int>): int {
    Sum(x) * Sum(y)
  }

  lemma ScaledArithmetic(s: real, t: real, a: real, b: real)
    requires a == s / 64.0 && b == t / 64.0
    ensures 4096.0 * (a * b) == s * t && 64.0 * (b * s) == s * t && 64.0 * (a * t) == s * t
  {
    assert s == 64.0 * a && t == 64.0 * b;
    assert s * t == (64.0 * a) * (64.0 * b) == 4096.0 * (a * b);
    assert b * s == 64.0 * (a * b) && a * t == 64.0 * (a * b);
  }

  /** What Ssim8x8_C divides are the two sides of the definition, scaled alike. */
  lemma QuotientIsSimilarity(x: seq<int>, y: seq<int>)
    requires IsBlock(x) && IsBlock(y)
    ensures Denominator(x, y) > 0 && Numerator(x, y) as real / Denominator(x, y) as real == Similarity(x, y)
  {
    SsimBounds(x, y);
    hide Similarity, Numerator, Denominator;
    var a, b, c, d := Factors(x, y);
    SameQuotient(a, b, c, d, Numerator(x, y) as real, Denominator(x, y) as real);
  }

  /** The factors of the definition */
  lemma Factors(x: seq<int>, y: seq<int>) returns (a: real, b: real, c: real, d: real)
    requires |x| == |y| == 64
    ensures Similarity(x, y) == if c * d == 0.0 then 0.0 else a * b / (c * d)
    ensures Numerator(x, y) as real == (4096.0 * a) * (4096.0 * b)
    ensures Denominator(x, y) as real == (4096.0 * c) * (4096.0 * d)
  {
    hide Sum, Dot, MeanProduct, SumProduct, Covariance;
    a, b := 2.0 * MeanProduct(x, y) + K1, 2.0 * Covariance(x, y) + K2;
    c, d := MeanProduct(x, x) + MeanProduct(y, y) + K1, Covariance(x, x) + Covariance(y, y) + K2;
    SimilarityIs(x, y, a, b, c, d);
    hide Similarity, Numerator, Denominator;
    NumeratorScaled(x, y);
    DenominatorScaled(x, y);
  }

  lemma NumeratorScaled(x: seq<int>, y: seq<int>)
    requires |x| == |y| == 64
    ensures Numerator(x, y) as real
            == (4096.0 * (2.0 * MeanProduct(x, y) + K1)) * (4096.0 * (2.0 * Covariance(x, y) + K2))
  {
    hide Sum, Dot, MeanProduct, SumProduct, Covariance, Numerator, Denominator;
    Scaled(x, y);
    var m, n := 2 * SumProduct(x, y), 2 * (64 * Dot(x, y) - SumProduct(x, y));
    NumeratorIs(x, y, m, n);
    ScaledFactors(2.0 * MeanProduct(x, y), m, 2.0 * Covariance(x, y), n);
  }

  lemma DenominatorScaled(x: seq<int>, y: seq<int>)
    requires |x| == |y| == 64
    ensures Denominator(x, y) as real
            == (4096.0 * (MeanProduct(x, x) + MeanProduct(y, y) + K1))
               * (4096.0 * (Covariance(x, x) + Covariance(y, y) + K2))
  {
    hide Sum, Dot, MeanProduct, SumProduct, Covariance, Numerator, Denominator;
    Scaled(x, x);
    Scaled(y, y);
    var m := SumProduct(x, x) + SumProduct(y, y);
    var n := 64 * Dot(x, x) - SumProduct(x, x) + (64 * Dot(y, y) - SumProduct(y, y));
    DenominatorIs(x, y, m, n);
    ScaledFactors(MeanProduct(x, x) + MeanProduct(y, y), m, Covariance(x, x) + Covariance(y, y), n);
  }

  lemma SimilarityIs(x: seq<int>, y: seq<int>, a: real, b: real, c: real, d: real)
    requires |x| == |y| && a == 2.0 * MeanProduct(x, y) + K1 && b == 2.0 * Covariance(x, y) + K2
    requires c == MeanProduct(x, x) + MeanProduct(y, y) + K1 && d == Covariance(x, x) + Covariance(y, y) + K2
    ensures Similarity(x, y) == if c * d == 0.0 then 0.0 else a * b / (c * d)
  {
    hide MeanProduct, Covariance;
  }

  lemma NumeratorIs(x: seq<int>, y: seq<int>, m: int, n: int)
    requires |x| == |y| && m == 2 * SumProduct(x, y) && n == 2 * (64 * Dot(x, y) - SumProduct(x, y))
    ensures Numerator(x, y) == (m + C1) * (n + C2)
  {
    hide Sum, Dot;
  }

  lemma DenominatorIs(x: seq<int>, y: seq<int>, m: int, n: int)
    requires |x| == |y| && m == SumProduct(x, x) + SumProduct(y, y)
    requires n == 64 * Dot(x, x) - SumProduct(x, x) + (64 * Dot(y, y) - SumProduct(y, y))
    ensures Denominator(x, y) == (m + C1) * (n + C2)
  {
    hide Sum, Dot;
  }

  lemma ScaledFactors(a: real, m: int, b: real, n: int)
    requires 4096.0 * a == m as real && 4096.0 * b == n as real
    ensures ((m + C1) * (n + C2)) as real == (4096.0 * (a + K1)) * (4096.0 * (b + K2))
  {
    RealProduct(m + C1, n + C2);
    assert (m + C1) as real == 4096.0 * (a + K1) && (n + C2) as real == 4096.0 * (b + K2);
  }

  lemma SameQuotient(a: real, b: real, c: real, d: real, n: real, m: real)
    requires m > 0.0 && n == (4096.0 * a) * (4096.0 * b) && m == (4096.0 * c) * (4096.0 * d)
    ensures c * d != 0.0 && n / m == a * b / (c * d)
  {
    ScaledProduct(a, b);
    ScaledProduct(c, d);
    CancelScale(a * b, c * d, n, m);
  }

  lemma ScaledProduct(a: real, b: real)
    ensures (4096.0 * a) * (4096.0 * b) == 16777216.0 * (a * b)
  {
  }

  lemma CancelScale(p: real, q: real, n: real, m: real)
    requires m > 0.0 && n == 16777216.0 * p && m == 16777216.0 * q
    ensures q > 0.0 && n / m == p / q
  {
    var r := p / q;
    assert r * q == p;
    assert n == r * m;
  }

  ghost predicate Uniform(x: seq<int>) {
    |x| > 0 && forall i :: 0 <= i < |x| ==> x[i] == x[0]
  }

  /** Of two blocks of one value each only the brightness counts. */
  lemma UniformBlocks(x: seq<int>, y: seq<int>)
    requires IsBlock(x) && IsBlock(y)
    ensures Uniform(x) && Uniform(y) ==>
      Numerator(x, y) * (4096 * (x[0] * x[0] + y[0] * y[0]) + 26634)
      == Denominator(x, y) * (8192 * (x[0] * y[0]) + 26634)
  {
    if Uniform(x) && Uniform(y) {
      var u, v := x[0], y[0];
      ConstantSum(x, u);
      ConstantSum(y, v);
      ConstantDot(x, y, u, v);
      ConstantDot(x, x, u, u);
      ConstantDot(y, y, v, v);
      hide Sum, Dot;
      UniformArithmetic(u, v);
      CrossMultiply(8192 * (u * v) + 26634, 4096 * (u * u + v * v) + 26634, 239708);
    }
  }

  lemma {:induction false} ConstantDot(x: seq<int>, y: seq<int>, u: int, v: int)
    requires |x| == |y| && forall i :: 0 <= i < |x| ==> x[i] == u && y[i] == v
    ensures Dot(x, y) == |x| * (u * v)
    decreases |x|
  {
    if x != [] {
      ConstantDot(x[..|x| - 1], y[..|y| - 1], u, v);
      assert |x| * (u * v) == (|x| - 1) * (u * v) + u * v;
    }
  }

  lemma UniformArithmetic(u: int, v: int)
    ensures (64 * u) * (64 * v) == 4096 * (u * v) && (64 * u) * (64 * u) == 4096 * (u * u)
            && (64 * v) * (64 * v) == 4096 * (v * v)
  {
  }

  lemma CrossMultiply(n: int, d: int, k: int)
    ensures (n * k) * d == (d * k) * n && (k * n) * d == (k * d) * n
  {
    assert (n * k) * d == (d * k) * n;
  }

  /** Of two blocks of the same mean only variances and covariance count. */
  lemma EqualSums(x: seq<int>, y: seq<int>)
    requires IsBlock(x) && IsBlock(y)
    ensures Sum(x) == Sum(y) ==>
      Numerator(x, y) * (64 * Dot(x, x) + 64 * Dot(y, y) - 2 * (Sum(x) * Sum(x)) + 239708)
      == Denominator(x, y) * (128 * Dot(x, y) - 2 * (Sum(x) * Sum(x)) + 239708)
  {
    if Sum(x) == Sum(y) {
      hide Sum, Dot;
      var s := Sum(x) * Sum(x);
      var n2, d2 := 128 * Dot(x, y) - 2 * s + 239708, 64 * Dot(x, x) + 64 * Dot(y, y) - 2 * s + 239708;
      assert Numerator(x, y) == (2 * s + 26634) * n2 && Denominator(x, y) == (2 * s + 26634) * d2;
      hide Numerator, Denominator;
      CrossMultiply(n2, d2, 2 * s + 26634);
    }
  }

  /** The order of the two blocks does not matter. */
  lemma {:induction false} Symmetric(x: seq<int>, y: seq<int>)
    requires |x| == |y|
    ensures Dot(x, y) == Dot(y, x)
    ensures Numerator(x, y) == Numerator(y, x) && Denominator(x, y) == Denominator(y, x)
    decreases |x|
  {
    if x != [] {
      Symmetric(x[..|x| - 1], y[..|y| - 1]);
    }
  }

  /** The five sums after any number of pixels fit, and so do the products added to them, which are of `int`. */
  lemma RunningSumsFit(x: seq<int>, y: seq<int>)
    requires |x| == |y| <= 64
    requires (forall i :: 0 <= i < |x| ==> 0 <= x[i] <= 255) && forall i :: 0 <= i < |y| ==> 0 <= y[i] <= 255
    ensures FitsInt64(Sum(x)) && FitsInt64(Sum(y)) && FitsInt64(Dot(x, x)) && FitsInt64(Dot(y, y))
            && FitsInt64(Dot(x, y))
    ensures forall i :: 0 <= i < |x| ==> ProductsFit(x[i], y[i])
  {
    SumBounds(x);
    SumBounds(y);
    CrossBound(x, y);
    forall i | 0 <= i < |x|
      ensures ProductsFit(x[i], y[i])
    {
      ProductBound(x[i], x[i]);
      ProductBound(x[i], y[i]);
      ProductBound(y[i], y[i]);
    }
  }

  predicate ProductsFit(u: int, v: int) {
    0 <= u * u <= 0x7fff_ffff && 0 <= v * v <= 0x7fff_ffff && 0 <= u * v <= 0x7fff_ffff
  }

  /** After the loop, every value on the way to the two results fits its 64-bit integer, and so do the results. */
  lemma SsimFits(x: seq<int>, y: seq<int>)
    requires IsBlock(x) && IsBlock(y)
    ensures FitsInt64(CC1 * COUNT) && FitsInt64(CC1 * COUNT * COUNT) && FitsInt64(CC2 * COUNT)
            && FitsInt64(CC2 * COUNT * COUNT)
    ensures var a, b, c := Sum(x) * Sum(x), Sum(y) * Sum(y), Sum(x) * Sum(y);
            var p, q, r := Dot(x, x), Dot(y, y), Dot(x, y);
            && FitsInt64(a) && FitsInt64(b) && FitsInt64(c) && FitsInt64(2 * c) && FitsInt64(2 * c + C1)
            && FitsInt64(2 * COUNT * r) && FitsInt64(2 * COUNT * r - 2 * c) && FitsInt64(2 * COUNT * r - 2 * c + C2)
            && FitsInt64(a + b) && FitsInt64(a + b + C1)
            && FitsInt64(COUNT * p) && FitsInt64(COUNT * p - a) && FitsInt64(COUNT * q)
                && FitsInt64(COUNT * p - a + COUNT * q)
            && FitsInt64(COUNT * p - a + COUNT * q - b) && FitsInt64(COUNT * p - a + COUNT * q - b + C2)
    ensures FitsInt64(Numerator(x, y)) && FitsInt64(Denominator(x, y))
  {
    SumBounds(x);
    SumBounds(y);
    CrossBound(x, y);
    SumsProductBound(Sum(x), Sum(y));
    SumsProductBound(Sum(x), Sum(x));
    SumsProductBound(Sum(y), Sum(y));
    ResultsFit(x, y);
    hide Sum, Dot, Numerator, Denominator;
  }

  lemma ResultsFit(x: seq<int>, y: seq<int>)
    requires IsBlock(x) && IsBlock(y)
    ensures FitsInt64(Numerator(x, y)) && FitsInt64(Denominator(x, y))
  {
    FactorBounds(x, y);
    SsimBounds(x, y);
    hide Sum, Dot, Combine, Variance;
    var d1 := Sum(x) * Sum(x) + Sum(y) * Sum(y) + C1;
    var d2 := COUNT * Dot(x, x) - Sum(x) * Sum(x) + COUNT * Dot(y, y) - Sum(y) * Sum(y) + C2;
    Monotone(d1, d2, 600_000_000);
    Monotone(600_000_000, d1, 600_000_000);
  }

  lemma SumsProductBound(a: int, b: int)
    requires 0 <= a <= 16320 && 0 <= b <= 16320
    ensures 0 <= a * b <= 16320 * 16320
  {
    Monotone(a, b, 16320);
    Monotone(16320, a, 16320);
    Monotone(a, 0, b);
  }
}
