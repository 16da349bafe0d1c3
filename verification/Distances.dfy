/**
 What the sums of libyuv's compare.cc mean: differing bits, counted position by position, are a
 distance between buffers, and squared errors are the sums of products that the image index takes.
 */
module Distances {
  import opened MachineInts
  import opened BitCount
  import opened Planes
  import opened Products
  import opened Reductions
  import Ssim

  // ---------------------------------------------------------------------------
  // Bits
  // ---------------------------------------------------------------------------

  function Differs(x: nat, y: nat): nat {
    if x % 2 != y % 2 then 1 else 0
  }

  lemma {:induction false} DistanceStep(x: nat, y: nat)
    ensures Bits(Xor(x, y)) == Bits(Xor(x / 2, y / 2)) + Differs(x, y)
  {
    hide Bits, Xor;
    XorBit(x / 2, x % 2, y / 2, y % 2);
    BitsStep(Xor(x / 2, y / 2), Differs(x, y));
    assert x == 2 * (x / 2) + x % 2 && y == 2 * (y / 2) + y % 2;
  }

  lemma BitsStep(u: nat, e: nat)
    requires e < 2
    ensures Bits(2 * u + e) == Bits(u) + e
  {
  }

  /** Two bytes are as far apart as there are of their eight bits in which they differ. */
  lemma ByteDistanceIs(x: uchar, y: uchar)
    ensures ByteDistance(x, y)
            == Differs(x, y) + Differs(x / 2, y / 2) + Differs(x / 4, y / 4) + Differs(x / 8, y / 8)
               + Differs(x / 16, y / 16) + Differs(x / 32, y / 32) + Differs(x / 64, y / 64) + Differs(x / 128, y / 128)
  {
    hide Bits, Xor, Differs;
    Halves(x);
    Halves(y);
    DistanceStep(x, y);
    DistanceStep(x / 2, y / 2);
    DistanceStep(x / 4, y / 4);
    DistanceStep(x / 8, y / 8);
    DistanceStep(x / 16, y / 16);
    DistanceStep(x / 32, y / 32);
    DistanceStep(x / 64, y / 64);
    DistanceStep(x / 128, y / 128);
    NoBits();
  }

  lemma Halves(x: uchar)
    ensures x / 2 / 2 == x / 4 && x / 4 / 2 == x / 8 && x / 8 / 2 == x / 16 && x / 16 / 2 == x / 32
    ensures x / 32 / 2 == x / 64 && x / 64 / 2 == x / 128 && x / 128 / 2 == 0
  {
  }

  lemma NoBits()
    ensures Bits(Xor(0, 0)) == 0
  {
  }

  lemma {:induction false} BitsApart(x: nat, y: nat)
    ensures Bits(Xor(x, y)) == 0 <==> x == y
    decreases x + y
  {
    if x == 0 && y == 0 {
      NoBits();
    } else {
      BitsApart(x / 2, y / 2);
      DistanceStep(x, y);
      assert x == 2 * (x / 2) + x % 2 && y == 2 * (y / 2) + y % 2;
    }
  }

  lemma {:induction false} BitsSymmetric(x: nat, y: nat)
    ensures Bits(Xor(x, y)) == Bits(Xor(y, x))
    decreases x + y
  {
    if x != 0 || y != 0 {
      BitsSymmetric(x / 2, y / 2);
      DistanceStep(x, y);
      DistanceStep(y, x);
    }
  }

  lemma {:induction false} BitsTriangle(x: nat, y: nat, z: nat)
    ensures Bits(Xor(x, z)) <= Bits(Xor(x, y)) + Bits(Xor(y, z))
    decreases x + y + z
  {
    if x != 0 || y != 0 || z != 0 {
      BitsTriangle(x / 2, y / 2, z / 2);
      DistanceStep(x, y);
      DistanceStep(y, z);
      DistanceStep(x, z);
    } else {
      NoBits();
    }
  }

  // ---------------------------------------------------------------------------
  // Buffers
  // ---------------------------------------------------------------------------

  /** One pair of bytes adds its differing bits, or the square of its difference. */
  lemma OnePair(x: uchar, y: uchar)
    ensures Total(DifferingBits, [x], [y])
            == Differs(x, y) + Differs(x / 2, y / 2) + Differs(x / 4, y / 4) + Differs(x / 8, y / 8)
               + Differs(x / 16, y / 16) + Differs(x / 32, y / 32) + Differs(x / 64, y / 64) + Differs(x / 128, y / 128)
    ensures Total(SquaredDifference, [x], [y]) == (x - y) * (x - y)
  {
    hide Differs, ByteDistance;
    ByteDistanceIs(x, y);
    assert [x][..0] == [] && [y][..0] == [];
  }

  lemma TermApart(m: Measure, x: uchar, y: uchar)
    ensures Term(m, x, y) == 0 <==> x == y
    ensures Term(m, x, y) == Term(m, y, x)
  {
    hide Bits, Xor;
    BitsApart(x, y);
    BitsSymmetric(x, y);
    Ssim.SquareZero(x - y);
    assert (y - x) * (y - x) == (x - y) * (x - y);
  }

  /** Both measures tell whether two buffers are the same, and do not depend on which comes first. */
  lemma {:induction false} ZeroExactly(m: Measure, a: seq<uchar>, b: seq<uchar>)
    requires |a| == |b|
    ensures Total(m, a, b) == 0 <==> a == b
    ensures Total(m, a, b) == Total(m, b, a)
    decreases |a|
  {
    if a != [] {
      var n := |a| - 1;
      ZeroExactly(m, a[..n], b[..n]);
      TermApart(m, a[n], b[n]);
      hide Term;
      assert a == a[..n] + [a[n]] && b == b[..n] + [b[n]];
    }
  }

  /** Differing bits are a distance: going by way of a third buffer is never shorter. */
  lemma {:induction false} Triangle(a: seq<uchar>, b: seq<uchar>, c: seq<uchar>)
    requires |a| == |b| == |c|
    ensures Total(DifferingBits, a, c) <= Total(DifferingBits, a, b) + Total(DifferingBits, b, c)
    decreases |a|
  {
    if a != [] {
      var n := |a| - 1;
      Triangle(a[..n], b[..n], c[..n]);
      BitsTriangle(a[n], b[n], c[n]);
      hide Bits, Xor;
    }
  }

  /** The squared error is that of the sums the index of structural similarity is made of. */
  lemma {:induction false} ErrorOfProducts(a: seq<uchar>, b: seq<uchar>)
    requires |a| == |b|
    ensures Total(SquaredDifference, a, b) == Ssim.Dot(a, a) - 2 * Ssim.Dot(a, b) + Ssim.Dot(b, b)
    decreases |a|
  {
    if a != [] {
      var n := |a| - 1;
      ErrorOfProducts(a[..n], b[..n]);
      Ssim.SquareOfDifference(a[n], b[n]);
    }
  }

  /** Rows of two planes hold the same bytes. */
  ghost predicate SameRow(a: array<uchar>, p: int, b: array<uchar>, q: int, width: nat)
    requires 0 <= p && 0 <= q && p + width <= a.Length && q + width <= b.Length
    reads a, b
  {
    a[p..p + width] == b[q..q + width]
  }

  ghost predicate SamePlane(a: array<uchar>, p: int, strideA: int, b: array<uchar>, q: int, strideB: int, width: nat,
                            height: nat)
    requires PlaneIn(a.Length, p, strideA, width, height) && PlaneIn(b.Length, q, strideB, width, height)
    reads a, b
  {
    forall y :: 0 <= y < height ==> SameRow(a, RowAt(p, strideA, y), b, RowAt(q, strideB, y), width)
  }

  lemma RowErrorZero(a: array<uchar>, p: nat, b: array<uchar>, q: nat, width: nat)
    requires p + width <= a.Length && q + width <= b.Length
    ensures Over(SquaredDifference, a, p, b, q, width) == 0 <==> SameRow(a, p, b, q, width)
  {
    ZeroExactly(SquaredDifference, a[p..p + width], b[q..q + width]);
    hide Total;
  }

  lemma LastRowToo(a: array<uchar>, p: int, strideA: int, b: array<uchar>, q: int, strideB: int, width: nat, y: nat)
    requires PlaneIn(a.Length, p, strideA, width, y + 1) && PlaneIn(b.Length, q, strideB, width, y + 1)
    ensures SamePlane(a, p, strideA, b, q, strideB, width, y + 1)
            <==> && SamePlane(a, p, strideA, b, q, strideB, width, y)
                 && SameRow(a, RowAt(p, strideA, y), b, RowAt(q, strideB, y), width)
  {
    hide SameRow, RowAt;
  }

  /** The error of two planes is zero exactly if they agree in every row. */
  lemma {:induction false} PlaneErrorZero(a: array<uchar>, p: int, strideA: int, b: array<uchar>, q: int, strideB: int,
                                          width: nat, height: nat)
    requires PlaneIn(a.Length, p, strideA, width, height) && PlaneIn(b.Length, q, strideB, width, height)
    ensures PlaneTotal(a, p, strideA, b, q, strideB, width, height) == 0
            <==> SamePlane(a, p, strideA, b, q, strideB, width, height)
    decreases height
  {
    if height > 0 {
      var y := height - 1;
      PlaneErrorZero(a, p, strideA, b, q, strideB, width, y);
      hide SameRow, Over, RowAt, SamePlane;
      RowErrorZero(a, RowAt(p, strideA, y), b, RowAt(q, strideB, y), width);
      LastRowToo(a, p, strideA, b, q, strideB, width, y);
    }
  }
}
