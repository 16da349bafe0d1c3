/**
 The sums that libyuv's compare.cc and compare_common.cc take over two runs of bytes: bits
 that differ, and squared differences. Blocks, the part a wide kernel could take and the
 tail are summed apart, on 32 bits each.
 */
module Reductions {
  import opened MachineInts
  import opened BitCount
  import opened Planes
  import opened Products

  datatype Measure = DifferingBits | SquaredDifference

  /** What one pair of bytes adds. */
  function Term(m: Measure, x: uchar, y: uchar): nat {
    match m
    case DifferingBits => ByteDistance(x, y)
    case SquaredDifference => Square(x - y)
  }

  /** The mathematical sum over two runs of the same length. */
  function Total(m: Measure, a: seq<uchar>, b: seq<uchar>): nat
    requires |a| == |b|
  {
    if a == [] then 0 else Total(m, a[..|a| - 1], b[..|b| - 1]) + Term(m, a[|a| - 1], b[|b| - 1])
  }

  /** The largest value of a term. */
  function Most(m: Measure): nat {
    if m == DifferingBits then 8 else 65025
  }

  lemma TermBound(m: Measure, x: uchar, y: uchar)
    ensures Term(m, x, y) <= Most(m)
  {
    if m == DifferingBits {
      XorByte(0, x, 0, y);
      ByteTrickCounts(Xor(x, y));
    } else {
      SquareBound(x - y);
    }
  }

  lemma {:induction false} TotalBound(m: Measure, a: seq<uchar>, b: seq<uchar>)
    requires |a| == |b|
    ensures Total(m, a, b) <= Most(m) * |a|
  {
    if a != [] {
      TotalBound(m, a[..|a| - 1], b[..|b| - 1]);
      TermBound(m, a[|a| - 1], b[|b| - 1]);
    }
  }

  lemma {:induction false} TotalConcat(m: Measure, a: seq<uchar>, b: seq<uchar>, c: seq<uchar>, d: seq<uchar>)
    requires |a| == |b| && |c| == |d|
    ensures Total(m, a + c, b + d) == Total(m, a, b) + Total(m, c, d)
    decreases |c|
  {
    if c == [] {
      assert a + c == a && b + d == b;
    } else {
      var n := |c| - 1;
      TotalConcat(m, a, b, c[..n], d[..n]);
      assert (a + c)[..|a + c| - 1] == a + c[..n] && (b + d)[..|b + d| - 1] == b + d[..n];
    }
  }

  /** The sum over n bytes from p of one buffer and q of another. */
  ghost function Over(m: Measure, a: array<uchar>, p: nat, b: array<uchar>, q: nat, n: nat): nat
    requires p + n <= a.Length && q + n <= b.Length
    reads a, b
  {
    Total(m, a[p..p + n], b[q..q + n])
  }

  lemma OverJoins(m: Measure, a: array<uchar>, p: nat, b: array<uchar>, q: nat, k: nat, n: nat)
    requires p + k + n <= a.Length && q + k + n <= b.Length
    ensures Over(m, a, p, b, q, k + n) == Over(m, a, p, b, q, k) + Over(m, a, p + k, b, q + k, n)
  {
    hide Total;
    SlicesJoin(a, p, k, n);
    SlicesJoin(b, q, k, n);
    TotalConcat(m, a[p..p + k], b[q..q + k], a[p + k..p + k + n], b[q + k..q + k + n]);
  }

  lemma SlicesJoin(a: array<uchar>, p: nat, k: nat, n: nat)
    requires p + k + n <= a.Length
    ensures a[p..p + (k + n)] == a[p..p + k] + a[p + k..p + k + n]
  {
  }

  lemma OverOne(m: Measure, a: array<uchar>, p: nat, b: array<uchar>, q: nat)
    requires p < a.Length && q < b.Length
    ensures Over(m, a, p, b, q, 1) == Term(m, a[p], b[q])
    ensures Over(m, a, p, b, q, 0) == 0
  {
    assert a[p..p + 1][..0] == [] && b[q..q + 1][..0] == [];
    assert Total(m, [], []) == 0;
  }

  lemma OverBound(m: Measure, a: array<uchar>, p: nat, b: array<uchar>, q: nat, n: nat)
    requires p + n <= a.Length && q + n <= b.Length && Most(m) * n <= 0xffff_ffff
    ensures U32(Over(m, a, p, b, q, n)) == Over(m, a, p, b, q, n)
  {
    TotalBound(m, a[p..p + n], b[q..q + n]);
  }

  lemma U32Accumulates(x: int, t: int)
    ensures U32(U32(x) + t) == U32(x + t)
  {
  }

  /** SumSquareError_C */
  method SumSquareErrorC(a: array<uchar>, p: nat, b: array<uchar>, q: nat, count: nat) returns (sse: uint32)
    requires p + count <= a.Length && q + count <= b.Length
    ensures sse == U32(Over(SquaredDifference, a, p, b, q, count))
  {
    hide Over, U32;
    ghost var m := SquaredDifference;
    sse := 0;
    ZeroSum(m, a, p, b, q);
    for i := 0 to count
      invariant sse == U32(Over(m, a, p, b, q, i))
    {
      OverJoins(m, a, p, b, q, i, 1);
      OverOne(m, a, p + i, b, q + i);
      var x: int, y: int := a[p + i], b[q + i];
      var diff := x - y;
      U32Square(diff);
      U32Accumulates(Over(m, a, p, b, q, i), Square(diff));
      sse := U32(sse + U32(diff * diff));
    }
  }

  lemma ZeroSum(m: Measure, a: array<uchar>, p: nat, b: array<uchar>, q: nat)
    requires p <= a.Length && q <= b.Length
    ensures Over(m, a, p, b, q, 0) == 0 && U32(0) == 0
  {
  }

  lemma U32Square(d: int)
    requires -255 <= d <= 255
    ensures U32(d * d) == Square(d)
  {
    SquareBound(d);
  }

  /** HammingDistance_C: whole words by the trick, then single bytes */
  method HammingDistanceC(a: array<uchar>, p: nat, b: array<uchar>, q: nat, count: nat) returns (diff: uint32)
    requires p + count <= a.Length && q + count <= b.Length
    ensures diff == U32(Over(DifferingBits, a, p, b, q, count))
  {
    hide Over, U32, Word, WordTrick, ByteTrick, Xor;
    ghost var m := DifferingBits;
    diff := 0;
    ZeroSum(m, a, p, b, q);
    var i := 0;
    while i < count - 3
      invariant 0 <= i <= count && diff == U32(Over(m, a, p, b, q, i))
    {
      var w, v := LoadWord(a, p + i), LoadWord(b, q + i);
      OverWord(a, p + i, b, q + i);
      OverJoins(m, a, p, b, q, i, 4);
      U32Accumulates(Over(m, a, p, b, q, i), WordTrick(Xor(w, v)));
      diff := U32(diff + WordTrick(Xor(w, v)));
      i := i + 4;
    }
    while i < count
      invariant 0 <= i <= count && diff == U32(Over(m, a, p, b, q, i))
    {
      OverJoins(m, a, p, b, q, i, 1);
      OverByte(a, p + i, b, q + i);
      U32Accumulates(Over(m, a, p, b, q, i), ByteTrick(Xor(a[p + i], b[q + i])));
      diff := U32(diff + ByteTrick(Xor(a[p + i], b[q + i])));
      i := i + 1;
    }
  }

  /** Four bytes read through a uint32_t pointer */
  function LoadWord(a: array<uchar>, p: nat): uint32
    requires p + 4 <= a.Length
    reads a
  {
    Word(a[p], a[p + 1], a[p + 2], a[p + 3])
  }

  lemma OverWord(a: array<uchar>, p: nat, b: array<uchar>, q: nat)
    requires p + 4 <= a.Length && q + 4 <= b.Length
    ensures Xor(LoadWord(a, p), LoadWord(b, q)) < 0x1_0000_0000
    ensures WordTrick(Xor(LoadWord(a, p), LoadWord(b, q))) == Over(DifferingBits, a, p, b, q, 4)
  {
    hide Over, Xor, Bits, WordTrick, Word;
    ghost var m := DifferingBits;
    OverJoins(m, a, p, b, q, 1, 3);
    OverJoins(m, a, p + 1, b, q + 1, 1, 2);
    OverJoins(m, a, p + 2, b, q + 2, 1, 1);
    OverOne(m, a, p, b, q);
    OverOne(m, a, p + 1, b, q + 1);
    OverOne(m, a, p + 2, b, q + 2);
    OverOne(m, a, p + 3, b, q + 3);
    WordDistance(a[p], a[p + 1], a[p + 2], a[p + 3], b[q], b[q + 1], b[q + 2], b[q + 3]);
    WordTrickCounts(Xor(LoadWord(a, p), LoadWord(b, q)));
  }

  lemma OverByte(a: array<uchar>, p: nat, b: array<uchar>, q: nat)
    requires p < a.Length && q < b.Length
    ensures Xor(a[p], b[q]) < 256
    ensures ByteTrick(Xor(a[p], b[q])) == Over(DifferingBits, a, p, b, q, 1)
  {
    hide Over, Xor, Bits, ByteTrick;
    OverOne(DifferingBits, a, p, b, q);
    XorByte(0, a[p], 0, b[q]);
    ByteTrickCounts(Xor(a[p], b[q]));
  }

  // ---------------------------------------------------------------------------
  // Blocks
  // ---------------------------------------------------------------------------

  /** count & ~(size - 1) */
  function BlockPart(count: nat, size: nat): nat
    requires size > 0
  {
    count / size * size
  }

  /** count & (size - 1) & ~(step - 1) */
  function StepPart(count: nat, size: nat, step: nat): nat
    requires size > 0 && step > 0
  {
    count % size / step * step
  }

  /** count & (step - 1) */
  function Rest(count: nat, step: nat): nat
    requires step > 0
  {
    count % step
  }

  /** The block loop ends at the last multiple of the block size. */
  lemma BlocksDone(count: nat, i: nat, k: nat, size: nat)
    requires (size == 32768 && i == 32768 * k) || (size == 65536 && i == 65536 * k)
    requires i <= count && count - (size - 1) <= i
    ensures i == BlockPart(count, size)
  {
    if size == 32768 {
      assert count / 32768 == k;
    } else {
      assert count / 65536 == k;
    }
  }

  /** The three parts make up the whole. */
  lemma Tail(count: nat, size: nat, step: nat)
    requires (size == 32768 && step == 64) || (size == 65536 && step == 32)
    ensures BlockPart(count, size) + StepPart(count, size, step) + Rest(count, step) == count
    ensures 0 <= StepPart(count, size, step) < size && 0 <= Rest(count, step) < step
  {
    if size == 32768 {
      Tail64(count / 32768, count % 32768, count);
    } else {
      Tail32(count / 65536, count % 65536, count);
    }
  }

  lemma Tail64(n: nat, r: nat, count: nat)
    requires count == 32768 * n + r && r < 32768
    ensures r / 64 * 64 + count % 64 == r
  {
    assert count == 64 * (512 * n + r / 64) + r % 64;
  }

  lemma Tail32(n: nat, r: nat, count: nat)
    requires count == 65536 * n + r && r < 65536
    ensures r / 32 * 32 + count % 32 == r
  {
    assert count == 32 * (2048 * n + r / 32) + r % 32;
  }

  /** ComputeHammingDistance: blocks of 32768, multiples of 64, the rest */
  method ComputeHammingDistance(a: array<uchar>, p: nat, b: array<uchar>, q: nat, count: nat) returns (diff: nat)
    requires p + count <= a.Length && q + count <= b.Length
    ensures diff == Over(DifferingBits, a, p, b, q, count)
  {
    hide Over, U32, BlockPart, StepPart, Rest;
    ghost var m, k := DifferingBits, 0;
    diff := 0;
    ZeroSum(m, a, p, b, q);
    var i := 0;
    while i < count - 32767
      invariant 0 <= i <= count && i == 32768 * k && diff == Over(m, a, p, b, q, i)
    {
      var block := HammingDistanceC(a, p + i, b, q + i, 32768);
      OverBound(m, a, p + i, b, q + i, 32768);
      OverJoins(m, a, p, b, q, i, 32768);
      diff := diff + block;
      i := i + 32768;
      k := k + 1;
    }
    BlocksDone(count, i, k, 32768);
    Tail(count, 32768, 64);
    var at := BlockPart(count, 32768);
    var remainder := StepPart(count, 32768, 64);
    if remainder != 0 {
      var part := HammingDistanceC(a, p + at, b, q + at, remainder);
      OverBound(m, a, p + at, b, q + at, remainder);
      OverJoins(m, a, p, b, q, at, remainder);
      diff := diff + part;
      at := at + remainder;
    }
    remainder := Rest(count, 64);
    if remainder != 0 {
      var tail := HammingDistanceC(a, p + at, b, q + at, remainder);
      OverBound(m, a, p + at, b, q + at, remainder);
      OverJoins(m, a, p, b, q, at, remainder);
      diff := diff + tail;
    }
  }

  /** ComputeSumSquareError: blocks of 65536, multiples of 32, the rest */
  method ComputeSumSquareError(a: array<uchar>, p: nat, b: array<uchar>, q: nat, count: nat) returns (sse: nat)
    requires p + count <= a.Length && q + count <= b.Length
    ensures sse == Over(SquaredDifference, a, p, b, q, count)
  {
    hide Over, U32, BlockPart, StepPart, Rest;
    ghost var m, k := SquaredDifference, 0;
    sse := 0;
    ZeroSum(m, a, p, b, q);
    var i := 0;
    while i < count - 65535
      invariant 0 <= i <= count && i == 65536 * k && sse == Over(m, a, p, b, q, i)
    {
      var block := SumSquareErrorC(a, p + i, b, q + i, 65536);
      OverBound(m, a, p + i, b, q + i, 65536);
      OverJoins(m, a, p, b, q, i, 65536);
      sse := sse + block;
      i := i + 65536;
      k := k + 1;
    }
    BlocksDone(count, i, k, 65536);
    Tail(count, 65536, 32);
    var at := BlockPart(count, 65536);
    var remainder := StepPart(count, 65536, 32);
    if remainder != 0 {
      var part := SumSquareErrorC(a, p + at, b, q + at, remainder);
      OverBound(m, a, p + at, b, q + at, remainder);
      OverJoins(m, a, p, b, q, at, remainder);
      sse := sse + part;
      at := at + remainder;
    }
    remainder := Rest(count, 32);
    if remainder != 0 {
      var tail := SumSquareErrorC(a, p + at, b, q + at, remainder);
      OverBound(m, a, p + at, b, q + at, remainder);
      OverJoins(m, a, p, b, q, at, remainder);
      sse := sse + tail;
    }
  }

  // ---------------------------------------------------------------------------
  // Planes
  // ---------------------------------------------------------------------------

  /** The sum over the rows of two planes. */
  ghost function PlaneTotal(a: array<uchar>, p: int, strideA: int, b: array<uchar>, q: int, strideB: int, width: nat,
                        height: nat): nat
    requires PlaneIn(a.Length, p, strideA, width, height) && PlaneIn(b.Length, q, strideB, width, height)
    reads a, b
  {
    if height == 0 then 0
    else
      var y := height - 1;
      PlaneTotal(a, p, strideA, b, q, strideB, width, y)
      + Over(SquaredDifference, a, RowAt(p, strideA, y), b, RowAt(q, strideB, y), width)
  }

  /** Rows without gaps are one long row. */
  lemma {:induction false} Coalesced(a: array<uchar>, p: int, b: array<uchar>, q: int, width: nat, height: nat)
    requires PlaneIn(a.Length, p, width, width, height) && PlaneIn(b.Length, q, width, width, height) && height > 0
    ensures 0 <= p && 0 <= q && 0 <= width * height && p + width * height <= a.Length && q + width * height <= b.Length
    ensures PlaneTotal(a, p, width, b, q, width, width, height) == Over(SquaredDifference, a, p, b, q, width * height)
  {
    hide Over;
    var y := height - 1;
    assert 0 <= RowAt(p, width, 0) && 0 <= RowAt(q, width, 0);
    assert RowAt(p, width, y) + width == p + width * height && RowAt(q, width, y) + width == q + width * height by {
      LastRow(p, width, height);
      LastRow(q, width, height);
    }
    if y == 0 {
      ZeroSum(SquaredDifference, a, p, b, q);
    } else {
      Coalesced(a, p, b, q, width, y);
      OverJoins(SquaredDifference, a, p, b, q, width * y, width);
      LastRow(p, width, height);
    }
  }

  lemma LastRow(p: int, width: nat, height: nat)
    requires height > 0
    ensures RowAt(p, width, height - 1) + width == p + width * height
    ensures RowAt(p, width, height - 1) == p + width * (height - 1)
    ensures width * (height - 1) + width == width * height && RowAt(p, width, 0) == p
  {
  }

  /** ComputeSumSquareErrorPlane, for planes whose pixels fit an `int` when it joins their rows */
  method ComputeSumSquareErrorPlane(a: array<uchar>, p: int, strideA: int, b: array<uchar>, q: int, strideB: int,
                        width: nat, height: nat)
    returns (sse: nat)
    requires PlaneIn(a.Length, p, strideA, width, height) && PlaneIn(b.Length, q, strideB, width, height)
    requires strideA == width && strideB == width ==> width * height <= 0x7fff_ffff
    ensures sse == PlaneTotal(a, p, strideA, b, q, strideB, width, height)
  {
    hide Over, RowAt;
    sse := 0;
    if strideA == width && strideB == width {
      if height > 0 {
        Coalesced(a, p, b, q, width, height);
        sse := ComputeSumSquareError(a, p, b, q, width * height);
      }
      return;
    }
    var rowA, rowB := p, q;
    NextRow(p, strideA, 0);
    NextRow(q, strideB, 0);
    for h := 0 to height
      invariant rowA == RowAt(p, strideA, h) && rowB == RowAt(q, strideB, h)
      invariant sse == PlaneTotal(a, p, strideA, b, q, strideB, width, h)
    {
      var row := ComputeSumSquareError(a, rowA, b, rowB, width);
      sse := sse + row;
      NextRow(p, strideA, h);
      NextRow(q, strideB, h);
      rowA := rowA + strideA;
      rowB := rowB + strideB;
    }
  }
}
