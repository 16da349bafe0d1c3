/**
 Plane rotation of libyuv's rotate.cc: the transpose in tiles of eight rows, its two uses
 with a stride turned negative, and the half turn that also works in place. The row
 kernels are those of rotate_common.cc and row_common.cc.
 */
module Rotate {
  import opened MachineInts
  import opened Planes

  /** Rows do not overlap. */
  predicate Apart(stride: int, width: nat) {
    stride >= width || -stride >= width
  }

  ghost predicate IsCell(k: int, p: int, stride: int, width: nat, height: nat) {
    exists y, x :: 0 <= y < height && 0 <= x < width && k == At(p, stride, y, x)
  }

  lemma CellsDiffer(p: int, stride: int, width: nat, y: int, x: int, y': int, x': int)
    requires Apart(stride, width) && 0 <= x < width && 0 <= x' < width
    ensures At(p, stride, y, x) == At(p, stride, y', x') <==> y == y' && x == x'
  {
    if y < y' {
      Multiply(y' - y, stride);
      assert (y' - y) * stride == y' * stride - y * stride;
    } else if y > y' {
      Multiply(y - y', stride);
      assert (y - y') * stride == y * stride - y' * stride;
    }
  }

  lemma Multiply(n: int, stride: int)
    requires n >= 1
    ensures stride >= 0 ==> n * stride >= stride
    ensures stride <= 0 ==> n * stride <= stride
  {
  }

  /** A plane read from its last row up. */
  lemma AtFlips(p: int, stride: int, height: int, y: int, x: int)
    ensures At(p + stride * (height - 1), -stride, y, x) == At(p, stride, height - 1 - y, x)
  {
    assert (height - 1 - y) * stride == stride * (height - 1) - y * stride;
    assert y * (-stride) == -(y * stride);
  }

  // ---------------------------------------------------------------------------
  // Images and their rotations
  // ---------------------------------------------------------------------------

  /** An image: its pixels by row and column. */
  type Image = seq<seq<uchar>>

  ghost predicate Rect(i: Image, width: nat, height: nat) {
    |i| == height && forall y :: 0 <= y < height ==> |i[y]| == width
  }

  /** The image a plane holds, in a buffer of the given contents. */
  ghost function ImageOf(mem: seq<uchar>, p: int, stride: int, width: nat, height: nat): (i: Image)
    requires CellsIn(|mem|, p, stride, width, height)
    ensures Rect(i, width, height)
    ensures forall y, x :: 0 <= y < height && 0 <= x < width ==> i[y][x] == mem[At(p, stride, y, x)]
  {
    seq(height, y requires 0 <= y < height =>
      seq(width, x requires 0 <= x < width => assert 0 <= At(p, stride, y, x) < |mem|; mem[At(p, stride, y, x)]))
  }

  /** A pixel lies its row's number of strides from the first, and its column's number of bytes. */
  lemma PixelIsByte(mem: seq<uchar>, p: int, stride: int, width: nat, height: nat, y: nat, x: nat)
    requires CellsIn(|mem|, p, stride, width, height) && y < height && x < width
    ensures 0 <= p + y * stride + x < |mem| && ImageOf(mem, p, stride, width, height)[y][x] == mem[p + y * stride + x]
  {
    assert At(p, stride, y, x) == p + y * stride + x;
  }

  /** Rows and columns exchanged. */
  function Transposed(i: Image, width: nat): (r: Image)
    requires forall y :: 0 <= y < |i| ==> |i[y]| == width
    ensures |r| == width && forall x :: 0 <= x < width ==> |r[x]| == |i|
    ensures forall x, y :: 0 <= x < width && 0 <= y < |i| ==> r[x][y] == i[y][x]
  {
    seq(width, x requires 0 <= x < width => seq(|i|, y requires 0 <= y < |i| && |i[y]| == width => i[y][x]))
  }

  /** Last row first. */
  function Flipped(i: Image): (r: Image)
    ensures |r| == |i| && forall y :: 0 <= y < |i| ==> r[y] == i[|i| - 1 - y]
  {
    seq(|i|, y requires 0 <= y < |i| => i[|i| - 1 - y])
  }

  /** Last column first. */
  function Mirrored(i: Image): (r: Image)
    ensures |r| == |i| && forall y :: 0 <= y < |i| ==> |r[y]| == |i[y]|
    ensures forall y, x :: 0 <= y < |i| && 0 <= x < |i[y]| ==> r[y][x] == i[y][|i[y]| - 1 - x]
  {
    seq(|i|, y requires 0 <= y < |i| => seq(|i[y]|, x requires 0 <= x < |i[y]| => i[y][|i[y]| - 1 - x]))
  }

  /** A quarter turn clockwise: the first column, read upwards, becomes the first row. */
  function Quarter(i: Image, width: nat): (r: Image)
    requires forall y :: 0 <= y < |i| ==> |i[y]| == width
    ensures |r| == width && forall x :: 0 <= x < width ==> |r[x]| == |i|
  {
    Transposed(Flipped(i), width)
  }

  function Half(i: Image): Image {
    Flipped(Mirrored(i))
  }

  /** A quarter turn counterclockwise */
  function ThreeQuarters(i: Image, width: nat): (r: Image)
    requires forall y :: 0 <= y < |i| ==> |i[y]| == width
    ensures |r| == width && forall x :: 0 <= x < width ==> |r[x]| == |i|
  {
    Flipped(Transposed(i, width))
  }

  /** Where each turn takes a pixel from */
  lemma QuarterPixel(i: Image, width: nat, height: nat, x: nat, y: nat)
    requires Rect(i, width, height) && x < width && y < height
    ensures Rect(Quarter(i, width), height, width) && Quarter(i, width)[x][y] == i[height - 1 - y][x]
  {
  }

  lemma ThreeQuartersPixel(i: Image, width: nat, height: nat, x: nat, y: nat)
    requires Rect(i, width, height) && x < width && y < height
    ensures Rect(ThreeQuarters(i, width), height, width) && ThreeQuarters(i, width)[x][y] == i[y][width - 1 - x]
  {
  }

  lemma HalfPixel(i: Image, width: nat, height: nat, y: nat, x: nat)
    requires Rect(i, width, height) && x < width && y < height
    ensures Rect(Half(i), width, height) && Half(i)[y][x] == i[height - 1 - y][width - 1 - x]
  {
  }

  lemma Shapes(i: Image, width: nat, height: nat)
    requires Rect(i, width, height)
    ensures Rect(Quarter(i, width), height, width) && Rect(ThreeQuarters(i, width), height, width)
            && Rect(Half(i), width, height)
  {
  }

  lemma SameImage(i: Image, j: Image, width: nat, height: nat)
    requires Rect(i, width, height) && Rect(j, width, height)
    requires forall y, x :: 0 <= y < height && 0 <= x < width ==> i[y][x] == j[y][x]
    ensures i == j
  {
    assert forall y :: 0 <= y < height ==> i[y] == j[y];
  }

  /** Turning back after a quarter turn restores the image. */
  lemma QuarterAndBack(i: Image, width: nat, height: nat)
    requires Rect(i, width, height)
    ensures Rect(Quarter(i, width), height, width) && ThreeQuarters(Quarter(i, width), height) == i
  {
    hide Quarter, ThreeQuarters;
    Shapes(i, width, height);
    var q := Quarter(i, width);
    Shapes(q, height, width);
    var r := ThreeQuarters(q, height);
    forall y, x | 0 <= y < height && 0 <= x < width
      ensures r[y][x] == i[y][x]
    {
      ThreeQuartersPixel(q, height, width, y, x);
      QuarterPixel(i, width, height, x, height - 1 - y);
    }
    SameImage(r, i, width, height);
  }

  /** Two quarter turns are a half turn. */
  lemma TwoQuarters(i: Image, width: nat, height: nat)
    requires Rect(i, width, height)
    ensures Rect(Quarter(i, width), height, width) && Quarter(Quarter(i, width), height) == Half(i)
  {
    hide Quarter, Half;
    Shapes(i, width, height);
    var q := Quarter(i, width);
    Shapes(q, height, width);
    var r := Quarter(q, height);
    forall y, x | 0 <= y < height && 0 <= x < width
      ensures r[y][x] == Half(i)[y][x]
    {
      QuarterPixel(q, height, width, y, x);
      QuarterPixel(i, width, height, width - 1 - x, y);
      HalfPixel(i, width, height, y, x);
    }
    SameImage(r, Half(i), width, height);
  }

  /** Two half turns are none. */
  lemma HalfTwice(i: Image, width: nat, height: nat)
    requires Rect(i, width, height)
    ensures Half(Half(i)) == i
  {
    hide Half;
    Shapes(i, width, height);
    var r := Half(Half(i));
    Shapes(Half(i), width, height);
    forall y, x | 0 <= y < height && 0 <= x < width
      ensures r[y][x] == i[y][x]
    {
      HalfPixel(Half(i), width, height, y, x);
      HalfPixel(i, width, height, height - 1 - y, width - 1 - x);
    }
    SameImage(r, i, width, height);
  }

  /** A half turn and a quarter turn, in either order, are a quarter turn back. */
  lemma ThreeQuarterTurns(i: Image, width: nat, height: nat)
    requires Rect(i, width, height)
    ensures Rect(Half(i), width, height) && Quarter(Half(i), width) == ThreeQuarters(i, width)
    ensures Half(Quarter(i, width)) == ThreeQuarters(i, width)
  {
    hide Quarter, Half, ThreeQuarters;
    Shapes(i, width, height);
    var h, q, t := Half(i), Quarter(i, width), ThreeQuarters(i, width);
    Shapes(h, width, height);
    Shapes(q, height, width);
    forall x, y | 0 <= x < width && 0 <= y < height
      ensures Quarter(h, width)[x][y] == t[x][y] && Half(q)[x][y] == t[x][y]
    {
      QuarterPixel(h, width, height, x, y);
      HalfPixel(i, width, height, height - 1 - y, x);
      HalfPixel(q, height, width, x, y);
      QuarterPixel(i, width, height, width - 1 - x, height - 1 - y);
      ThreeQuartersPixel(i, width, height, x, y);
    }
    SameImage(Quarter(h, width), t, height, width);
    SameImage(Half(q), t, height, width);
  }

  // ---------------------------------------------------------------------------
  // Parts of a plane
  // ---------------------------------------------------------------------------

  /** A part of a plane lies where the plane does. */
  lemma PartIn(length: nat, p: int, stride: int, width: nat, height: nat, row: nat, column: nat, columns: nat,
               rows: nat)
    requires CellsIn(length, p, stride, width, height) && row + rows <= height && column + columns <= width
    ensures CellsIn(length, At(p, stride, row, column), stride, columns, rows)
  {
    hide At;
    forall y, x | 0 <= y < rows && 0 <= x < columns
      ensures 0 <= At(At(p, stride, row, column), stride, y, x) < length
    {
      AtOfAt(p, stride, row, column, y, x);
    }
  }

  lemma AtOfAt(p: int, stride: int, row: int, column: int, y: int, x: int)
    ensures At(At(p, stride, row, column), stride, y, x) == At(p, stride, row + y, column + x)
  {
    assert (row + y) * stride == row * stride + y * stride;
  }

  /** A cell of a part is a cell of the plane. */
  lemma PartIsCell(k: int, p: int, stride: int, width: nat, height: nat, row: nat, column: nat, columns: nat, rows: nat)
    requires row + rows <= height && column + columns <= width
    requires IsCell(k, At(p, stride, row, column), stride, columns, rows)
    ensures IsCell(k, p, stride, width, height)
  {
    hide At;
    var y, x :| 0 <= y < rows && 0 <= x < columns && k == At(At(p, stride, row, column), stride, y, x);
    AtOfAt(p, stride, row, column, y, x);
  }

  /** A cell outside a part, by its row or its column, is no cell of the part. */
  lemma OutsidePart(p: int, stride: int, width: nat, row: nat, column: nat, columns: nat, rows: nat, y: int, x: int)
    requires Apart(stride, width) && column + columns <= width && 0 <= x < width
    requires !(row <= y < row + rows && column <= x < column + columns)
    ensures !IsCell(At(p, stride, y, x), At(p, stride, row, column), stride, columns, rows)
  {
    hide At, Apart;
    if IsCell(At(p, stride, y, x), At(p, stride, row, column), stride, columns, rows) {
      var y', x' :| 0 <= y' < rows && 0 <= x' < columns
          && At(p, stride, y, x) == At(At(p, stride, row, column), stride, y', x');
      AtOfAt(p, stride, row, column, y', x');
      CellsDiffer(p, stride, width, y, x, row + y', column + x');
    }
  }

  // ---------------------------------------------------------------------------
  // Transposing
  // ---------------------------------------------------------------------------

  /**
   `after` is `before` with the transpose of a plane of `src` written into it: row y of the
   source, `width` long, is column y of the destination. Nothing else is touched.
   */
  ghost predicate WritesTranspose(before: seq<uchar>, after: seq<uchar>, src: seq<uchar>, sp: int, ss: int, dp: int,
                        ds: int, width: nat, height: nat) {
    && |after| == |before|
    && CellsIn(|src|, sp, ss, width, height) && CellsIn(|after|, dp, ds, height, width)
    && (forall x, y :: 0 <= x < width && 0 <= y < height ==> after[At(dp, ds, x, y)] == src[At(sp, ss, y, x)])
    && forall k :: 0 <= k < |after| && !IsCell(k, dp, ds, height, width) ==> after[k] == before[k]
  }

  /** Two transposes side by side in the source, one above the other in the destination, are one. */
  lemma SideBySide(a: seq<uchar>, b: seq<uchar>, c: seq<uchar>, src: seq<uchar>, sp: int, ss: int, dp: int, ds: int,
                   left: nat, right: nat, height: nat)
    requires Apart(ds, height)
    requires CellsIn(|src|, sp, ss, left + right, height) && CellsIn(|a|, dp, ds, height, left + right)
    requires WritesTranspose(a, b, src, sp, ss, dp, ds, left, height)
    requires WritesTranspose(b, c, src, At(sp, ss, 0, left), ss, At(dp, ds, left, 0), ds, right, height)
    ensures WritesTranspose(a, c, src, sp, ss, dp, ds, left + right, height)
  {
    hide At, Apart;
    forall x, y | 0 <= x < left + right && 0 <= y < height
      ensures c[At(dp, ds, x, y)] == src[At(sp, ss, y, x)]
    {
      if x < left {
        OutsidePart(dp, ds, height, left, 0, height, right, x, y);
      } else {
        AtOfAt(sp, ss, 0, left, y, x - left);
        AtOfAt(dp, ds, left, 0, x - left, y);
        assert c[At(At(dp, ds, left, 0), ds, x - left, y)] == src[At(At(sp, ss, 0, left), ss, y, x - left)];
      }
    }
    forall k | 0 <= k < |c| && !IsCell(k, dp, ds, height, left + right)
      ensures c[k] == a[k]
    {
      OutsideBoth(k, dp, ds, height, left + right, 0, 0, height, left, left, 0, height, right);
    }
  }

  /** One above the other in the source, side by side in the destination. */
  lemma OneAboveTheOther(a: seq<uchar>, b: seq<uchar>, c: seq<uchar>, src: seq<uchar>, sp: int, ss: int, dp: int,
                        ds: int, width: nat, top: nat, bottom: nat)
    requires Apart(ds, top + bottom)
    requires CellsIn(|src|, sp, ss, width, top + bottom) && CellsIn(|a|, dp, ds, top + bottom, width)
    requires WritesTranspose(a, b, src, sp, ss, dp, ds, width, top)
    requires WritesTranspose(b, c, src, At(sp, ss, top, 0), ss, At(dp, ds, 0, top), ds, width, bottom)
    ensures WritesTranspose(a, c, src, sp, ss, dp, ds, width, top + bottom)
  {
    hide At, Apart;
    forall x, y | 0 <= x < width && 0 <= y < top + bottom
      ensures c[At(dp, ds, x, y)] == src[At(sp, ss, y, x)]
    {
      if y < top {
        OutsidePart(dp, ds, top + bottom, 0, top, bottom, width, x, y);
      } else {
        AtOfAt(sp, ss, top, 0, y - top, x);
        AtOfAt(dp, ds, 0, top, x, y - top);
        assert c[At(At(dp, ds, 0, top), ds, x, y - top)] == src[At(At(sp, ss, top, 0), ss, y - top, x)];
      }
    }
    forall k | 0 <= k < |c| && !IsCell(k, dp, ds, top + bottom, width)
      ensures c[k] == a[k]
    {
      OutsideBoth(k, dp, ds, top + bottom, width, 0, 0, top, width, 0, top, bottom, width);
    }
  }

  /** What is no cell of a plane is no cell of two of its parts. */
  lemma OutsideBoth(k: int, p: int, stride: int, width: nat, height: nat,
                    row: nat, column: nat, columns: nat, rows: nat, row': nat, column': nat, columns': nat, rows': nat)
    requires row + rows <= height && column + columns <= width && row' + rows' <= height && column' + columns' <= width
    requires !IsCell(k, p, stride, width, height)
    ensures !IsCell(k, At(p, stride, row, column), stride, columns, rows)
    ensures !IsCell(k, At(p, stride, row', column'), stride, columns', rows')
    ensures At(p, stride, 0, 0) == p
  {
    if IsCell(k, At(p, stride, row, column), stride, columns, rows) {
      PartIsCell(k, p, stride, width, height, row, column, columns, rows);
    }
    if IsCell(k, At(p, stride, row', column'), stride, columns', rows') {
      PartIsCell(k, p, stride, width, height, row', column', columns', rows');
    }
  }

  /** TransposeWx8_C and TransposeWxH_C: `height` rows of the source, all `width` columns of them */
  method TransposeRows(src: array<uchar>, sp: int, ss: int, dst: array<uchar>, dp: int, ds: int, width: nat,
                       height: nat)
    requires src != dst && Apart(ds, height)
    requires CellsIn(src.Length, sp, ss, width, height) && CellsIn(dst.Length, dp, ds, height, width)
    modifies dst
    ensures WritesTranspose(old(dst[..]), dst[..], src[..], sp, ss, dp, ds, width, height)
  {
    for i := 0 to width
      invariant forall x, y :: 0 <= x < i && 0 <= y < height ==> dst[At(dp, ds, x, y)] == src[At(sp, ss, y, x)]
      invariant forall k :: 0 <= k < dst.Length && !IsCell(k, dp, ds, height, width) ==> dst[k] == old(dst[k])
    {
      for j := 0 to height
        invariant forall x, y :: 0 <= x < i && 0 <= y < height ==> dst[At(dp, ds, x, y)] == src[At(sp, ss, y, x)]
        invariant forall y :: 0 <= y < j ==> dst[At(dp, ds, i, y)] == src[At(sp, ss, y, i)]
        invariant forall k :: 0 <= k < dst.Length && !IsCell(k, dp, ds, height, width) ==> dst[k] == old(dst[k])
      {
        var to, from := At(dp, ds, i, j), At(sp, ss, j, i);
        forall x, y | 0 <= x < width && 0 <= y < height
          ensures At(dp, ds, x, y) == to <==> x == i && y == j
        {
          CellsDiffer(dp, ds, height, x, y, i, j);
        }
        assert IsCell(to, dp, ds, height, width);
        dst[to] := src[from];
      }
    }
  }

  /** TransposeWx8_Any: the vector kernel on a multiple of its width, the plain one on the other columns. */
  method TransposeAny(src: array<uchar>, sp: int, ss: int, dst: array<uchar>, dp: int, ds: int, width: nat, lanes: nat)
    requires src != dst && Apart(ds, 8) && lanes > 0
    requires CellsIn(src.Length, sp, ss, width, 8) && CellsIn(dst.Length, dp, ds, 8, width)
    modifies dst
    ensures WritesTranspose(old(dst[..]), dst[..], src[..], sp, ss, dp, ds, width, 8)
  {
    hide At, Apart, CellsIn;
    ghost var before := dst[..];
    var r := width % lanes;
    var n := width - r;
    PartIn(src.Length, sp, ss, width, 8, 0, 0, n, 8);
    PartIn(dst.Length, dp, ds, 8, width, 0, 0, 8, n);
    PartIn(src.Length, sp, ss, width, 8, 0, n, r, 8);
    PartIn(dst.Length, dp, ds, 8, width, n, 0, 8, r);
    AtZero(sp, ss);
    AtZero(dp, ds);
    if n > 0 {
      TransposeRows(src, sp, ss, dst, dp, ds, n, 8);
    }
    ghost var between := dst[..];
    TransposeRows(src, At(sp, ss, 0, n), ss, dst, At(dp, ds, n, 0), ds, r, 8);
    SideBySide(before, between, dst[..], src[..], sp, ss, dp, ds, n, r, 8);
  }

  lemma AtZero(p: int, stride: int)
    ensures At(p, stride, 0, 0) == p
  {
  }

  /** The eight-row kernels: the plain one, or a vector one with its remainder */
  datatype Kernel = Plain | Any(lanes: nat)

  method TransposeWx8(kernel: Kernel, src: array<uchar>, sp: int, ss: int, dst: array<uchar>, dp: int, ds: int,
                      width: nat)
    requires src != dst && Apart(ds, 8) && (kernel.Any? ==> kernel.lanes > 0)
    requires CellsIn(src.Length, sp, ss, width, 8) && CellsIn(dst.Length, dp, ds, 8, width)
    modifies dst
    ensures WritesTranspose(old(dst[..]), dst[..], src[..], sp, ss, dp, ds, width, 8)
  {
    match kernel
    case Plain => TransposeRows(src, sp, ss, dst, dp, ds, width, 8);
    case Any(lanes) => TransposeAny(src, sp, ss, dst, dp, ds, width, lanes);
  }

  /** The next tile lies in both planes, next to what is done. */
  lemma Tile(srcLength: nat, dstLength: nat, sp: int, ss: int, dp: int, ds: int, width: nat, height: nat, done: nat,
             rows: nat)
    requires Apart(ds, height) && done + rows <= height
    requires CellsIn(srcLength, sp, ss, width, height) && CellsIn(dstLength, dp, ds, height, width)
    ensures Apart(ds, rows) && Apart(ds, done + rows)
    ensures CellsIn(srcLength, At(sp, ss, done, 0), ss, width, rows) && CellsIn(srcLength, sp, ss, width, done + rows)
    ensures CellsIn(dstLength, At(dp, ds, 0, done), ds, rows, width) && CellsIn(dstLength, dp, ds, done + rows, width)
  {
    hide At, CellsIn;
    PartIn(srcLength, sp, ss, width, height, done, 0, width, rows);
    PartIn(dstLength, dp, ds, height, width, 0, done, rows, width);
    PartIn(srcLength, sp, ss, width, height, 0, 0, width, done + rows);
    PartIn(dstLength, dp, ds, height, width, 0, 0, done + rows, width);
    AtZero(sp, ss);
    AtZero(dp, ds);
  }

  lemma PointerMoves(p: int, stride: int, row: int, column: int, rows: int, columns: int)
    ensures At(p, stride, row + rows, column + columns) == At(p, stride, row, column) + rows * stride + columns
  {
    assert (row + rows) * stride == row * stride + rows * stride;
  }

  /** TransposePlane: tiles of eight rows, then the rows left. */
  method TransposePlane(kernel: Kernel, src: array<uchar>, sp: int, ss: int, dst: array<uchar>, dp: int, ds: int,
                        width: nat, height: nat)
    requires src != dst && Apart(ds, height) && (kernel.Any? ==> kernel.lanes > 0)
    requires CellsIn(src.Length, sp, ss, width, height) && CellsIn(dst.Length, dp, ds, height, width)
    modifies dst
    ensures WritesTranspose(old(dst[..]), dst[..], src[..], sp, ss, dp, ds, width, height)
  {
    hide At, Apart, CellsIn;
    ghost var before := dst[..];
    var i, s, d := height, sp, dp;
    AtZero(sp, ss);
    AtZero(dp, ds);
    Tile(src.Length, dst.Length, sp, ss, dp, ds, width, height, 0, 0);
    while i >= 8
      invariant 0 <= i <= height && s == At(sp, ss, height - i, 0) && d == At(dp, ds, 0, height - i)
      invariant WritesTranspose(before, dst[..], src[..], sp, ss, dp, ds, width, height - i)
    {
      ghost var done := height - i;
      Tile(src.Length, dst.Length, sp, ss, dp, ds, width, height, done, 8);
      ghost var between := dst[..];
      TransposeWx8(kernel, src, s, ss, dst, d, ds, width);
      OneAboveTheOther(before, between, dst[..], src[..], sp, ss, dp, ds, width, done, 8);
      PointerMoves(sp, ss, done, 0, 8, 0);
      PointerMoves(dp, ds, 0, done, 0, 8);
      s := s + 8 * ss;
      d := d + 8;
      i := i - 8;
    }
    if i > 0 {
      ghost var done := height - i;
      Tile(src.Length, dst.Length, sp, ss, dp, ds, width, height, done, i);
      ghost var between := dst[..];
      TransposeRows(src, s, ss, dst, d, ds, width, i);
      OneAboveTheOther(before, between, dst[..], src[..], sp, ss, dp, ds, width, done, i);
    }
  }

  // ---------------------------------------------------------------------------
  // Quarter turns
  // ---------------------------------------------------------------------------

  /** A plane and the same plane read from its last row up. */
  lemma CellsInFlipped(length: nat, p: int, stride: int, width: nat, height: nat)
    requires CellsIn(length, p, stride, width, height)
    ensures CellsIn(length, p + stride * (height - 1), -stride, width, height)
  {
    hide At;
    var last, up := p + stride * (height - 1), -stride;
    forall y, x | 0 <= y < height && 0 <= x < width
      ensures 0 <= At(last, up, y, x) < length
    {
      AtFlips(p, stride, height, y, x);
    }
  }

  lemma IsCellFlipped(k: int, p: int, stride: int, width: nat, height: nat)
    requires IsCell(k, p + stride * (height - 1), -stride, width, height)
    ensures IsCell(k, p, stride, width, height)
  {
    hide At;
    var y, x :| 0 <= y < height && 0 <= x < width && k == At(p + stride * (height - 1), -stride, y, x);
    AtFlips(p, stride, height, y, x);
  }

  /** Nothing but the cells of a plane changed. */
  ghost predicate OnlyCells(before: seq<uchar>, after: seq<uchar>, p: int, stride: int, width: nat, height: nat) {
    |before| == |after| && forall k :: 0 <= k < |after| && !IsCell(k, p, stride, width, height) ==>
        after[k] == before[k]
  }

  /** A transpose of the source read from its last row up is a quarter turn. */
  lemma TransposeOfFlippedSource(before: seq<uchar>, after: seq<uchar>, src: seq<uchar>, sp: int, ss: int, dp: int,
                        ds: int, width: nat, height: nat)
    requires CellsIn(|src|, sp, ss, width, height)
    requires WritesTranspose(before, after, src, sp + ss * (height - 1), -ss, dp, ds, width, height)
    ensures ImageOf(after, dp, ds, height, width) == Quarter(ImageOf(src, sp, ss, width, height), width)
  {
    hide At;
    var i, r := ImageOf(src, sp, ss, width, height), ImageOf(after, dp, ds, height, width);
    forall x, y | 0 <= x < width && 0 <= y < height
      ensures r[x][y] == i[height - 1 - y][x]
    {
      AtFlips(sp, ss, height, y, x);
    }
    assert forall x :: 0 <= x < width ==> r[x] == Quarter(i, width)[x];
  }

  /** A transpose into the destination written from its last row up is a quarter turn back. */
  lemma TransposeIntoFlipped(before: seq<uchar>, after: seq<uchar>, src: seq<uchar>, sp: int, ss: int, dp: int,
                        ds: int, width: nat, height: nat)
    requires CellsIn(|after|, dp, ds, height, width)
    requires WritesTranspose(before, after, src, sp, ss, dp + ds * (width - 1), -ds, width, height)
    ensures ImageOf(after, dp, ds, height, width) == ThreeQuarters(ImageOf(src, sp, ss, width, height), width)
    ensures OnlyCells(before, after, dp, ds, height, width)
  {
    hide At;
    var i, r := ImageOf(src, sp, ss, width, height), ImageOf(after, dp, ds, height, width);
    forall x, y | 0 <= x < width && 0 <= y < height
      ensures r[x][y] == i[y][width - 1 - x]
    {
      AtFlips(dp, ds, width, width - 1 - x, y);
    }
    assert forall x :: 0 <= x < width ==> r[x] == ThreeQuarters(i, width)[x];
    forall k | 0 <= k < |after| && !IsCell(k, dp, ds, height, width)
      ensures after[k] == before[k]
    {
      if IsCell(k, dp + ds * (width - 1), -ds, height, width) {
        IsCellFlipped(k, dp, ds, height, width);
      }
    }
  }

  method RotatePlane90(kernel: Kernel, src: array<uchar>, sp: int, ss: int, dst: array<uchar>, dp: int, ds: int,
                       width: nat, height: nat)
    requires src != dst && Apart(ds, height) && (kernel.Any? ==> kernel.lanes > 0)
    requires CellsIn(src.Length, sp, ss, width, height) && CellsIn(dst.Length, dp, ds, height, width)
    modifies dst
    ensures ImageOf(dst[..], dp, ds, height, width) == Quarter(ImageOf(src[..], sp, ss, width, height), width)
    ensures OnlyCells(old(dst[..]), dst[..], dp, ds, height, width)
  {
    hide Quarter, At, Apart, CellsIn, IsCell;
    CellsInFlipped(src.Length, sp, ss, width, height);
    var source, stride := sp + ss * (height - 1), -ss;
    TransposePlane(kernel, src, source, stride, dst, dp, ds, width, height);
    TransposeOfFlippedSource(old(dst[..]), dst[..], src[..], sp, ss, dp, ds, width, height);
  }

  method RotatePlane270(kernel: Kernel, src: array<uchar>, sp: int, ss: int, dst: array<uchar>, dp: int, ds: int,
                        width: nat, height: nat)
    requires src != dst && Apart(ds, height) && (kernel.Any? ==> kernel.lanes > 0)
    requires CellsIn(src.Length, sp, ss, width, height) && CellsIn(dst.Length, dp, ds, height, width)
    modifies dst
    ensures ImageOf(dst[..], dp, ds, height, width) == ThreeQuarters(ImageOf(src[..], sp, ss, width, height), width)
    ensures OnlyCells(old(dst[..]), dst[..], dp, ds, height, width)
  {
    hide ThreeQuarters, At, CellsIn, IsCell;
    CellsInFlipped(dst.Length, dp, ds, height, width);
    var target, stride := dp + ds * (width - 1), -ds;
    TransposePlane(kernel, src, sp, ss, dst, target, stride, width, height);
    TransposeIntoFlipped(old(dst[..]), dst[..], src[..], sp, ss, dp, ds, width, height);
  }

  // ---------------------------------------------------------------------------
  // The half turn
  // ---------------------------------------------------------------------------

  ghost predicate OnlyRange(before: seq<uchar>, after: seq<uchar>, p: int, width: nat) {
    |before| == |after| && forall k :: 0 <= k < |after| && !(p <= k < p + width) ==> after[k] == before[k]
  }

  predicate RowFits(length: nat, p: int, width: nat) {
    width == 0 || 0 <= p <= p + width <= length
  }

  /** Where column x of a reversed row comes from. A row reversed onto itself is folded: its right half stays and is
      mirrored into its left half. */
  function Column(folded: bool, width: nat, x: int): int {
    if folded && x > width - 1 - x then x else width - 1 - x
  }

  /** The row of `width` bytes at d is the row at s of `src`, last byte first, or folded. */
  ghost predicate IsMirror(folded: bool, mem: seq<uchar>, d: int, src: seq<uchar>, s: int, width: nat)
    requires RowFits(|mem|, d, width) && RowFits(|src|, s, width)
  {
    forall k :: d <= k < d + width ==> mem[k] == src[s + Column(folded, width, k - d)]
  }

  /** The first x bytes are written, and the source still holds what they need. */
  ghost predicate Mirroring(folded: bool, was: seq<uchar>, now: seq<uchar>, s: int, mem: seq<uchar>, d: int,
                            width: nat, x: nat)
    requires RowFits(|mem|, d, width) && RowFits(|was|, s, width) && |now| == |was| && x <= width
  {
    && (forall k :: d <= k < d + x ==> mem[k] == was[s + Column(folded, width, k - d)])
    && if folded then now == mem && s == d && forall k :: d + x <= k < d + width ==> mem[k] == was[k]
       else forall k :: s <= k < s + width ==> now[k] == was[k]
  }

  lemma MirrorByte(folded: bool, was: seq<uchar>, now: seq<uchar>, s: int, mem: seq<uchar>, d: int, width: nat, x: nat,
                   now': seq<uchar>)
    requires RowFits(|mem|, d, width) && RowFits(|was|, s, width) && |now| == |now'| == |was| && x < width
    requires Mirroring(folded, was, now, s, mem, d, width, x)
    requires var mem' := mem[d + x := now[s + (width - 1 - x)]];
             if folded then now' == mem' else forall k :: s <= k < s + width ==> now'[k] == now[k]
    ensures Mirroring(folded, was, now', s, mem[d + x := now[s + (width - 1 - x)]], d, width, x + 1)
  {
    var v := now[s + (width - 1 - x)];
    assert v == was[s + Column(folded, width, x)] by {
      if folded && width - 1 - x < x {
        assert mem[d + (width - 1 - x)] == was[s + Column(folded, width, width - 1 - x)];
      }
    }
  }

  /** MirrorRow_C: two bytes at a time, then the odd one. A row mirrored onto itself is folded; of rows that overlap
      otherwise nothing is said but that no other byte changes. */
  method MirrorRow(src: array<uchar>, s: int, dst: array<uchar>, d: int, width: nat)
    requires RowFits(src.Length, s, width) && RowFits(dst.Length, d, width)
    modifies dst
    ensures OnlyRange(old(dst[..]), dst[..], d, width)
    ensures src != dst || s + width <= d || d + width <= s ==> IsMirror(false, dst[..], d, old(src[..]), s, width)
    ensures src == dst && s == d ==> IsMirror(true, dst[..], d, old(src[..]), s, width)
  {
    hide Column, Mirroring;
    var from := s + (width - 1);
    var x := 0;
    ghost var was, folded := src[..], src == dst && s == d;
    ghost var known := src != dst || s + width <= d || d + width <= s || folded;
    MirrorStarts(folded, was, s, dst[..], d, width);
    while x < width - 1
      invariant 0 <= x <= width && x % 2 == 0 && from == s + (width - 1 - x)
      invariant OnlyRange(old(dst[..]), dst[..], d, width)
      invariant known ==> Mirroring(folded, was, src[..], s, dst[..], d, width, x)
    {
      MirrorOne(src, from, dst, d + x, x, s, d, width, was, folded, known);
      MirrorOne(src, from - 1, dst, d + (x + 1), x + 1, s, d, width, was, folded, known);
      from := from - 2;
      x := x + 2;
    }
    if width % 2 == 1 {
      MirrorOne(src, from, dst, d + (width - 1), width - 1, s, d, width, was, folded, known);
    }
    if known {
      MirrorEnds(folded, was, src[..], s, dst[..], d, width);
    }
  }

  /** One assignment of MirrorRow */
  method MirrorOne(src: array<uchar>, from: int, dst: array<uchar>, to: int, ghost x: nat, ghost s: int, ghost d: int,
                   ghost width: nat, ghost was: seq<uchar>, ghost folded: bool, ghost known: bool)
    requires RowFits(src.Length, s, width) && RowFits(dst.Length, d, width) && |was| == src.Length
    requires x < width && from == s + (width - 1 - x) && to == d + x
    requires folded == (src == dst && s == d)
    requires known ==> src != dst || s + width <= d || d + width <= s || folded
    requires known ==> Mirroring(folded, was, src[..], s, dst[..], d, width, x)
    modifies dst
    ensures OnlyRange(old(dst[..]), dst[..], d, width)
    ensures known ==> Mirroring(folded, was, src[..], s, dst[..], d, width, x + 1)
  {
    hide Column, Mirroring;
    ghost var now, mem := src[..], dst[..];
    dst[to] := src[from];
    assert dst[..] == mem[to := now[from]];
    if known {
      MirrorByte(folded, was, now, s, mem, d, width, x, src[..]);
    }
  }

  lemma MirrorStarts(folded: bool, was: seq<uchar>, s: int, mem: seq<uchar>, d: int, width: nat)
    requires RowFits(|mem|, d, width) && RowFits(|was|, s, width) && (folded ==> was == mem && s == d)
    ensures Mirroring(folded, was, was, s, mem, d, width, 0)
  {
  }

  lemma MirrorEnds(folded: bool, was: seq<uchar>, now: seq<uchar>, s: int, mem: seq<uchar>, d: int, width: nat)
    requires RowFits(|mem|, d, width) && RowFits(|was|, s, width) && |now| == |was|
    requires Mirroring(folded, was, now, s, mem, d, width, width)
    ensures IsMirror(folded, mem, d, was, s, width)
  {
  }

  ghost predicate IsPalindrome(row: seq<uchar>) {
    forall x :: 0 <= x < |row| ==> row[x] == row[|row| - 1 - x]
  }

  /** A row mirrored onto itself is reversed exactly when it is a palindrome. */
  lemma FoldedIsMirror(mem: seq<uchar>, was: seq<uchar>, d: nat, width: nat)
    requires d + width <= |mem| == |was| && IsMirror(true, mem, d, was, d, width)
    ensures IsMirror(false, mem, d, was, d, width) <==> IsPalindrome(was[d..d + width])
  {
    var row := was[d..d + width];
    if IsMirror(false, mem, d, was, d, width) {
      forall x | 0 <= x < width
        ensures row[x] == row[width - 1 - x]
      {
        assert mem[d + x] == was[d + (width - 1 - x)];
        assert mem[d + (width - 1 - x)] == was[d + x];
      }
    }
    if IsPalindrome(row) {
      forall k | d <= k < d + width
        ensures mem[k] == was[d + Column(false, width, k - d)]
      {
        assert row[k - d] == row[width - 1 - (k - d)];
      }
    }
  }

  /** For example, 1 2 mirrored onto itself becomes 2 2. */
  lemma FoldedRow(mem: seq<uchar>, was: seq<uchar>)
    requires was == [1, 2] && |mem| == 2 && IsMirror(true, mem, 0, was, 0, 2)
    ensures mem == [2, 2]
  {
    assert mem[0] == was[0 + Column(true, 2, 0)] && mem[1] == was[0 + Column(true, 2, 1)];
  }

  /** CopyRow_C, a memcpy; of a row onto itself it changes nothing */
  method CopyRow(src: array<uchar>, s: int, dst: array<uchar>, d: int, width: nat)
    requires RowFits(src.Length, s, width) && RowFits(dst.Length, d, width)
    requires src != dst || s == d || s + width <= d || d + width <= s
    modifies dst
    ensures OnlyRange(old(dst[..]), dst[..], d, width)
    ensures forall k :: d <= k < d + width ==> dst[k] == old(src[s + (k - d)])
  {
    forall x | 0 <= x < width {
      dst[d + x] := src[s + x];
    }
  }

  /** A row of the plane misses every cell of the other rows. */
  lemma RowMisses(p: int, stride: int, width: nat, y: int, y': int, x: int)
    requires Apart(stride, width) && 0 <= x < width && y != y'
    ensures !(At(p, stride, y, 0) <= At(p, stride, y', x) < At(p, stride, y, 0) + width)
  {
    var column := At(p, stride, y', x) - At(p, stride, y, 0);
    if 0 <= column < width {
      CellsDiffer(p, stride, width, y, column, y', x);
    }
  }

  lemma RowsMiss(p: int, stride: int, width: nat, y: int, y': int)
    requires Apart(stride, width) && y != y'
    ensures At(p, stride, y, 0) + width <= At(p, stride, y', 0) || At(p, stride, y', 0) + width <= At(p, stride, y, 0)
  {
    if width > 0 {
      RowMisses(p, stride, width, y, y', 0);
      RowMisses(p, stride, width, y', y, 0);
    }
  }

  lemma CellOfRow(p: int, stride: int, y: int, x: int)
    ensures At(p, stride, y, x) == At(p, stride, y, 0) + x
  {
  }

  /** The source is the destination, read from its last row up. */
  predicate UpsideDown(sp: int, ss: int, dp: int, ds: int, height: nat) {
    ss == -ds && sp == dp + ds * (height - 1)
  }

  /**
   The first and the last `y` rows of the plane hold the half turn of what the source held at
   first; of an upside-down source the rows above the middle are folded instead.
   */
  ghost predicate Turned(folded: bool, was: seq<uchar>, sp: int, ss: int, now: seq<uchar>, dp: int, ds: int,
                         width: nat, height: nat, y: nat)
    requires CellsIn(|was|, sp, ss, width, height) && CellsIn(|now|, dp, ds, width, height)
  {
    forall r, x :: 0 <= r < height && 0 <= x < width && (r < y || r >= height - y) ==>
      && At(dp, ds, r, x) >= 0
      && now[At(dp, ds, r, x)] == was[At(sp, ss, height - 1 - r, Column(folded && r < height - 1 - r, width, x))]
  }

  /** The rows between are still those of the source. */
  ghost predicate Waiting(was: seq<uchar>, now: seq<uchar>, p: int, stride: int, width: nat, height: nat, y: nat)
    requires CellsIn(|was|, p, stride, width, height) && |now| == |was|
  {
    forall r, x :: y <= r < height - y && 0 <= x < width ==>
      0 <= At(p, stride, r, x) < |was| && now[At(p, stride, r, x)] == was[At(p, stride, r, x)]
  }

  /** A row written into the plane leaves the cells of the other rows, and what is no cell. */
  lemma RowWritten(before: seq<uchar>, after: seq<uchar>, p: int, stride: int, width: nat, height: nat, y: nat)
    requires (Apart(stride, width) || height == 1) && y < height && CellsIn(|before|, p, stride, width, height)
    requires OnlyRange(before, after, At(p, stride, y, 0), width)
    ensures forall r, x :: 0 <= r < height && 0 <= x < width && r != y ==>
      At(p, stride, r, x) >= 0 && after[At(p, stride, r, x)] == before[At(p, stride, r, x)]
    ensures OnlyCells(before, after, p, stride, width, height)
  {
    hide At, Apart;
    forall r, x | 0 <= r < height && 0 <= x < width && r != y
      ensures after[At(p, stride, r, x)] == before[At(p, stride, r, x)]
    {
      RowMisses(p, stride, width, y, r, x);
    }
    forall k | 0 <= k < |after| && !IsCell(k, p, stride, width, height)
      ensures after[k] == before[k]
    {
      var x := k - At(p, stride, y, 0);
      CellOfRow(p, stride, y, x);
    }
  }

  /** The cells of a row that mirrors another */
  lemma RowMirrored(folded: bool, mem: seq<uchar>, p: int, stride: int, y: int, src: seq<uchar>, s: int, width: nat,
                    x: nat)
    requires RowFits(|mem|, At(p, stride, y, 0), width) && RowFits(|src|, s, width) && x < width
    requires IsMirror(folded, mem, At(p, stride, y, 0), src, s, width)
    ensures 0 <= Column(folded, width, x) < width
    ensures 0 <= At(p, stride, y, x) < |mem| && mem[At(p, stride, y, x)] == src[s + Column(folded, width, x)]
  {
    CellOfRow(p, stride, y, x);
  }

  lemma RowIn(length: nat, p: int, stride: int, width: nat, height: nat, y: nat)
    requires CellsIn(length, p, stride, width, height) && y < height
    ensures RowFits(length, At(p, stride, y, 0), width)
  {
    if width > 0 {
      CellOfRow(p, stride, y, width - 1);
      assert 0 <= At(p, stride, y, 0) && At(p, stride, y, width - 1) < length;
    }
  }

  /**
   One turn of the loop, with b the row opposite y. `now` is the source, `row` its row y,
   d1 the memory after row b went into row y (folded when these are one row of one buffer),
   d2 after `row` went into row b.
   */
  lemma TurnStep(folded: bool, was: seq<uchar>, now: seq<uchar>, row: seq<uchar>, d0: seq<uchar>, d1: seq<uchar>,
                 d2: seq<uchar>, sp: int, ss: int, dp: int, ds: int, width: nat, height: nat, y: nat, b: nat)
    requires CellsIn(|was|, sp, ss, width, height) && CellsIn(|d0|, dp, ds, width, height) && Apart(ds, width)
    requires y <= b == height - 1 - y
    requires Turned(folded, was, sp, ss, d0, dp, ds, width, height, y)
    requires |now| == |was| && Waiting(was, now, sp, ss, width, height, y)
    requires |row| == width && RowFits(|now|, At(sp, ss, y, 0), width) && RowFits(|now|, At(sp, ss, b, 0), width)
    requires forall k :: 0 <= k < width ==> row[k] == now[At(sp, ss, y, 0) + k]
    requires OnlyRange(d0, d1, At(dp, ds, y, 0), width) && OnlyRange(d1, d2, At(dp, ds, b, 0), width)
    requires RowFits(|d0|, At(dp, ds, y, 0), width) && RowFits(|d0|, At(dp, ds, b, 0), width)
    requires y != b ==> IsMirror(folded, d1, At(dp, ds, y, 0), now, At(sp, ss, b, 0), width)
    requires IsMirror(false, d2, At(dp, ds, b, 0), row, 0, width)
    ensures Turned(folded, was, sp, ss, d2, dp, ds, width, height, y + 1)
    ensures OnlyCells(d0, d2, dp, ds, width, height)
  {
    hide At, Apart, IsCell, IsMirror;
    RowWritten(d0, d1, dp, ds, width, height, y);
    RowWritten(d1, d2, dp, ds, width, height, b);
    forall r, x | 0 <= r < height && 0 <= x < width && (r < y + 1 || r >= height - (y + 1))
      ensures At(dp, ds, r, x) >= 0
      ensures d2[At(dp, ds, r, x)] == was[At(sp, ss, height - 1 - r, Column(folded && r < height - 1 - r, width, x))]
    {
      if r == b {
        RowMirrored(false, d2, dp, ds, b, row, 0, width, x);
        CellOfRow(sp, ss, y, width - 1 - x);
      } else if r == y {
        RowMirrored(folded, d1, dp, ds, y, now, At(sp, ss, b, 0), width, x);
        CellOfRow(sp, ss, b, Column(folded, width, x));
      } else {
        assert d1[At(dp, ds, r, x)] == d0[At(dp, ds, r, x)];
      }
    }
  }

  lemma AllWaiting(was: seq<uchar>, p: int, stride: int, width: nat, height: nat, y: nat)
    requires CellsIn(|was|, p, stride, width, height)
    ensures Waiting(was, was, p, stride, width, height, y)
  {
  }

  lemma NoneTurned(folded: bool, was: seq<uchar>, sp: int, ss: int, now: seq<uchar>, dp: int, ds: int, width: nat,
                   height: nat)
    requires CellsIn(|was|, sp, ss, width, height) && CellsIn(|now|, dp, ds, width, height)
    ensures Turned(folded, was, sp, ss, now, dp, ds, width, height, 0)
    ensures OnlyCells(now, now, dp, ds, width, height)
  {
  }

  lemma OnlyCellsTwice(a: seq<uchar>, b: seq<uchar>, c: seq<uchar>, p: int, stride: int, width: nat, height: nat)
    requires OnlyCells(a, b, p, stride, width, height) && OnlyCells(b, c, p, stride, width, height)
    ensures OnlyCells(a, c, p, stride, width, height)
  {
  }

  /** In place, the same step leaves the rows between to the next steps, whichever of the two it writes first. */
  lemma WaitingStep(was: seq<uchar>, d0: seq<uchar>, d1: seq<uchar>, d2: seq<uchar>, p: int, stride: int, width: nat,
                    height: nat, y: nat, first: nat, second: nat)
    requires CellsIn(|was|, p, stride, width, height) && |d0| == |was| && Apart(stride, width)
    requires first < height && second < height && (first == y || second == y) && first + second == height - 1
    requires Waiting(was, d0, p, stride, width, height, y)
    requires OnlyRange(d0, d1, At(p, stride, first, 0), width) && OnlyRange(d1, d2, At(p, stride, second, 0), width)
    ensures Waiting(was, d2, p, stride, width, height, y + 1)
  {
    hide At, Apart, IsCell, IsMirror;
    RowWritten(d0, d1, p, stride, width, height, first);
    RowWritten(d1, d2, p, stride, width, height, second);
    forall r, x | y + 1 <= r < height - (y + 1) && 0 <= x < width
      ensures 0 <= At(p, stride, r, x) < |was| && d2[At(p, stride, r, x)] == was[At(p, stride, r, x)]
    {
      assert d1[At(p, stride, r, x)] == d0[At(p, stride, r, x)];
    }
  }

  /** Upside down, row y of the source is the opposite row of the destination. */
  lemma OppositeRow(sp: int, ss: int, dp: int, ds: int, height: nat, y: int, x: int)
    requires UpsideDown(sp, ss, dp, ds, height)
    ensures At(sp, ss, y, x) == At(dp, ds, height - 1 - y, x)
  {
    AtFlips(dp, ds, height, y, x);
  }

  /** Every row of the image reversed, but those above the middle folded */
  function FoldedTop(i: Image): (r: Image)
    ensures |r| == |i| && forall y :: 0 <= y < |i| ==> |r[y]| == |i[y]|
    ensures forall y, x :: 0 <= y < |i| && 0 <= x < |i[y]| ==>
      r[y][x] == i[y][Column(y < |i| - 1 - y, |i[y]|, x)]
  {
    seq(|i|, y requires 0 <= y < |i| =>
      seq(|i[y]|, x requires 0 <= x < |i[y]| => i[y][Column(y < |i| - 1 - y, |i[y]|, x)]))
  }

  /** When the loop is over, the destination holds the half turn, or what comes of it upside down. */
  lemma TurnedIsHalf(folded: bool, was: seq<uchar>, sp: int, ss: int, now: seq<uchar>, dp: int, ds: int, width: nat,
                     height: nat, y: nat)
    requires CellsIn(|was|, sp, ss, width, height) && CellsIn(|now|, dp, ds, width, height) && 2 * y >= height
    requires Turned(folded, was, sp, ss, now, dp, ds, width, height, y)
    ensures var i := ImageOf(was, sp, ss, width, height);
            ImageOf(now, dp, ds, width, height) == if folded then FoldedTop(Flipped(i)) else Half(i)
  {
    hide At, Column;
    var i, r := ImageOf(was, sp, ss, width, height), ImageOf(now, dp, ds, width, height);
    ColumnIn(width);
    if folded {
      FoldedPixels(i, r, width, height);
    } else {
      forall y, x | 0 <= y < height && 0 <= x < width
        ensures r[y][x] == Half(i)[y][x]
      {
        HalfPixel(i, width, height, y, x);
      }
      Shapes(i, width, height);
      SameImage(r, Half(i), width, height);
    }
  }

  lemma ColumnIn(width: nat)
    ensures forall folded, x :: 0 <= x < width ==> 0 <= Column(folded, width, x) < width
    ensures forall x :: Column(false, width, x) == width - 1 - x
  {
  }

  lemma FoldedPixels(i: Image, r: Image, width: nat, height: nat)
    requires Rect(i, width, height) && Rect(r, width, height)
    requires forall x :: 0 <= x < width ==> 0 <= Column(true, width, x) < width && 0 <= Column(false, width, x) < width
    requires forall y, x :: 0 <= y < height && 0 <= x < width ==>
      r[y][x] == i[height - 1 - y][Column(y < height - 1 - y, width, x)]
    ensures r == FoldedTop(Flipped(i))
  {
    hide Column;
    SameImage(r, FoldedTop(Flipped(i)), width, height);
  }

  /** The loop of RotatePlane180: it swaps and mirrors the outer rows until the middle is reached. */
  method TurnRows(src: array<uchar>, sp: int, ss: int, dst: array<uchar>, dp: int, ds: int, width: nat, height: nat,
                  ghost folded: bool)
    requires Apart(ds, width) && folded == (src == dst && UpsideDown(sp, ss, dp, ds, height))
    requires src == dst && !folded ==> sp == dp && ss == ds
    requires CellsIn(src.Length, sp, ss, width, height) && CellsIn(dst.Length, dp, ds, width, height)
    modifies dst
    ensures Turned(folded, old(src[..]), sp, ss, dst[..], dp, ds, width, height, (height + 1) / 2)
    ensures OnlyCells(old(dst[..]), dst[..], dp, ds, width, height)
  {
    hide At, Apart, CellsIn, IsCell, OnlyCells, OnlyRange, IsMirror, Turned, Waiting, UpsideDown;
    ghost var was, before := src[..], dst[..];
    var row := new uchar[width];
    var s, d := sp, dp;
    var sourceBottom, bottom := sp + ss * (height - 1), dp + ds * (height - 1);
    var halfHeight := (height + 1) / 2;
    AtZero(sp, ss);
    AtZero(dp, ds);
    PointerMoves(sp, ss, 0, 0, height - 1, 0);
    PointerMoves(dp, ds, 0, 0, height - 1, 0);
    AllWaiting(was, sp, ss, width, height, 0);
    NoneTurned(folded, was, sp, ss, before, dp, ds, width, height);
    for y := 0 to halfHeight
      invariant s == At(sp, ss, y, 0) && d == At(dp, ds, y, 0)
      invariant sourceBottom == At(sp, ss, height - 1 - y, 0) && bottom == At(dp, ds, height - 1 - y, 0)
      invariant Turned(folded, was, sp, ss, dst[..], dp, ds, width, height, y)
      invariant Waiting(was, src[..], sp, ss, width, height, y)
      invariant src != dst ==> src[..] == was
      invariant OnlyCells(before, dst[..], dp, ds, width, height)
    {
      ghost var b := height - 1 - y;
      RowIn(src.Length, sp, ss, width, height, y);
      RowIn(src.Length, sp, ss, width, height, b);
      RowIn(dst.Length, dp, ds, width, height, y);
      RowIn(dst.Length, dp, ds, width, height, b);
      if folded {
        OppositeRow(sp, ss, dp, ds, height, b, 0);
        OppositeRow(sp, ss, dp, ds, height, y, 0);
      } else if y != b {
        RowsMiss(dp, ds, width, y, b);
      }
      ghost var now, d0 := src[..], dst[..];
      CopyRow(src, s, row, 0, width);
      MirrorRow(src, sourceBottom, dst, d, width);
      ghost var d1 := dst[..];
      MirrorRow(row, 0, dst, bottom, width);
      TurnStep(folded, was, now, row[..], d0, d1, dst[..], sp, ss, dp, ds, width, height, y, b);
      KeepWaiting(src == dst, folded, was, now, d0, d1, dst[..], sp, ss, dp, ds, width, height, y, b);
      OnlyCellsTwice(before, d0, dst[..], dp, ds, width, height);
      PointerMoves(sp, ss, y, 0, 1, 0);
      PointerMoves(dp, ds, y, 0, 1, 0);
      PointerMoves(sp, ss, b, 0, -1, 0);
      PointerMoves(dp, ds, b, 0, -1, 0);
      s := s + ss;
      d := d + ds;
      sourceBottom := sourceBottom - ss;
      bottom := bottom - ds;
    }
  }

  /** The source after a step: untouched, or the destination, one way up or the other. */
  lemma KeepWaiting(same: bool, folded: bool, was: seq<uchar>, now: seq<uchar>, d0: seq<uchar>, d1: seq<uchar>,
                    d2: seq<uchar>, sp: int, ss: int, dp: int, ds: int, width: nat, height: nat, y: nat, b: nat)
    requires CellsIn(|was|, sp, ss, width, height) && Apart(ds, width) && y <= b == height - 1 - y && |now| == |was|
    requires Waiting(was, now, sp, ss, width, height, y)
    requires same ==> d0 == now && if folded then UpsideDown(sp, ss, dp, ds, height) else sp == dp && ss == ds
    requires !same ==> now == was
    requires OnlyRange(d0, d1, At(dp, ds, y, 0), width) && OnlyRange(d1, d2, At(dp, ds, b, 0), width)
    ensures same ==> |d2| == |was|
    ensures Waiting(was, if same then d2 else now, sp, ss, width, height, y + 1)
  {
    hide At, CellsIn, Waiting;
    if !same {
      AllWaiting(was, sp, ss, width, height, y + 1);
    } else if folded {
      OppositeRow(sp, ss, dp, ds, height, b, 0);
      OppositeRow(sp, ss, dp, ds, height, y, 0);
      WaitingStep(was, d0, d1, d2, sp, ss, width, height, y, b, y);
    } else {
      WaitingStep(was, d0, d1, d2, sp, ss, width, height, y, y, b);
    }
  }

  /** RotatePlane180, into another buffer, in place, or in place with the source upside down, which spoils the upper
      half */
  method RotatePlane180(src: array<uchar>, sp: int, ss: int, dst: array<uchar>, dp: int, ds: int, width: nat,
                        height: nat)
    requires Apart(ds, width) && (src == dst ==> (sp == dp && ss == ds) || UpsideDown(sp, ss, dp, ds, height))
    requires CellsIn(src.Length, sp, ss, width, height) && CellsIn(dst.Length, dp, ds, width, height)
    modifies dst
    ensures var i := ImageOf(old(src[..]), sp, ss, width, height);
            ImageOf(dst[..], dp, ds, width, height)
            == if src == dst && UpsideDown(sp, ss, dp, ds, height) then FoldedTop(Flipped(i)) else Half(i)
    ensures OnlyCells(old(dst[..]), dst[..], dp, ds, width, height)
  {
    hide Half, At, Apart, CellsIn, IsCell, OnlyCells, Turned, UpsideDown;
    ghost var folded := src == dst && UpsideDown(sp, ss, dp, ds, height);
    TurnRows(src, sp, ss, dst, dp, ds, width, height, folded);
    TurnedIsHalf(folded, old(src[..]), sp, ss, dst[..], dp, ds, width, height, (height + 1) / 2);
  }

  // ---------------------------------------------------------------------------
  // Copying a plane
  // ---------------------------------------------------------------------------

  /** Which row of the source comes into row r. Copied onto itself upside down, the lower half of the destination reads
      rows that were overwritten. */
  function RowFrom(over: bool, height: nat, r: int): int {
    if over && r > height - 1 - r then height - 1 - r else r
  }

  /** The first y rows of the destination are those of the source, or what comes of them upside down. */
  ghost predicate Copied(over: bool, was: seq<uchar>, sp: int, ss: int, dst: seq<uchar>, dp: int, ds: int, width: nat,
                         height: nat, y: nat)
    requires CellsIn(|was|, sp, ss, width, height) && CellsIn(|dst|, dp, ds, width, height) && y <= height
  {
    forall r, x :: 0 <= r < y && 0 <= x < width ==>
      At(dp, ds, r, x) >= 0 && dst[At(dp, ds, r, x)] == was[At(sp, ss, RowFrom(over, height, r), x)]
  }

  lemma NoneCopied(over: bool, was: seq<uchar>, sp: int, ss: int, dst: seq<uchar>, dp: int, ds: int, width: nat,
                   height: nat)
    requires CellsIn(|was|, sp, ss, width, height) && CellsIn(|dst|, dp, ds, width, height)
    ensures Copied(over, was, sp, ss, dst, dp, ds, width, height, 0)
    ensures OnlyCells(dst, dst, dp, ds, width, height) && SameRows(was, was, sp, ss, width, height, height)
  {
  }

  /** The first n rows of the plane are what they were. */
  ghost predicate SameRows(was: seq<uchar>, now: seq<uchar>, p: int, stride: int, width: nat, height: nat, n: nat)
    requires CellsIn(|was|, p, stride, width, height) && |now| == |was| && n <= height
  {
    forall r, x :: 0 <= r < n && 0 <= x < width ==>
      0 <= At(p, stride, r, x) < |was| && now[At(p, stride, r, x)] == was[At(p, stride, r, x)]
  }

  /** One turn of the loop. `now` is the source; in place and upside down it is the destination. */
  lemma CopyStep(over: bool, was: seq<uchar>, now: seq<uchar>, sp: int, ss: int, d0: seq<uchar>, d1: seq<uchar>,
                 dp: int, ds: int, width: nat, height: nat, y: nat)
    requires CellsIn(|was|, sp, ss, width, height) && CellsIn(|d0|, dp, ds, width, height)
    requires (Apart(ds, width) || height == 1) && y < height && |now| == |was|
    requires Copied(over, was, sp, ss, d0, dp, ds, width, height, y)
    requires if over then now == d0 && UpsideDown(sp, ss, dp, ds, height) else now == was
    requires over ==> SameRows(was, now, sp, ss, width, height, height - y)
    requires RowFits(|now|, At(sp, ss, y, 0), width) && RowFits(|d0|, At(dp, ds, y, 0), width)
    requires OnlyRange(d0, d1, At(dp, ds, y, 0), width)
    requires forall k :: At(dp, ds, y, 0) <= k < At(dp, ds, y, 0) + width ==>
      d1[k] == now[At(sp, ss, y, 0) + (k - At(dp, ds, y, 0))]
    ensures Copied(over, was, sp, ss, d1, dp, ds, width, height, y + 1)
    ensures OnlyCells(d0, d1, dp, ds, width, height)
    ensures over ==> SameRows(was, d1, sp, ss, width, height, height - (y + 1))
  {
    hide At, Apart, IsCell, UpsideDown;
    RowWritten(d0, d1, dp, ds, width, height, y);
    forall r, x | 0 <= r < y + 1 && 0 <= x < width
      ensures At(dp, ds, r, x) >= 0 && d1[At(dp, ds, r, x)] == was[At(sp, ss, RowFrom(over, height, r), x)]
    {
      if r == y {
        CellOfRow(sp, ss, y, x);
        CellOfRow(dp, ds, y, x);
        if over && y > height - 1 - y {
          OppositeRow(sp, ss, dp, ds, height, y, x);
        }
      } else {
        assert d1[At(dp, ds, r, x)] == d0[At(dp, ds, r, x)];
      }
    }
    if over {
      forall r, x | 0 <= r < height - (y + 1) && 0 <= x < width
        ensures 0 <= At(sp, ss, r, x) < |was| && d1[At(sp, ss, r, x)] == was[At(sp, ss, r, x)]
      {
        OppositeRow(sp, ss, dp, ds, height, r, x);
        assert d1[At(dp, ds, height - 1 - r, x)] == d0[At(dp, ds, height - 1 - r, x)];
      }
    }
  }

  /** Column j of the rows of a plane without gaps, joined, is a pixel of the plane ... */
  lemma JoinedCell(p: int, width: nat, height: nat, j: nat) returns (y: nat, x: nat)
    requires j < width * height
    ensures y < height && x < width && At(p, width, y, x) == At(p, 0, 0, j)
  {
    y, x := j / width, j % width;
    assert y * width + x == j;
    if y >= height {
      Grows(width, height, y);
    }
  }

  lemma Grows(width: nat, a: int, b: int)
    requires a <= b
    ensures a * width <= b * width
  {
  }

  /** ... and each pixel of the plane is such a column. */
  lemma CellJoined(p: int, width: nat, height: nat, y: nat, x: nat)
    requires y < height && x < width
    ensures 0 <= y * width + x < width * height && At(p, 0, 0, y * width + x) == At(p, width, y, x)
  {
    Grows(width, y + 1, height);
    assert (y + 1) * width == y * width + width;
  }

  lemma JoinedIn(length: nat, p: int, width: nat, height: nat)
    requires CellsIn(length, p, width, width, height)
    ensures CellsIn(length, p, 0, width * height, 1)
  {
    hide At;
    forall y, x | 0 <= y < 1 && 0 <= x < width * height
      ensures 0 <= At(p, 0, y, x) < length
    {
      var r, column := JoinedCell(p, width, height, x);
    }
  }

  /** A copy of the joined rows is a copy of the plane. */
  lemma JoinedCopy(src: seq<uchar>, sp: int, before: seq<uchar>, dst: seq<uchar>, dp: int, width: nat, height: nat)
    requires CellsIn(|src|, sp, width, width, height) && CellsIn(|dst|, dp, width, width, height)
    requires CellsIn(|src|, sp, 0, width * height, 1) && CellsIn(|dst|, dp, 0, width * height, 1)
    requires Copied(false, src, sp, 0, dst, dp, 0, width * height, 1, 1)
    requires OnlyCells(before, dst, dp, 0, width * height, 1)
    ensures Copied(false, src, sp, width, dst, dp, width, width, height, height)
            && OnlyCells(before, dst, dp, width, width, height)
  {
    hide At;
    forall r, x | 0 <= r < height && 0 <= x < width
      ensures At(dp, width, r, x) >= 0 && dst[At(dp, width, r, x)] == src[At(sp, width, r, x)]
    {
      CellJoined(dp, width, height, r, x);
      CellJoined(sp, width, height, r, x);
    }
    forall k | 0 <= k < |dst| && !IsCell(k, dp, width, width, height)
      ensures dst[k] == before[k]
    {
      if IsCell(k, dp, 0, width * height, 1) {
        var y, x :| 0 <= y < 1 && 0 <= x < width * height && k == At(dp, 0, y, x);
        var r, column := JoinedCell(dp, width, height, x);
      }
    }
  }

  /** Every row below the middle replaced by the opposite one */
  function CopiedOver(i: Image): (r: Image)
    ensures |r| == |i| && forall y :: 0 <= y < |i| ==> r[y] == i[RowFrom(true, |i|, y)]
  {
    seq(|i|, y requires 0 <= y < |i| => i[RowFrom(true, |i|, y)])
  }

  lemma CopiedIsImage(over: bool, was: seq<uchar>, sp: int, ss: int, dst: seq<uchar>, dp: int, ds: int, width: nat,
                      height: nat)
    requires CellsIn(|was|, sp, ss, width, height) && CellsIn(|dst|, dp, ds, width, height)
    requires Copied(over, was, sp, ss, dst, dp, ds, width, height, height)
    ensures var i := ImageOf(was, sp, ss, width, height);
            ImageOf(dst, dp, ds, width, height) == if over then CopiedOver(i) else i
  {
    hide At;
    var i := ImageOf(was, sp, ss, width, height);
    SameImage(ImageOf(dst, dp, ds, width, height), if over then CopiedOver(i) else i, width, height);
  }

  /** The loop of CopyPlane */
  method CopyRows(src: array<uchar>, sp: int, ss: int, dst: array<uchar>, dp: int, ds: int, width: nat, height: nat)
    requires Apart(ds, width) || height == 1
    requires src == dst ==> UpsideDown(sp, ss, dp, ds, height) && Apart(ds, width)
    requires CellsIn(src.Length, sp, ss, width, height) && CellsIn(dst.Length, dp, ds, width, height)
    modifies dst
    ensures Copied(src == dst, old(src[..]), sp, ss, dst[..], dp, ds, width, height, height)
    ensures OnlyCells(old(dst[..]), dst[..], dp, ds, width, height)
  {
    hide At, Apart, CellsIn, IsCell, OnlyCells, OnlyRange, Copied, SameRows, UpsideDown;
    ghost var was, before := src[..], dst[..];
    var s, d := sp, dp;
    AtZero(sp, ss);
    AtZero(dp, ds);
    NoneCopied(src == dst, was, sp, ss, before, dp, ds, width, height);
    for y := 0 to height
      invariant s == At(sp, ss, y, 0) && d == At(dp, ds, y, 0)
      invariant Copied(src == dst, was, sp, ss, dst[..], dp, ds, width, height, y)
      invariant if src == dst then SameRows(was, src[..], sp, ss, width, height, height - y) else src[..] == was
      invariant OnlyCells(before, dst[..], dp, ds, width, height)
    {
      RowIn(src.Length, sp, ss, width, height, y);
      RowIn(dst.Length, dp, ds, width, height, y);
      if src == dst {
        OppositeRow(sp, ss, dp, ds, height, y, 0);
        if y != height - 1 - y {
          RowsMiss(dp, ds, width, y, height - 1 - y);
        }
      }
      ghost var now, d0 := src[..], dst[..];
      CopyRow(src, s, dst, d, width);
      CopyStep(src == dst, was, now, sp, ss, d0, dst[..], dp, ds, width, height, y);
      OnlyCellsTwice(before, d0, dst[..], dp, ds, width, height);
      PointerMoves(sp, ss, y, 0, 1, 0);
      PointerMoves(dp, ds, y, 0, 1, 0);
      s := s + ss;
      d := d + ds;
    }
  }

  /** A plane read from its last row up holds the flipped image. */
  lemma FlippedPlane(mem: seq<uchar>, p: int, stride: int, width: nat, height: nat)
    requires CellsIn(|mem|, p, stride, width, height)
    ensures CellsIn(|mem|, p + stride * (height - 1), -stride, width, height)
    ensures var last := p + stride * (height - 1);
            ImageOf(mem, last, -stride, width, height) == Flipped(ImageOf(mem, p, stride, width, height))
  {
    hide At;
    CellsInFlipped(|mem|, p, stride, width, height);
    var i := ImageOf(mem, p, stride, width, height);
    var j := ImageOf(mem, p + stride * (height - 1), -stride, width, height);
    forall y, x | 0 <= y < height && 0 <= x < width
      ensures j[y][x] == Flipped(i)[y][x]
    {
      AtFlips(p, stride, height, y, x);
    }
    SameImage(j, Flipped(i), width, height);
  }

  lemma FlippedTwice(i: Image)
    ensures Flipped(Flipped(i)) == i
  {
  }

  lemma OnlyCellsFlipped(before: seq<uchar>, after: seq<uchar>, p: int, stride: int, width: nat, height: nat)
    requires OnlyCells(before, after, p + stride * (height - 1), -stride, width, height)
    ensures OnlyCells(before, after, p, stride, width, height)
  {
    hide IsCell;
    forall k | 0 <= k < |after| && !IsCell(k, p, stride, width, height)
      ensures after[k] == before[k]
    {
      if IsCell(k, p + stride * (height - 1), -stride, width, height) {
        IsCellFlipped(k, p, stride, width, height);
      }
    }
  }

  function Abs(x: int): nat {
    if x < 0 then -x else x
  }

  /** The image a plane of negative height stands for: its rows in the opposite order */
  function Oriented(i: Image, height: int): Image {
    if height < 0 then Flipped(i) else i
  }

  /** CopyPlane once its height is not negative */
  method CopyUpright(src: array<uchar>, sp: int, ss: int, dst: array<uchar>, dp: int, ds: int, width: nat, height: nat)
    requires Apart(ds, width) && (src == dst ==> (sp == dp && ss == ds) || UpsideDown(sp, ss, dp, ds, height))
    requires CellsIn(src.Length, sp, ss, width, height) && CellsIn(dst.Length, dp, ds, width, height)
    modifies dst
    ensures var i := ImageOf(old(src[..]), sp, ss, width, height);
            ImageOf(dst[..], dp, ds, width, height)
            == if src == dst && UpsideDown(sp, ss, dp, ds, height) then CopiedOver(i) else i
    ensures OnlyCells(old(dst[..]), dst[..], dp, ds, width, height)
  {
    hide At, Apart, CellsIn, IsCell, Copied, UpsideDown;
    var w, h, s, d := width, height, ss, ds;
    ghost var over := src == dst && UpsideDown(sp, ss, dp, ds, height);
    if over {
      UpsideDownStrides(src[..], sp, ss, dp, ds, width, height);
    }
    if ss == width && ds == width {
      JoinedIn(src.Length, sp, width, height);
      JoinedIn(dst.Length, dp, width, height);
      w, h, s, d := width * height, 1, 0, 0;
    }
    if src == dst && sp == dp && s == d {
      return;
    }
    CopyRows(src, sp, s, dst, dp, d, w, h);
    if ss == width && ds == width {
      JoinedCopy(src[..], sp, old(dst[..]), dst[..], dp, width, height);
    }
    CopiedIsImage(over, old(src[..]), sp, ss, dst[..], dp, ds, width, height);
  }

  /** Upside down the strides differ, or there is no pixel. */
  lemma UpsideDownStrides(mem: seq<uchar>, sp: int, ss: int, dp: int, ds: int, width: nat, height: nat)
    requires UpsideDown(sp, ss, dp, ds, height) && Apart(ds, width) && CellsIn(|mem|, sp, ss, width, height)
    ensures ss == ds ==> width == 0
    ensures ss == width && ds == width ==> width == 0 && sp == dp
    ensures width == 0 ==> CopiedOver(ImageOf(mem, sp, ss, width, height)) == ImageOf(mem, sp, ss, width, height)
  {
    if width == 0 {
      var i := ImageOf(mem, sp, ss, width, height);
      SameImage(CopiedOver(i), i, width, height);
    }
  }

  /** CopyPlane: a negative height writes the destination from its last row up. In place and the other way up, the lower
      half of what is written is a copy of the upper. */
  method CopyPlane(src: array<uchar>, sp: int, ss: int, dst: array<uchar>, dp: int, ds: int, width: nat, height: int)
    requires Apart(ds, width)
    requires src == dst ==> (sp == dp && ss == ds) || UpsideDown(sp, ss, dp, ds, Abs(height))
    requires CellsIn(src.Length, sp, ss, width, Abs(height)) && CellsIn(dst.Length, dp, ds, width, Abs(height))
    modifies dst
    ensures var i := ImageOf(old(src[..]), sp, ss, width, Abs(height));
            ImageOf(dst[..], dp, ds, width, Abs(height))
            == Oriented(if src == dst && CopiesOver(sp, ss, dp, ds, height) then CopiedOver(i) else i, height)
    ensures src != dst ==>
              var i, h := ImageOf(src[..], sp, ss, width, Abs(height)), Abs(height);
              forall y, x :: 0 <= y < h && 0 <= x < width ==>
                ImageOf(dst[..], dp, ds, width, h)[y][x] == i[if height < 0 then h - 1 - y else y][x]
    ensures OnlyCells(old(dst[..]), dst[..], dp, ds, width, Abs(height))
  {
    hide At, CellsIn, IsCell, OnlyCells;
    if height < 0 {
      var h: nat := -height;
      var d, stride := dp + ds * (h - 1), -ds;
      CellsInFlipped(dst.Length, dp, ds, width, h);
      TurnedOver(sp, ss, dp, ds, h);
      CopyUpright(src, sp, ss, dst, d, stride, width, h);
      FlippedPlane(dst[..], dp, ds, width, h);
      FlippedTwice(ImageOf(dst[..], dp, ds, width, h));
      OnlyCellsFlipped(old(dst[..]), dst[..], dp, ds, width, h);
    } else {
      CopyUpright(src, sp, ss, dst, dp, ds, width, height);
    }
  }

  /** A copy within one buffer that turns it over: upside down, or with a negative height the same way up */
  predicate CopiesOver(sp: int, ss: int, dp: int, ds: int, height: int) {
    if height < 0 then sp == dp && ss == ds else UpsideDown(sp, ss, dp, ds, height)
  }

  /** Turning the destination over exchanges the two ways up. */
  lemma TurnedOver(sp: int, ss: int, dp: int, ds: int, height: nat)
    ensures UpsideDown(sp, ss, dp + ds * (height - 1), -ds, height) <==> sp == dp && ss == ds
    ensures UpsideDown(sp, ss, dp, ds, height) <==> sp == dp + ds * (height - 1) && ss == -ds
  {
    assert (-ds) * (height - 1) == -(ds * (height - 1));
  }

  // ---------------------------------------------------------------------------
  // RotatePlane
  // ---------------------------------------------------------------------------

  predicate KnownMode(mode: int) {
    mode == 0 || mode == 90 || mode == 180 || mode == 270
  }

  /** The image turned clockwise by `mode` degrees */
  function Rotated(i: Image, width: nat, mode: int): Image
    requires KnownMode(mode) && forall y :: 0 <= y < |i| ==> |i[y]| == width
  {
    if mode == 0 then i
    else if mode == 90 then Quarter(i, width)
    else if mode == 180 then Half(i)
    else ThreeQuarters(i, width)
  }

  predicate Sideways(mode: int) {
    mode == 90 || mode == 270
  }

  function TurnedWidth(width: nat, height: nat, mode: int): nat {
    if Sideways(mode) then height else width
  }

  function TurnedHeight(width: nat, height: nat, mode: int): nat {
    if Sideways(mode) then width else height
  }

  /** Where each mode takes the pixels of the result r from: for a negative height, the source is turned over first. */
  ghost predicate TakesPixels(i: Image, r: Image, width: nat, height: int, mode: int)
    requires Rect(i, width, Abs(height))
    requires Rect(r, TurnedWidth(width, Abs(height), mode), TurnedHeight(width, Abs(height), mode))
  {
    var h := Abs(height);
    && (mode == 0 ==> forall y, x :: 0 <= y < h && 0 <= x < width ==>
          r[y][x] == i[if height < 0 then h - 1 - y else y][x])
    && (mode == 90 ==> forall x, y :: 0 <= x < width && 0 <= y < h ==>
          r[x][y] == i[if height < 0 then y else h - 1 - y][x])
    && (mode == 180 ==> forall y, x :: 0 <= y < h && 0 <= x < width ==>
          r[y][x] == i[if height < 0 then y else h - 1 - y][width - 1 - x])
    && (mode == 270 ==> forall x, y :: 0 <= x < width && 0 <= y < h ==>
          r[x][y] == i[if height < 0 then h - 1 - y else y][width - 1 - x])
  }

  /** The image turned by each mode takes them from there. */
  lemma RotatedPixels(i: Image, width: nat, height: int, mode: int)
    requires Rect(i, width, Abs(height)) && KnownMode(mode)
    ensures var r := Rotated(Oriented(i, height), width, mode);
            && Rect(r, TurnedWidth(width, Abs(height), mode), TurnedHeight(width, Abs(height), mode))
            && TakesPixels(i, r, width, height, mode)
  {
    hide Quarter, Half, ThreeQuarters;
    var o, h := Oriented(i, height), Abs(height);
    Shapes(o, width, h);
    var r := Rotated(o, width, mode);
    if mode == 90 {
      forall x, y | 0 <= x < width && 0 <= y < h
        ensures r[x][y] == o[h - 1 - y][x]
      {
        QuarterPixel(o, width, h, x, y);
      }
    } else if mode == 180 {
      forall y, x | 0 <= y < h && 0 <= x < width
        ensures r[y][x] == o[h - 1 - y][width - 1 - x]
      {
        HalfPixel(o, width, h, y, x);
      }
    } else if mode == 270 {
      forall x, y | 0 <= x < width && 0 <= y < h
        ensures r[x][y] == i[if height < 0 then h - 1 - y else y][width - 1 - x]
      {
        ThreeQuartersPixel(o, width, h, x, y);
      }
    }
  }

  /** The pixels settle the image: it is the oriented source, turned. */
  lemma TakesExactly(i: Image, r: Image, width: nat, height: int, mode: int)
    requires Rect(i, width, Abs(height)) && KnownMode(mode)
    requires Rect(r, TurnedWidth(width, Abs(height), mode), TurnedHeight(width, Abs(height), mode))
    ensures TakesPixels(i, r, width, height, mode) <==> r == Rotated(Oriented(i, height), width, mode)
  {
    hide Quarter, Half, ThreeQuarters, TakesPixels;
    var turned := Rotated(Oriented(i, height), width, mode);
    RotatedPixels(i, width, height, mode);
    if TakesPixels(i, r, width, height, mode) {
      SamePixels(i, r, turned, width, height, mode);
    }
  }

  lemma SamePixels(i: Image, r: Image, q: Image, width: nat, height: int, mode: int)
    requires Rect(i, width, Abs(height)) && KnownMode(mode)
    requires Rect(r, TurnedWidth(width, Abs(height), mode), TurnedHeight(width, Abs(height), mode))
    requires Rect(q, TurnedWidth(width, Abs(height), mode), TurnedHeight(width, Abs(height), mode))
    requires TakesPixels(i, r, width, height, mode) && TakesPixels(i, q, width, height, mode)
    ensures r == q
  {
    SameImage(r, q, TurnedWidth(width, Abs(height), mode), TurnedHeight(width, Abs(height), mode));
  }

  /** For example, 1 2 turned clockwise is 1 above 2, and counterclockwise 2 above 1. */
  lemma RowTurned()
    ensures Rotated([[1, 2]], 2, 90) == [[1], [2]] && Rotated([[1, 2]], 2, 270) == [[2], [1]]
    ensures Rotated([[1, 2]], 2, 180) == [[2, 1]] && Rotated([[1, 2]], 2, 0) == [[1, 2]]
    ensures Rotated(Oriented([[1], [2]], -2), 1, 90) == [[1, 2]]
  {
    var i: Image := [[1, 2]];
    assert Quarter(i, 2)[0] == [1] && Quarter(i, 2)[1] == [2];
    assert ThreeQuarters(i, 2)[0] == [2] && ThreeQuarters(i, 2)[1] == [1];
    assert Half(i)[0] == [2, 1];
    var j: Image := [[1], [2]];
    assert Quarter(Flipped(j), 1)[0] == [1, 2];
  }

  /** Turning by one angle and then by another is turning by their sum: the rotations of a plane form a group. */
  lemma RotationsAdd(i: Image, width: nat, height: nat, first: int, second: int)
    requires Rect(i, width, height) && KnownMode(first) && KnownMode(second)
    ensures Rect(Rotated(i, width, first), TurnedWidth(width, height, first), TurnedHeight(width, height, first))
    ensures KnownMode((first + second) % 360)
    ensures Rotated(Rotated(i, width, first), TurnedWidth(width, height, first), second)
            == Rotated(i, width, (first + second) % 360)
  {
    hide Quarter, Half, ThreeQuarters;
    Shapes(i, width, height);
    var q := Quarter(i, width);
    Shapes(q, height, width);
    TwoQuarters(i, width, height);
    QuarterAndBack(i, width, height);
    ThreeQuarterTurns(i, width, height);
    HalfTwice(i, width, height);
    HalfTwice(q, height, width);
    if first == 90 {
    } else if first == 180 {
      ThreeQuarterTurns(Half(i), width, height);
    } else if first == 270 {
      ThreeQuarterTurns(q, height, width);
      TwoQuarters(q, height, width);
      ThreeQuarterTurns(Half(q), height, width);
    }
  }

  /** In place the source is the destination the same way up, or upside down, and not both. */
  lemma WayUp(mem: seq<uchar>, p: int, stride: int, width: nat, height: nat)
    requires width > 0 && Apart(stride, width)
    ensures !UpsideDown(p, stride, p, stride, height)
    ensures UpsideDown(p + (height - 1) * stride, -stride, p, stride, height)
  {
  }

  /** RotatePlane accepts its arguments. */
  predicate Accepts(src: array?<uchar>, dst: array?<uchar>, width: int, height: int, mode: int) {
    src != null && dst != null && width > 0 && height != 0 && KnownMode(mode)
  }

  /** What RotatePlane makes of an image in place with a negative height, where it reads rows it has written: the lower
      half becomes that of the image, mirrored up, or the upper half is folded. */
  function InvertedInPlace(i: Image, mode: int): Image {
    if mode == 0 then CopiedOver(Flipped(i)) else FoldedTop(i)
  }

  /** In place, a negative height gives the inverted image, turned, exactly for images that are symmetric from top to
      bottom (not turned), or whose rows above the middle are palindromes (half a turn). */
  lemma InvertedInPlaceRight(i: Image, width: nat, height: nat, mode: int)
    requires Rect(i, width, height) && (mode == 0 || mode == 180)
    ensures InvertedInPlace(i, mode) == Rotated(Flipped(i), width, mode)
            <==> if mode == 0 then forall y :: 0 <= y < height ==> i[y] == i[height - 1 - y]
                 else forall y :: 0 <= y < height / 2 ==> IsPalindrome(i[y])
  {
    if mode == 0 {
      CopiedOverRight(i, width, height);
    } else {
      FoldedTopRight(i, width, height);
    }
  }

  lemma CopiedOverRight(i: Image, width: nat, height: nat)
    requires Rect(i, width, height)
    ensures CopiedOver(Flipped(i)) == Flipped(i) <==> forall y :: 0 <= y < height ==> i[y] == i[height - 1 - y]
  {
    var f, c := Flipped(i), CopiedOver(Flipped(i));
    if c == f {
      forall y | 0 <= y < height
        ensures i[y] == i[height - 1 - y]
      {
        assert c[y] == f[y] && c[height - 1 - y] == f[height - 1 - y];
      }
    }
    if forall y :: 0 <= y < height ==> i[y] == i[height - 1 - y] {
      assert forall y :: 0 <= y < height ==> c[y] == f[y];
    }
  }

  lemma FoldedTopRight(i: Image, width: nat, height: nat)
    requires Rect(i, width, height)
    ensures FoldedTop(i) == Half(Flipped(i)) <==> forall y :: 0 <= y < height / 2 ==> IsPalindrome(i[y])
  {
    hide Half, IsPalindrome;
    var f, h := FoldedTop(i), Half(Flipped(i));
    Shapes(Flipped(i), width, height);
    forall y, x | 0 <= y < height && 0 <= x < width
      ensures h[y][x] == i[y][width - 1 - x]
    {
      HalfPixel(Flipped(i), width, height, y, x);
    }
    if f == h {
      forall y | 0 <= y < height / 2
        ensures IsPalindrome(i[y])
      {
        FoldedRowRight(i, f, h, width, y);
      }
    }
    if forall y :: 0 <= y < height / 2 ==> IsPalindrome(i[y]) {
      forall y, x | 0 <= y < height && 0 <= x < width
        ensures f[y][x] == h[y][x]
      {
        if y < height - 1 - y {
          PalindromeAt(i[y], x);
        }
      }
      SameImage(f, h, width, height);
    }
  }

  lemma PalindromeAt(row: seq<uchar>, x: nat)
    requires IsPalindrome(row) && x < |row|
    ensures row[x] == row[|row| - 1 - x]
  {
  }

  lemma FoldedRowRight(i: Image, f: Image, h: Image, width: nat, y: nat)
    requires |i| == |f| == |h| && y < |i| - 1 - y && |i[y]| == |f[y]| == |h[y]| == width && f[y] == h[y]
    requires forall x :: 0 <= x < width ==> f[y][x] == i[y][Column(true, width, x)] && h[y][x] == i[y][width - 1 - x]
    ensures IsPalindrome(i[y])
  {
    forall x | 0 <= x < width
      ensures i[y][x] == i[y][width - 1 - x]
    {
      assert f[y][x] == h[y][x] && f[y][width - 1 - x] == h[y][width - 1 - x];
    }
  }

  /** For example, 1 2 above 3 4: half a turn of it inverted should be 2 1 above 4 3, and comes out as 2 2 above 4 3. */
  lemma InvertedInPlaceSpoils()
    ensures InvertedInPlace([[1, 2], [3, 4]], 180) == [[2, 2], [4, 3]]
    ensures Rotated(Flipped([[1, 2], [3, 4]]), 2, 180) == [[2, 1], [4, 3]]
    ensures InvertedInPlace([[1, 2], [3, 4]], 0) == [[3, 4], [3, 4]] != Flipped([[1, 2], [3, 4]])
  {
    var i: Image := [[1, 2], [3, 4]];
    assert FoldedTop(i)[0] == [2, 2] && FoldedTop(i)[1] == [4, 3];
    assert Half(Flipped(i))[0] == [2, 1] && Half(Flipped(i))[1] == [4, 3];
    assert CopiedOver(Flipped(i))[0] == [3, 4] && CopiedOver(Flipped(i))[1] == [3, 4];
    assert Flipped(i)[1] == [1, 2];
  }

  /**
   RotatePlane, with `mode` the value of the enumeration: -1 and no change for arguments it
   refuses, else the source, inverted when its height is negative, turned by `mode` degrees.
   In place, a negative height spoils the image.
   */
  method RotatePlane(kernel: Kernel, src: array?<uchar>, sp: int, ss: int, dst: array?<uchar>, dp: int, ds: int,
                     width: int, height: int, mode: int)
    returns (status: int)
    requires kernel.Any? ==> kernel.lanes > 0
    requires Accepts(src, dst, width, height, mode) ==>
      && CellsIn(src.Length, sp, ss, width, Abs(height))
      && CellsIn(dst.Length, dp, ds, TurnedWidth(width, Abs(height), mode), TurnedHeight(width, Abs(height), mode))
      && Apart(ds, TurnedWidth(width, Abs(height), mode))
      && (src == dst ==> !Sideways(mode) && sp == dp && ss == ds)
    modifies dst
    ensures status == if Accepts(src, dst, width, height, mode) then 0 else -1
    ensures status == 0 <==> && src != null && dst != null && width > 0 && height != 0
                             && (mode == 0 || mode == 90 || mode == 180 || mode == 270)
    ensures status == 0 ==>
      var i := ImageOf(old(src[..]), sp, ss, width, Abs(height));
      var w, h := TurnedWidth(width, Abs(height), mode), TurnedHeight(width, Abs(height), mode);
      && ImageOf(dst[..], dp, ds, w, h)
         == (if src == dst && height < 0 then InvertedInPlace(i, mode) else Rotated(Oriented(i, height), width, mode))
      && OnlyCells(old(dst[..]), dst[..], dp, ds, w, h)
    ensures status == 0 && !(src == dst && height < 0) ==>
      var w, h := TurnedWidth(width, Abs(height), mode), TurnedHeight(width, Abs(height), mode);
      TakesPixels(ImageOf(old(src[..]), sp, ss, width, Abs(height)), ImageOf(dst[..], dp, ds, w, h), width, height,
                  mode)
    ensures status == -1 && dst != null ==> dst[..] == old(dst[..])
  {
    hide Quarter, Half, ThreeQuarters, FoldedTop, CopiedOver, Flipped;
    hide At, Apart, CellsIn, IsCell, OnlyCells, UpsideDown;
    if src == null || width <= 0 || height == 0 || dst == null {
      return -1;
    }
    var h: nat := Abs(height);
    var s, stride := sp, ss;
    if height < 0 {
      s, stride := sp + (h - 1) * ss, -ss;
      assert s == sp + ss * (h - 1);
      if KnownMode(mode) {
        FlippedPlane(src[..], sp, ss, width, h);
        FlippedTwice(ImageOf(src[..], sp, ss, width, h));
      }
    }
    if Accepts(src, dst, width, height, mode) {
      RotatedPixels(ImageOf(src[..], sp, ss, width, h), width, height, mode);
      if src == dst {
        WayUp(dst[..], dp, ds, width, h);
      }
    }
    match mode {
      case 0 =>
        CopyPlane(src, s, stride, dst, dp, ds, width, h);
      case 90 =>
        RotatePlane90(kernel, src, s, stride, dst, dp, ds, width, h);
      case 270 =>
        RotatePlane270(kernel, src, s, stride, dst, dp, ds, width, h);
      case 180 =>
        RotatePlane180(src, s, stride, dst, dp, ds, width, h);
      case _ =>
        return -1;
    }
    return 0;
  }
}
