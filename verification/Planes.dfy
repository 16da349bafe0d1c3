/** Image planes in flat buffers: rows of bytes, a stride apart, which may be negative. */
module Planes {
  /** Address of row y. */
  function RowAt(offset: int, stride: int, y: int): int {
    offset + y * stride
  }

  /** Every row lies in a buffer of the given length. */
  ghost predicate PlaneIn(length: nat, offset: int, stride: int, width: nat, height: nat) {
    forall y :: 0 <= y < height ==> 0 <= RowAt(offset, stride, y) && RowAt(offset, stride, y) + width <= length
  }

  /** Address of column x of row y. */
  function At(p: int, stride: int, y: int, x: int): int {
    RowAt(p, stride, y) + x
  }

  /** Every pixel lies in a buffer of the given length. Unlike rows, pixels are none in a plane without width. */
  ghost predicate CellsIn(length: nat, p: int, stride: int, width: nat, height: nat) {
    forall y, x :: 0 <= y < height && 0 <= x < width ==> 0 <= At(p, stride, y, x) < length
  }

  lemma NextRow(offset: int, stride: int, y: int)
    ensures RowAt(offset, stride, y + 1) == RowAt(offset, stride, y) + stride
    ensures RowAt(offset, stride, y - 1) == RowAt(offset, stride, y) - stride
    ensures RowAt(offset, stride, 0) == offset
  {
  }
}
