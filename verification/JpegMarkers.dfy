/**
 The check of libyuv's mjpeg_validate.cc that a buffer looks like a whole JPEG: a start
 marker in front, and an end marker, ff d9 of section B.1.1.3 of ITU-T T.81, behind it.
 */
module JpegMarkers {
  import opened MachineInts

  const MAX_JPEG_SIZE := 0x7fffffff
  const BACK_SEARCH_SIZE := 1024

  /** memchr: the first position of a byte among n from p, or p + n */
  method FindByte(a: array<uchar>, p: nat, c: uchar, n: nat) returns (i: nat)
    requires p + n <= a.Length
    ensures p <= i <= p + n && (i < p + n ==> a[i] == c)
    ensures forall j :: p <= j < i ==> a[j] != c
  {
    i := p;
    while i < p + n && a[i] != c
      invariant p <= i <= p + n && forall j :: p <= j < i ==> a[j] != c
    {
      i := i + 1;
    }
  }

  /** ScanEOI: an end marker among the size bytes from p */
  method ScanEoi(a: array<uchar>, p: nat, size: nat) returns (found: bool)
    requires p + size <= a.Length
    ensures found <==> exists i :: p <= i < p + size - 1 && a[i] == 0xff && a[i + 1] == 0xd9
  {
    if size >= 2 {
      var end := p + size - 1;
      var it := p;
      while it < end
        invariant p <= it <= end
        invariant forall i :: p <= i < it ==> !(a[i] == 0xff && a[i + 1] == 0xd9)
      {
        it := FindByte(a, it, 0xff, end - it);
        if it == end {
          break;
        }
        if a[it + 1] == 0xd9 {
          return true;
        }
        it := it + 1;
      }
    }
    return false;
  }

  /** ValidateJpeg: accepted exactly when the size is right, ff d8 ff is in front and an end marker follows the start
      marker; the search of the last 1024 bytes and the shortened one of the rest miss no position between them. */
  method ValidateJpeg(a: array?<uchar>, size: nat) returns (valid: bool)
    requires a != null ==> size <= a.Length
    ensures valid <==> && a != null && 64 <= size <= 0x7fffffff
                       && a[0] == 0xff && a[1] == 0xd8 && a[2] == 0xff
                       && exists i :: 2 <= i < size - 1 && a[i] == 0xff && a[i + 1] == 0xd9
  {
    if size < 64 || size > MAX_JPEG_SIZE || a == null {
      return false;
    }
    if a[0] != 0xff || a[1] != 0xd8 || a[2] != 0xff {
      return false;
    }
    var left := size;
    if left > BACK_SEARCH_SIZE {
      var found := ScanEoi(a, left - BACK_SEARCH_SIZE, BACK_SEARCH_SIZE);
      if found {
        return true;
      }
      left := left - BACK_SEARCH_SIZE + 1;
    }
    valid := ScanEoi(a, 2, left - 2);
  }
}
