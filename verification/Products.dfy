/** Products of integers, for kernels that square and multiply bytes. */
module Products {
  function Square(d: int): nat {
    d * d
  }

  lemma Monotone(k: int, a: int, b: int)
    requires k >= 0 && a <= b
    ensures k * a <= k * b && a * k <= b * k
  {
  }

  /** The square of a difference of bytes */
  lemma SquareBound(d: int)
    requires -255 <= d <= 255
    ensures 0 <= d * d == Square(d) <= 65025
  {
    var e := if d >= 0 then d else -d;
    assert d * d == e * e;
    Monotone(e, e, 255);
    Monotone(255, e, 255);
  }
}
