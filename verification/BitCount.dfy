/**
 Bit operations on natural numbers, and the word trick by which HammingDistance_C of
 libyuv's compare_common.cc counts the bits of 32 at once.
 */
module BitCount {
  import opened MachineInts

  /** The & of two unsigned integers. */
  function And(x: nat, y: nat): nat {
    if x == 0 || y == 0 then 0 else 2 * And(x / 2, y / 2) + if x % 2 == 1 && y % 2 == 1 then 1 else 0
  }

  /** The ^ of two unsigned integers. */
  function Xor(x: nat, y: nat): nat
    decreases x + y
  {
    if x == 0 && y == 0 then 0 else 2 * Xor(x / 2, y / 2) + if x % 2 != y % 2 then 1 else 0
  }

  /** Number of one bits. */
  function Bits(x: nat): nat {
    if x == 0 then 0 else x % 2 + Bits(x / 2)
  }

  /** The trick on a 32-bit word. */
  function WordTrick(x: uint32): uint32 {
    var u := U32(x - And(x / 2, 0x55555555));
    var v := U32(And(u / 4, 0x33333333) + And(u, 0x33333333));
    U32(And(U32(v + v / 16), 0x0f0f0f0f) * 0x01010101) / 0x100_0000
  }

  /** The trick on a byte. */
  function ByteTrick(x: uchar): uint32 {
    var u := U32(x - And(x / 2, 0x55));
    var v := U32(And(u / 4, 0x33) + And(u, 0x33));
    U32(And(U32(v + v / 16), 0x0f))
  }

  // ---------------------------------------------------------------------------
  // Masks that repeat
  // ---------------------------------------------------------------------------

  /** 01 repeated k times in binary. */
  function Mask5(k: nat): nat { if k == 0 then 0 else 4 * Mask5(k - 1) + 1 }

  /** 0011 repeated k times in binary. */
  function Mask3(k: nat): nat { if k == 0 then 0 else 16 * Mask3(k - 1) + 3 }

  /** 00001111 repeated k times in binary. */
  function MaskF(k: nat): nat { if k == 0 then 0 else 256 * MaskF(k - 1) + 15 }

  lemma AndBit(x: nat, m: nat, b: nat)
    requires b < 2
    ensures And(x, 2 * m + b) == 2 * And(x / 2, m) + (if b == 1 then x % 2 else 0)
  {
  }

  lemma AndTwo(x: nat, m: nat, b: nat)
    requires b == 0 || b == 3
    ensures And(x, 4 * m + b) == 4 * And(x / 4, m) + (if b == 3 then x % 4 else 0)
  {
    AndBit(x, 2 * m + b / 2, b % 2);
    AndBit(x / 2, m, b / 2);
    assert x / 2 / 2 == x / 4;
    assert x % 4 == 2 * (x / 2 % 2) + x % 2;
  }

  lemma DivDiv(x: nat)
    ensures x / 2 / 2 == x / 4 && x / 4 / 4 == x / 16 && x / 16 / 16 == x / 256
    ensures x % 4 == 2 * (x / 2 % 2) + x % 2 && x % 16 == 4 * (x / 4 % 4) + x % 4
  {
  }

  lemma AndMask5(x: nat, m: nat)
    ensures And(x, 4 * m + 1) == 4 * And(x / 4, m) + x % 2
  {
    AndBit(x, 2 * m, 1);
    AndBit(x / 2, m, 0);
    DivDiv(x);
    hide And;
  }

  lemma AndMask3(x: nat, m: nat)
    ensures And(x, 16 * m + 3) == 16 * And(x / 16, m) + x % 4
  {
    AndTwo(x, 4 * m, 3);
    AndTwo(x / 4, m, 0);
    DivDiv(x);
    hide And;
  }

  lemma AndMaskF(x: nat, m: nat)
    ensures And(x, 256 * m + 15) == 256 * And(x / 256, m) + x % 16
  {
    hide And;
    var y := x / 4;
    AndTwo(x, 64 * m + 3, 3);
    AndTwo(y, 16 * m, 3);
    AndMask0(y / 4, m);
    DivDiv(x);
    DivDiv(x / 16);
    assert And(y, 64 * m + 3) == 4 * And(y / 4, 16 * m) + y % 4;
    assert And(x, 256 * m + 15) == 4 * And(y, 64 * m + 3) + x % 4;
  }

  lemma AndMask0(x: nat, m: nat)
    ensures And(x, 16 * m) == 16 * And(x / 16, m)
  {
    hide And;
    AndTwo(x, 4 * m, 0);
    AndTwo(x / 4, m, 0);
    DivDiv(x);
  }

  // ---------------------------------------------------------------------------
  // Three stages: every two, four, eight bits replaced by their number
  // ---------------------------------------------------------------------------

  function Pow(base: nat, k: nat): nat { if k == 0 then 1 else base * Pow(base, k - 1) }

  function ByTwo(x: nat): nat { if x == 0 then 0 else 4 * ByTwo(x / 4) + Bits(x % 4) }

  function ByFour(x: nat): nat { if x == 0 then 0 else 16 * ByFour(x / 16) + Bits(x % 16) }

  function ByEight(x: nat): nat { if x == 0 then 0 else 256 * ByEight(x / 256) + Bits(x % 256) }

  lemma BitsOfFour(d: nat)
    requires d < 4
    ensures Bits(d) == d - d / 2 && Bits(d) == d % 2 + d / 2
  {
    assert Bits(d) == d % 2 + Bits(d / 2);
    assert Bits(d / 2) == d / 2 % 2 + Bits(d / 2 / 2);
  }

  lemma BitsSmall(d: nat)
    requires d < 4
    ensures Bits(d) <= 2
  {
    BitsOfFour(d);
  }

  lemma MaskSteps(k: nat)
    requires k > 0
    ensures Mask5(k) == 4 * Mask5(k - 1) + 1 && Mask3(k) == 16 * Mask3(k - 1) + 3 && MaskF(k) == 256 * MaskF(k - 1) + 15
  {
  }

  lemma PowSteps(x: nat, k: nat)
    requires k > 0
    ensures x < Pow(4, k) ==> x / 4 < Pow(4, k - 1)
    ensures x < Pow(16, k) ==> x / 16 < Pow(16, k - 1)
    ensures x < Pow(256, k) ==> x / 256 < Pow(256, k - 1)
  {
  }

  lemma BitsSplit4(a: nat, d: nat)
    requires d < 4
    ensures Bits(4 * a + d) == Bits(a) + Bits(d)
  {
    var x := 4 * a + d;
    BitsOfFour(d);
    assert x / 2 == 2 * a + d / 2 && x / 2 / 2 == a && x / 2 % 2 == d / 2 && x % 2 == d % 2;
    BitsStep(x);
    BitsStep(x / 2);
    hide Bits;
  }

  lemma BitsStep(x: nat)
    ensures Bits(x) == x % 2 + Bits(x / 2)
  {
  }

  lemma BitsSplit16(a: nat, e: nat, d: nat)
    requires d < 4 && e < 4
    ensures Bits(16 * a + (4 * e + d)) == Bits(a) + Bits(e) + Bits(d)
    ensures Bits(4 * e + d) == Bits(e) + Bits(d) <= 4
  {
    BitsSplit4(4 * a + e, d);
    BitsSplit4(a, e);
    BitsSplit4(e, d);
    BitsOfFour(e);
    BitsOfFour(d);
    hide Bits;
    assert 4 * (4 * a + e) + d == 16 * a + (4 * e + d);
  }

  lemma BitsSplit256(a: nat, e: nat, d: nat)
    requires d < 16 && e < 16
    ensures Bits(256 * a + (16 * e + d)) == Bits(a) + Bits(e) + Bits(d)
    ensures Bits(16 * e + d) == Bits(e) + Bits(d) && Bits(e) <= 4 && Bits(d) <= 4
  {
    hide Bits;
    BitsSplitHex(16 * a + e, d);
    BitsSplitHex(a, e);
    BitsSplitHex(e, d);
    assert 16 * (16 * a + e) + d == 256 * a + (16 * e + d);
  }

  lemma BitsSplitHex(a: nat, d: nat)
    requires d < 16
    ensures Bits(16 * a + d) == Bits(a) + Bits(d) && Bits(d) <= 4
  {
    hide Bits;
    var e, f := d / 4, d % 4;
    BitsSplit16(a, e, f);
    assert d == 4 * e + f;
  }

  lemma ByTwoStep(a: nat, d: nat)
    requires d < 4
    ensures ByTwo(4 * a + d) == 4 * ByTwo(a) + Bits(d)
  {
  }

  lemma ByFourStep(a: nat, d: nat)
    requires d < 16
    ensures ByFour(16 * a + d) == 16 * ByFour(a) + Bits(d)
  {
  }

  lemma StageTwoStep(a: nat, d: nat, m: nat)
    requires d < 4
    ensures And((4 * a + d) / 2, 4 * m + 1) == 4 * And(a / 2, m) + d / 2
  {
    var x := (4 * a + d) / 2;
    AndMask5(x, m);
    hide And;
    assert x == 2 * a + d / 2;
    assert x / 4 == a / 2 && x % 2 == d / 2;
  }

  lemma {:induction false} StageTwo(x: nat, k: nat)
    requires x < Pow(4, k)
    ensures And(x / 2, Mask5(k)) <= x && x - And(x / 2, Mask5(k)) == ByTwo(x)
    decreases k
  {
    if k > 0 {
      hide And, Bits, ByTwo, Mask5, Pow;
      PowSteps(x, k);
      MaskSteps(k);
      var a, d := x / 4, x % 4;
      StageTwo(a, k - 1);
      StageTwoStep(a, d, Mask5(k - 1));
      BitsOfFour(d);
      ByTwoStep(a, d);
    }
  }

  lemma StageFourStep(u: nat, v: nat, n1: nat, n0: nat, m: nat)
    requires u == 16 * v + 4 * n1 + n0 && n1 <= 2 && n0 <= 2
    ensures And(u / 4, 16 * m + 3) + And(u, 16 * m + 3) == 16 * (And(v / 4, m) + And(v, m)) + n1 + n0
  {
    hide And;
    AndMask3(u / 4, m);
    AndMask3(u, m);
    Divide(u, 16, v, 4 * n1 + n0);
    Divide(u, 4, 4 * v + n1, n0);
    FourOf(v, n1);
  }

  lemma FourOf(v: nat, n: nat)
    requires n < 4
    ensures (4 * v + n) / 16 == v / 4 && (4 * v + n) % 4 == n
  {
    assert 4 * v + n == 16 * (v / 4) + (4 * (v % 4) + n);
  }

  lemma {:induction false} StageFour(x: nat, k: nat)
    requires x < Pow(16, k)
    ensures And(ByTwo(x) / 4, Mask3(k)) + And(ByTwo(x), Mask3(k)) == ByFour(x)
    decreases k
  {
    if k > 0 {
      hide And, Bits, ByTwo, ByFour, Mask3, Pow;
      PowSteps(x, k);
      MaskSteps(k);
      StageFour(x / 16, k - 1);
      var e, d := SixteenDigits(x);
      StageFourStep(ByTwo(x), ByTwo(x / 16), Bits(e), Bits(d), Mask3(k - 1));
    }
  }

  lemma SixteenDigits(x: nat) returns (e: nat, d: nat)
    ensures ByTwo(x) == 16 * ByTwo(x / 16) + 4 * Bits(e) + Bits(d) && Bits(e) <= 2 && Bits(d) <= 2
    ensures ByFour(x) == 16 * ByFour(x / 16) + Bits(e) + Bits(d)
  {
    hide Bits, ByTwo, ByFour;
    var a := x / 16;
    e, d := Hex(x);
    BitsSplit16(a, e, d);
    BitsSmall(e);
    BitsSmall(d);
    TwoSteps(a, e, d);
    ByFourStep(a, 4 * e + d);
  }

  lemma TwoSteps(a: nat, e: nat, d: nat)
    requires e < 4 && d < 4
    ensures ByTwo(16 * a + (4 * e + d)) == 16 * ByTwo(a) + 4 * Bits(e) + Bits(d)
  {
    hide Bits, ByTwo;
    ByTwoStep(4 * a + e, d);
    ByTwoStep(a, e);
    assert 4 * (4 * a + e) + d == 16 * a + (4 * e + d);
  }

  /** u + (u >> 4) */
  function WithUpper(v: nat): nat { v + v / 16 }

  lemma StageEightStep(v: nat, w: nat, n1: nat, n0: nat, m: nat)
    requires v == 256 * w + 16 * n1 + n0 && n1 <= 4 && n0 <= 4 && w % 16 <= 4
    ensures And(WithUpper(v), 256 * m + 15) == 256 * And(WithUpper(w), m) + n1 + n0
  {
    hide And;
    AndMaskF(WithUpper(v), m);
    NoCarry(v, w, n1, n0);
  }

  lemma {:induction false} StageEight(x: nat, k: nat)
    requires x < Pow(256, k)
    ensures And(WithUpper(ByFour(x)), MaskF(k)) == ByEight(x)
    decreases k
  {
    if k > 0 {
      hide And, Bits, ByFour, ByEight, MaskF, Pow, WithUpper;
      PowSteps(x, k);
      MaskSteps(k);
      StageEight(x / 256, k - 1);
      var e, d := TwoFiftySixDigits(x);
      LowDigit(x / 256);
      StageEightStep(ByFour(x), ByFour(x / 256), Bits(e), Bits(d), MaskF(k - 1));
    }
  }

  lemma TwoFiftySixDigits(x: nat) returns (e: nat, d: nat)
    ensures ByFour(x) == 256 * ByFour(x / 256) + 16 * Bits(e) + Bits(d) && Bits(e) <= 4 && Bits(d) <= 4
    ensures ByEight(x) == 256 * ByEight(x / 256) + Bits(e) + Bits(d)
  {
    hide Bits, ByFour, ByEight;
    var a := x / 256;
    e, d := TwoHex(x);
    BitsSplit256(a, e, d);
    FourSteps(a, e, d);
    ByEightStep(a, 16 * e + d);
  }

  lemma FourSteps(a: nat, e: nat, d: nat)
    requires e < 16 && d < 16
    ensures ByFour(256 * a + (16 * e + d)) == 256 * ByFour(a) + 16 * Bits(e) + Bits(d)
  {
    hide Bits, ByFour;
    ByFourStep(16 * a + e, d);
    ByFourStep(a, e);
    assert 16 * (16 * a + e) + d == 256 * a + (16 * e + d);
  }

  /** Two binary digits and two more. */
  lemma Hex(x: nat) returns (e: nat, d: nat)
    ensures e < 4 && d < 4 && x == 16 * (x / 16) + (4 * e + d)
  {
    var r := x % 16;
    e, d := r / 4, r % 4;
  }

  lemma TwoHex(x: nat) returns (e: nat, d: nat)
    ensures e < 16 && d < 16 && x == 256 * (x / 256) + (16 * e + d)
  {
    var r := x % 256;
    e, d := r / 16, r % 16;
  }

  lemma ByEightStep(a: nat, d: nat)
    requires d < 256
    ensures ByEight(256 * a + d) == 256 * ByEight(a) + Bits(d)
  {
    hide Bits;
    assert (256 * a + d) / 256 == a && (256 * a + d) % 256 == d by { Divide(256 * a + d, 256, a, d); }
    ZeroBits();
  }

  lemma ZeroBits()
    ensures Bits(0) == 0
  {
  }

  lemma Divide(x: nat, k: nat, a: nat, d: nat)
    requires k in {2, 4, 16, 256} && d < k
    requires k == 2 ==> x == 2 * a + d
    requires k == 4 ==> x == 4 * a + d
    requires k == 16 ==> x == 16 * a + d
    requires k == 256 ==> x == 256 * a + d
    ensures x / k == a && x % k == d
  {
    if k == 2 { assert x / 2 == a; }
    else if k == 4 { assert x / 4 == a; }
    else if k == 16 { assert x / 16 == a; }
    else { assert x / 256 == a; }
  }

  /** The lowest hexadecimal digit of a count by fours is at most four. */
  lemma LowDigit(x: nat)
    ensures ByFour(x) % 16 <= 4
  {
    hide Bits, ByFour;
    BitsSplitHex(0, x % 16);
    ByFourStep(x / 16, x % 16);
    assert x == 16 * (x / 16) + x % 16;
  }

  lemma NoCarry(v: nat, w: nat, n1: nat, n0: nat)
    requires v == 256 * w + 16 * n1 + n0 && n1 <= 4 && n0 <= 4 && w % 16 <= 4
    ensures (v + v / 16) % 16 == n1 + n0 && (v + v / 16) / 256 == w + w / 16
  {
    var q, r := w / 16, w % 16;
    assert v / 16 == 16 * w + n1;
    assert v + v / 16 == 256 * (w + q) + (16 * (r + n1) + n1 + n0);
  }

  /** Multiplying by 0x01010101 gathers the four counts in the top byte. */
  lemma Gather(y0: nat, y1: nat, y2: nat, y3: nat)
    requires y0 <= 8 && y1 <= 8 && y2 <= 8 && y3 <= 8
    ensures U32((y0 + 256 * y1 + 65536 * y2 + 0x100_0000 * y3) * 0x01010101) / 0x100_0000 == y0 + y1 + y2 + y3
  {
    var low := y0 + 256 * (y0 + y1) + 65536 * (y0 + y1 + y2);
    var total := low + 0x100_0000 * (y0 + y1 + y2 + y3);
    var high := (y1 + y2 + y3) + 256 * (y2 + y3) + 65536 * y3;
    assert (y0 + 256 * y1 + 65536 * y2 + 0x100_0000 * y3) * 0x01010101 == total + 0x1_0000_0000 * high;
    assert 0 <= low < 0x100_0000 && 0 <= total < 0x1_0000_0000;
    Reduce(total, high);
  }

  lemma Reduce(total: int, high: int)
    requires 0 <= total < 0x1_0000_0000 && high >= 0
    ensures U32(total + 0x1_0000_0000 * high) == total
  {
  }

  lemma MaskValues()
    ensures Mask5(4) == 0x55 && Mask3(2) == 0x33 && MaskF(1) == 0x0f
    ensures Mask5(16) == 0x55555555 && Mask3(8) == 0x33333333 && MaskF(4) == 0x0f0f0f0f
  {
    assert Mask5(8) == 0x5555 by { assert Mask5(6) == 0x555; }
    assert Mask5(12) == 0x555555 by { assert Mask5(10) == 0x55555; }
    assert Mask5(16) == 0x55555555 by { assert Mask5(14) == 0x5555555; }
    assert Mask3(4) == 0x3333;
    assert Mask3(8) == 0x33333333 by { assert Mask3(6) == 0x333333; }
    assert MaskF(4) == 0x0f0f0f0f by { assert MaskF(2) == 0x0f0f; }
  }

  // ---------------------------------------------------------------------------
  // The trick counts bits
  // ---------------------------------------------------------------------------

  lemma PowValues()
    ensures Pow(4, 4) == Pow(16, 2) == Pow(256, 1) == 256
    ensures Pow(4, 16) == Pow(16, 8) == Pow(256, 4) == 0x1_0000_0000
  {
    assert Pow(4, 2) == 16 && Pow(4, 4) == 256;
    assert Pow(4, 6) == 4096 && Pow(4, 8) == 65536 && Pow(4, 10) == 0x10_0000 && Pow(4, 12) == 0x100_0000
        && Pow(4, 14) == 0x1000_0000;
    assert Pow(16, 2) == 256 && Pow(16, 4) == 65536 && Pow(16, 6) == 0x100_0000;
    assert Pow(256, 2) == 65536;
  }

  /** 0001 repeated k times in binary. */
  function Mask1(k: nat): nat { if k == 0 then 0 else 16 * Mask1(k - 1) + 1 }

  lemma {:induction false} FourBound(x: nat, k: nat)
    requires x < Pow(16, k)
    ensures ByFour(x) <= 4 * Mask1(k)
    decreases k
  {
    if k > 0 {
      hide Bits, ByFour, Pow;
      PowSteps(x, k);
      FourBound(x / 16, k - 1);
      BitsSplitHex(0, x % 16);
      ByFourStep(x / 16, x % 16);
    } else {
      assert ByFour(0) == 0;
    }
  }

  lemma {:induction false} TwoBound(x: nat)
    ensures ByTwo(x) <= x
  {
    if x > 0 {
      TwoBound(x / 4);
      BitsOfFour(x % 4);
    }
  }

  lemma DivMod256(x: nat) returns (q: nat, r: nat)
    ensures x == 256 * q + r && r < 256
  {
    q, r := x / 256, x % 256;
  }

  /** The four bytes of a word. */
  lemma FourBytes(x: nat) returns (b0: nat, b1: nat, b2: nat, b3: nat)
    requires x < 0x1_0000_0000
    ensures b0 < 256 && b1 < 256 && b2 < 256 && b3 < 256
    ensures x == b0 + 256 * (b1 + 256 * (b2 + 256 * b3))
  {
    var q1, q2;
    q1, b0 := DivMod256(x);
    q2, b1 := DivMod256(q1);
    b3, b2 := DivMod256(q2);
  }

  lemma BitsByBytes(b0: nat, b1: nat, b2: nat, b3: nat)
    requires b0 < 256 && b1 < 256 && b2 < 256 && b3 < 256
    ensures var x := b0 + 256 * (b1 + 256 * (b2 + 256 * b3));
            && Bits(x) == Bits(b0) + Bits(b1) + Bits(b2) + Bits(b3)
            && ByEight(x) == Bits(b0) + 256 * Bits(b1) + 65536 * Bits(b2) + 0x100_0000 * Bits(b3)
            && Bits(b0) <= 8 && Bits(b1) <= 8 && Bits(b2) <= 8 && Bits(b3) <= 8
  {
    hide Bits, ByEight;
    BitsSplitByte(b1 + 256 * (b2 + 256 * b3), b0);
    BitsSplitByte(b2 + 256 * b3, b1);
    BitsSplitByte(b3, b2);
    BitsSplitByte(0, b3);
    ZeroByEight();
  }

  lemma ZeroByEight()
    ensures ByEight(0) == 0 && Bits(0) == 0
  {
  }

  lemma BitsSplitByte(a: nat, d: nat)
    requires d < 256
    ensures Bits(256 * a + d) == Bits(a) + Bits(d) && Bits(d) <= 8
    ensures ByEight(256 * a + d) == 256 * ByEight(a) + Bits(d)
  {
    hide Bits, ByEight;
    var e, f := d / 16, d % 16;
    BitsSplit256(a, e, f);
    ByEightStep(a, d);
    assert d == 16 * e + f;
  }

  /** The trick is exact for every 32-bit word, and none of its steps wraps. */
  lemma WordTrickCounts(x: uint32)
    ensures WordTrick(x) == Bits(x) <= 32
  {
    hide And, Bits, ByTwo, ByFour, ByEight, Pow, Mask5, Mask3, MaskF, Mask1, U32;
    WordStages(x);
    var b0, b1, b2, b3 := FourBytes(x);
    BitsByBytes(b0, b1, b2, b3);
    Gather(Bits(b0), Bits(b1), Bits(b2), Bits(b3));
  }

  lemma WordStages(x: uint32)
    ensures WordTrick(x) == U32(ByEight(x) * 0x01010101) / 0x100_0000
  {
    hide And, Bits, ByTwo, ByFour, ByEight, Pow, Mask5, Mask3, MaskF, Mask1, U32;
    PowValues();
    MaskValues();
    StageTwo(x, 16);
    StageFour(x, 8);
    StageEight(x, 4);
    TwoBound(x);
    FourBound(x, 8);
    Mask1Values();
    NoWrap(ByTwo(x));
    NoWrap(ByFour(x));
    NoWrap(WithUpper(ByFour(x)));
  }

  lemma Mask1Values()
    ensures Mask1(2) == 0x11 && Mask1(8) == 0x11111111
  {
    assert Mask1(4) == 0x1111 by { assert Mask1(2) == 0x11; }
    assert Mask1(8) == 0x11111111 by { assert Mask1(6) == 0x111111; }
  }

  lemma NoWrap(x: int)
    requires 0 <= x < 0x1_0000_0000
    ensures U32(x) == x
  {
  }

  /** And for every byte. */
  lemma ByteTrickCounts(x: uchar)
    ensures ByteTrick(x) == Bits(x) <= 8
  {
    hide And, Bits, ByTwo, ByFour, ByEight, Pow, Mask5, Mask3, MaskF, Mask1, U32;
    PowValues();
    MaskValues();
    StageTwo(x, 4);
    StageFour(x, 2);
    StageEight(x, 1);
    TwoBound(x);
    FourBound(x, 2);
    Mask1Values();
    ByEightStep(0, x);
    ZeroByEight();
    BitsSplitByte(0, x);
    NoWrap(ByTwo(x));
    NoWrap(ByFour(x));
    NoWrap(WithUpper(ByFour(x)));
    NoWrap(Bits(x));
  }

  // ---------------------------------------------------------------------------
  // Differing bits, word by word and byte by byte
  // ---------------------------------------------------------------------------

  lemma XorBit(a: nat, b: nat, c: nat, d: nat)
    requires b < 2 && d < 2
    ensures Xor(2 * a + b, 2 * c + d) == 2 * Xor(a, c) + (if b != d then 1 else 0)
  {
  }

  lemma ZeroXor()
    ensures Xor(0, 0) == 0
  {
  }

  lemma XorBits(a: nat, b1: nat, b0: nat, c: nat, d1: nat, d0: nat)
    requires b1 < 2 && b0 < 2 && d1 < 2 && d0 < 2
    ensures var b, d := 2 * b1 + b0, 2 * d1 + d0;
            Xor(4 * a + b, 4 * c + d) == 4 * Xor(a, c) + Xor(b, d) && Xor(b, d) < 4
  {
    hide Xor;
    XorBit(2 * a + b1, b0, 2 * c + d1, d0);
    XorBit(a, b1, c, d1);
    XorBit(b1, b0, d1, d0);
    XorBit(0, b1, 0, d1);
    ZeroXor();
    assert 2 * (2 * a + b1) + b0 == 4 * a + (2 * b1 + b0) && 2 * (2 * c + d1) + d0 == 4 * c + (2 * d1 + d0);
  }

  lemma XorTwo(a: nat, b: nat, c: nat, d: nat)
    requires b < 4 && d < 4
    ensures Xor(4 * a + b, 4 * c + d) == 4 * Xor(a, c) + Xor(b, d) && Xor(b, d) < 4
  {
    hide Xor;
    var b1, d1 := if b >= 2 then 1 else 0, if d >= 2 then 1 else 0;
    XorBits(a, b1, b - 2 * b1, c, d1, d - 2 * d1);
  }

  lemma XorQuads(a: nat, b1: nat, b0: nat, c: nat, d1: nat, d0: nat)
    requires b1 < 4 && b0 < 4 && d1 < 4 && d0 < 4
    ensures var b, d := 4 * b1 + b0, 4 * d1 + d0;
            Xor(16 * a + b, 16 * c + d) == 16 * Xor(a, c) + Xor(b, d) && Xor(b, d) < 16
  {
    hide Xor;
    XorTwo(4 * a + b1, b0, 4 * c + d1, d0);
    XorTwo(a, b1, c, d1);
    XorTwo(b1, b0, d1, d0);
    assert 4 * (4 * a + b1) + b0 == 16 * a + (4 * b1 + b0) && 4 * (4 * c + d1) + d0 == 16 * c + (4 * d1 + d0);
  }

  lemma XorFour(a: nat, b: nat, c: nat, d: nat)
    requires b < 16 && d < 16
    ensures Xor(16 * a + b, 16 * c + d) == 16 * Xor(a, c) + Xor(b, d) && Xor(b, d) < 16
  {
    hide Xor;
    var b1, b0 := Hex(b);
    var d1, d0 := Hex(d);
    assert b / 16 == 0 && d / 16 == 0;
    XorQuads(a, b1, b0, c, d1, d0);
  }

  lemma XorHex(a: nat, b1: nat, b0: nat, c: nat, d1: nat, d0: nat)
    requires b1 < 16 && b0 < 16 && d1 < 16 && d0 < 16
    ensures var b, d := 16 * b1 + b0, 16 * d1 + d0;
            Xor(256 * a + b, 256 * c + d) == 256 * Xor(a, c) + Xor(b, d) && Xor(b, d) < 256
  {
    hide Xor;
    XorFour(16 * a + b1, b0, 16 * c + d1, d0);
    XorFour(a, b1, c, d1);
    XorFour(b1, b0, d1, d0);
    assert 16 * (16 * a + b1) + b0 == 256 * a + (16 * b1 + b0) && 16 * (16 * c + d1) + d0 == 256 * c + (16 * d1 + d0);
  }

  lemma XorByte(a: nat, b: nat, c: nat, d: nat)
    requires b < 256 && d < 256
    ensures Xor(256 * a + b, 256 * c + d) == 256 * Xor(a, c) + Xor(b, d) && Xor(b, d) < 256
  {
    hide Xor;
    var b1, b0 := TwoHex(b);
    var d1, d0 := TwoHex(d);
    assert b / 256 == 0 && d / 256 == 0;
    XorHex(a, b1, b0, c, d1, d0);
  }

  /** The word that four bytes in memory make, lowest byte first. */
  function Word(b0: uchar, b1: uchar, b2: uchar, b3: uchar): uint32 {
    b0 + 256 * (b1 + 256 * (b2 + 256 * b3))
  }

  /** Bits that differ between two bytes. */
  function ByteDistance(x: uchar, y: uchar): nat {
    Bits(Xor(x, y))
  }

  /** Two words differ in the bits their bytes differ in. */
  lemma WordDistance(a0: uchar, a1: uchar, a2: uchar, a3: uchar, b0: uchar, b1: uchar, b2: uchar, b3: uchar)
    ensures var x := Xor(Word(a0, a1, a2, a3), Word(b0, b1, b2, b3));
            x < 0x1_0000_0000
            && Bits(x)
               == ByteDistance(a0, b0) + ByteDistance(a1, b1) + ByteDistance(a2, b2) + ByteDistance(a3, b3)
  {
    hide Xor, Bits;
    XorByte(a1 + 256 * (a2 + 256 * a3), a0, b1 + 256 * (b2 + 256 * b3), b0);
    XorByte(a2 + 256 * a3, a1, b2 + 256 * b3, b1);
    XorByte(a3, a2, b3, b2);
    XorByte(0, a3, 0, b3);
    ZeroXor();
    BitsByBytes(Xor(a0, b0), Xor(a1, b1), Xor(a2, b2), Xor(a3, b3));
  }
}
