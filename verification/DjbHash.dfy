/**
 The DJB2 hash of libyuv: the byte loop of compare_common.cc, the four-lane SSE4.1 loop of
 compare_gcc.cc (compare_win.cc writes out the same one), and the block split of compare.cc.
 */
module DjbHash {
  import opened MachineInts

  const M := 0x1_0000_0000

  /** The hash without wrap-around: 33 times the hash so far, plus the byte. */
  function Poly(h: int, s: seq<uchar>): int {
    if s == [] then h else 33 * Poly(h, s[..|s| - 1]) + s[|s| - 1]
  }

  /** The DJB2 hash of a text, on 32 bits. */
  function Hash(seed: uint32, s: seq<uchar>): uint32 {
    U32(Poly(seed, s))
  }

  lemma U32Mod(x: int)
    ensures U32(x) == x % M
  {
  }

  /** Values that differ by a multiple of 2^32 are the same on 32 bits. */
  lemma U32Same(x: int, y: int, k: int)
    requires x == y + M * k
    ensures U32(x) == U32(y)
  {
    U32Mod(x);
    U32Mod(y);
  }

  lemma U32Add(x: int, y: int)
    ensures U32(U32(x) + U32(y)) == U32(x + y)
  {
    U32Same(U32(x) + U32(y), x + y, -(x / M) - y / M);
  }

  lemma U32AddRight(x: int, y: int)
    ensures U32(x + U32(y)) == U32(x + y)
  {
    U32Same(x + U32(y), x + y, -(y / M));
  }

  lemma U32Times33(x: int, b: int)
    ensures U32(33 * U32(x) + b) == U32(33 * x + b)
  {
    U32Same(33 * U32(x) + b, 33 * x + b, -33 * (x / M));
  }

  /** The hash of a text followed by another is the hash of the other, seeded with the first. */
  lemma {:induction false} HashConcat(seed: uint32, s: seq<uchar>, t: seq<uchar>)
    ensures Hash(seed, s + t) == Hash(Hash(seed, s), t)
    decreases |t|
  {
    if t == [] {
      assert s + t == s;
    } else {
      var n := |t| - 1;
      HashConcat(seed, s, t[..n]);
      assert (s + t)[..|s + t| - 1] == s + t[..n];
      U32Times33(Poly(seed, s + t[..n]), t[n]);
      U32Times33(Poly(Hash(seed, s), t[..n]), t[n]);
    }
  }

  /** One byte is added to 33 times the hash. */
  lemma HashByte(seed: uint32, c: uchar)
    ensures Hash(seed, [c]) == (33 * seed + c) % 0x1_0000_0000 && Hash(seed, []) == seed
  {
    assert [c][..0] == [];
    assert Poly(seed, [c]) == 33 * Poly(seed, []) + c;
    U32Mod(33 * seed + c);
  }

  /** HashDjb2_C */
  method HashC(src: array<uchar>, p: nat, count: nat, seed: uint32) returns (hash: uint32)
    requires p + count <= src.Length
    ensures hash == Hash(seed, src[p..p + count])
  {
    hash := seed;
    for i := 0 to count
      invariant hash == Hash(seed, src[p..p + i])
    {
      assert src[p..p + i + 1][..i] == src[p..p + i];
      ByteStep(hash, src[p + i]);
      U32Times33(Poly(seed, src[p..p + i]), src[p + i]);
      hash := U32(hash + U32(U32(hash * 32) + src[p + i]));
    }
  }

  /** hash + ((hash << 5) + byte) on unsigned */
  lemma ByteStep(h: uint32, b: uchar)
    ensures U32(h + U32(U32(h * 32) + b)) == U32(33 * h + b)
  {
    U32AddRight(h, U32(h * 32) + b);
    U32AddRight(h + b, h * 32);
  }

  // ---------------------------------------------------------------------------
  // Four 32-bit lanes
  // ---------------------------------------------------------------------------

  datatype Lanes = Lanes(l0: uint32, l1: uint32, l2: uint32, l3: uint32)

  /** pmulld */
  function MulLow(x: Lanes, y: Lanes): Lanes {
    Lanes(U32(x.l0 * y.l0), U32(x.l1 * y.l1), U32(x.l2 * y.l2), U32(x.l3 * y.l3))
  }

  /** paddd */
  function Add(x: Lanes, y: Lanes): Lanes {
    Lanes(U32(x.l0 + y.l0), U32(x.l1 + y.l1), U32(x.l2 + y.l2), U32(x.l3 + y.l3))
  }

  /** pshufd with 0x0e: the upper two lanes, then lane 0 twice */
  function UpperTwo(x: Lanes): Lanes {
    Lanes(x.l2, x.l3, x.l0, x.l0)
  }

  /** pshufd with 0x01: lane 1, then lane 0 three times */
  function SecondLane(x: Lanes): Lanes {
    Lanes(x.l1, x.l0, x.l0, x.l0)
  }

  /** punpckl/punpckh with zero: four bytes, widened */
  function Widen(s: seq<uchar>, k: nat): Lanes
    requires k + 4 <= |s|
  {
    Lanes(s[k], s[k + 1], s[k + 2], s[k + 3])
  }

  const HASH_16X33 := Lanes(0x92d9e201, 0, 0, 0)
  const HASH_MUL0 := Lanes(0x0c3525e1, 0xa3476dc1, 0x3b4039a1, 0x4f5f0981)
  const HASH_MUL1 := Lanes(0x30f35d61, 0x855cb541, 0x040a9121, 0x747c7101)
  const HASH_MUL2 := Lanes(0xec41d4e1, 0x4cfa3cc1, 0x025528a1, 0x00121881)
  const HASH_MUL3 := Lanes(0x00008c61, 0x00000441, 0x00000021, 0x00000001)

  /** The sixteen products, added lane by lane. */
  function Products(s: seq<uchar>): Lanes
    requires |s| == 16
  {
    Add(Add(MulLow(Widen(s, 12), HASH_MUL3), MulLow(Widen(s, 8), HASH_MUL2)),
        Add(MulLow(Widen(s, 0), HASH_MUL0), MulLow(Widen(s, 4), HASH_MUL1)))
  }

  /** Lane 0 of the result is the sum of the four lanes; the other lanes are left over. */
  function AddAcross(x: Lanes): Lanes {
    var y := Add(x, UpperTwo(x));
    Add(y, SecondLane(y))
  }

  /** One round of the loop. */
  function Round(acc: Lanes, s: seq<uchar>): Lanes
    requires |s| == 16
  {
    Add(MulLow(acc, HASH_16X33), AddAcross(Products(s)))
  }

  // ---------------------------------------------------------------------------
  // One round is sixteen steps of the byte loop
  // ---------------------------------------------------------------------------

  /** A byte as an integer. */
  function At(s: seq<uchar>, i: nat): int
    requires i < |s|
  {
    s[i]
  }

  /** Four bytes times their powers of 33, not reduced. */
  function Quad(s: seq<uchar>, k: nat): int
    requires k + 4 <= |s|
  {
    35937 * At(s, k) + 1089 * At(s, k + 1) + 33 * At(s, k + 2) + At(s, k + 3)
  }

  lemma PolyGrows(h: int, s: seq<uchar>, k: nat)
    requires k < |s|
    ensures Poly(h, s[..k + 1]) == 33 * Poly(h, s[..k]) + At(s, k)
  {
    assert s[..k + 1][..k] == s[..k];
  }

  lemma PolyQuad(h: int, s: seq<uchar>, k: nat)
    requires k + 4 <= |s|
    ensures Poly(h, s[..k + 4]) == 1185921 * Poly(h, s[..k]) + Quad(s, k)
  {
    PolyGrows(h, s, k);
    PolyGrows(h, s, k + 1);
    PolyGrows(h, s, k + 2);
    PolyGrows(h, s, k + 3);
    hide Poly;
  }

  /** Sixteen steps at once, not reduced. */
  function Expanded(h: int, s: seq<uchar>): int
    requires |s| == 16
  {
    1977985201462558877934081 * h
    + 1667889514952984961 * Quad(s, 0) + 1406408618241 * Quad(s, 4) + 1185921 * Quad(s, 8) + Quad(s, 12)
  }

  lemma PolySixteen(h: int, s: seq<uchar>)
    requires |s| == 16
    ensures Poly(h, s) == Expanded(h, s)
  {
    PolyQuad(h, s, 0);
    PolyQuad(h, s, 4);
    PolyQuad(h, s, 8);
    PolyQuad(h, s, 12);
    assert s[..0] == [] && s[..16] == s;
    HornerFour(h, Quad(s, 0), Quad(s, 4), Quad(s, 8), Quad(s, 12));
    hide Quad;
  }

  lemma HornerFour(h: int, a: int, b: int, c: int, d: int)
    ensures 1185921 * (1185921 * (1185921 * (1185921 * h + a) + b) + c) + d
         == 1977985201462558877934081 * h + 1667889514952984961 * a + 1406408618241 * b + 1185921 * c + d
  {
  }

  lemma U32AddFour(a: int, b: int, c: int, d: int)
    ensures U32(U32(U32(a) + U32(b)) + U32(U32(c) + U32(d))) == U32(a + b + c + d)
  {
    U32Add(a, b);
    U32Add(c, d);
    U32Add(a + b, c + d);
  }

  /** Each lane of the products is a sum of four, and lane 0 after adding across is the sum of all sixteen. */
  lemma AddAcrossSums(x: Lanes, a: int, b: int, c: int, d: int)
    requires x == Lanes(U32(a), U32(b), U32(c), U32(d))
    ensures AddAcross(x).l0 == U32(a + b + c + d)
  {
    hide U32;
    U32Add(a, c);
    U32Add(b, d);
    U32Add(a + c, b + d);
    assert (a + c) + (b + d) == a + b + c + d;
  }

  /** The sixteen products with the constants of the code. */
  function LaneSum(s: seq<uchar>, i: nat, c0: int, c1: int, c2: int, c3: int): int
    requires |s| == 16 && i < 4
  {
    At(s, i) * c0 + At(s, 4 + i) * c1 + At(s, 8 + i) * c2 + At(s, 12 + i) * c3
  }

  /** What each lane adds up. */
  function LaneOf(s: seq<uchar>, i: nat): int
    requires |s| == 16 && i < 4
  {
    if i == 0 then LaneSum(s, 0, 0x0c3525e1, 0x30f35d61, 0xec41d4e1, 0x00008c61)
    else if i == 1 then LaneSum(s, 1, 0xa3476dc1, 0x855cb541, 0x4cfa3cc1, 0x00000441)
    else if i == 2 then LaneSum(s, 2, 0x3b4039a1, 0x040a9121, 0x025528a1, 0x00000021)
    else LaneSum(s, 3, 0x4f5f0981, 0x747c7101, 0x00121881, 0x00000001)
  }

  lemma ProductsSum(s: seq<uchar>)
    requires |s| == 16
    ensures Products(s) == Lanes(U32(LaneOf(s, 0)), U32(LaneOf(s, 1)), U32(LaneOf(s, 2)), U32(LaneOf(s, 3)))
  {
    hide U32;
    U32AddFour(At(s, 12) * 0x00008c61, At(s, 8) * 0xec41d4e1, At(s, 0) * 0x0c3525e1, At(s, 4) * 0x30f35d61);
    U32AddFour(At(s, 13) * 0x00000441, At(s, 9) * 0x4cfa3cc1, At(s, 1) * 0xa3476dc1, At(s, 5) * 0x855cb541);
    U32AddFour(At(s, 14) * 0x00000021, At(s, 10) * 0x025528a1, At(s, 2) * 0x3b4039a1, At(s, 6) * 0x040a9121);
    U32AddFour(At(s, 15) * 0x00000001, At(s, 11) * 0x00121881, At(s, 3) * 0x4f5f0981, At(s, 7) * 0x747c7101);
  }

  /** The sixteen products added up. */
  function LaneTotal(s: seq<uchar>): int
    requires |s| == 16
  {
    LaneOf(s, 0) + LaneOf(s, 1) + LaneOf(s, 2) + LaneOf(s, 3)
  }

  lemma ProductsAddUp(s: seq<uchar>)
    requires |s| == 16
    ensures AddAcross(Products(s)).l0 == U32(LaneTotal(s))
  {
    hide LaneOf, AddAcross, Products, U32;
    ProductsSum(s);
    AddAcrossSums(Products(s), LaneOf(s, 0), LaneOf(s, 1), LaneOf(s, 2), LaneOf(s, 3));
  }

  /** Lane 0 after a round is the hash continued over the sixteen bytes, whatever the other lanes held:
      their factor is zero. */
  lemma RoundIsSixteenSteps(acc: Lanes, s: seq<uchar>)
    requires |s| == 16
    ensures Round(acc, s).l0 == Hash(acc.l0, s)
  {
    hide LaneTotal, AddAcross, Products, U32, Poly, Expanded, Round;
    ProductsAddUp(s);
    RoundLane(acc, s);
    U32Add(acc.l0 * 0x92d9e201, LaneTotal(s));
    PolySixteen(acc.l0, s);
    ConstantsArePowers(acc.l0, s);
  }

  lemma RoundLane(acc: Lanes, s: seq<uchar>)
    requires |s| == 16
    ensures Round(acc, s).l0 == U32(U32(acc.l0 * 0x92d9e201) + AddAcross(Products(s)).l0)
  {
    hide U32, AddAcross, Products;
  }

  /** Four bytes with four constants. */
  function Group(s: seq<uchar>, k: nat, c0: int, c1: int, c2: int, c3: int): int
    requires k + 4 <= |s|
  {
    At(s, k) * c0 + At(s, k + 1) * c1 + At(s, k + 2) * c2 + At(s, k + 3) * c3
  }

  lemma FirstFour(s: seq<uchar>)
    requires |s| == 16
    ensures 1667889514952984961 * Quad(s, 0) == Group(s, 0, 0x0c3525e1, 0xa3476dc1, 0x3b4039a1, 0x4f5f0981)
                                                + M * Group(s, 0, 13955623260435, 422897674558, 12815081047, 388335789)
  {
    hide At;
  }

  lemma SecondFour(s: seq<uchar>)
    requires |s| == 16
    ensures 1406408618241 * Quad(s, 4)
            == Group(s, 4, 0x30f35d61, 0x855cb541, 0x040a9121, 0x747c7101)
               + M * Group(s, 4, 11767751, 356598, 10806, 327)
  {
    hide At;
  }

  lemma ThirdFour(s: seq<uchar>)
    requires |s| == 16
    ensures 1185921 * Quad(s, 8)
            == Group(s, 8, 0xec41d4e1, 0x4cfa3cc1, 0x025528a1, 0x00121881) + M * Group(s, 8, 9, 0, 0, 0)
  {
    hide At;
  }

  lemma LaneTotalByGroups(s: seq<uchar>)
    requires |s| == 16
    ensures LaneTotal(s) == Group(s, 0, 0x0c3525e1, 0xa3476dc1, 0x3b4039a1, 0x4f5f0981)
                            + Group(s, 4, 0x30f35d61, 0x855cb541, 0x040a9121, 0x747c7101)
                            + Group(s, 8, 0xec41d4e1, 0x4cfa3cc1, 0x025528a1, 0x00121881) + Quad(s, 12)
  {
    hide At;
  }

  /** The constants of the code are the powers of 33 up to multiples of 2^32. */
  lemma ConstantsArePowers(h: uint32, s: seq<uchar>)
    requires |s| == 16
    ensures U32(Expanded(h, s)) == U32(h * 0x92d9e201 + LaneTotal(s))
  {
    hide Group, Quad, LaneTotal, U32;
    FirstFour(s);
    SecondFour(s);
    ThirdFour(s);
    LaneTotalByGroups(s);
    AddMultiples(h, 1667889514952984961 * Quad(s, 0), 1406408618241 * Quad(s, 4), 1185921 * Quad(s, 8), Quad(s, 12),
                 Group(s, 0, 0x0c3525e1, 0xa3476dc1, 0x3b4039a1, 0x4f5f0981),
                 Group(s, 4, 0x30f35d61, 0x855cb541, 0x040a9121, 0x747c7101),
                 Group(s, 8, 0xec41d4e1, 0x4cfa3cc1, 0x025528a1, 0x00121881),
                 Group(s, 0, 13955623260435, 422897674558, 12815081047, 388335789),
                     Group(s, 4, 11767751, 356598, 10806, 327), Group(s, 8, 9, 0, 0, 0));
  }

  lemma AddMultiples(h: int, x0: int, x1: int, x2: int, x3: int, g0: int, g1: int, g2: int, k0: int, k1: int, k2: int)
    requires x0 == g0 + M * k0 && x1 == g1 + M * k1 && x2 == g2 + M * k2
    ensures U32(1977985201462558877934081 * h + x0 + x1 + x2 + x3) == U32(h * 0x92d9e201 + (g0 + g1 + g2 + x3))
  {
    hide U32;
    U32Same(1977985201462558877934081 * h + x0 + x1 + x2 + x3, h * 0x92d9e201 + (g0 + g1 + g2 + x3),
        460535567594356 * h + k0 + k1 + k2);
  }

  // ---------------------------------------------------------------------------
  // The loops around the kernels
  // ---------------------------------------------------------------------------

  /** HashDjb2_SSE41, whose loop tests its count at the end: called with a positive multiple of 16 */
  method HashSse41(src: array<uchar>, p: nat, count: nat, seed: uint32) returns (hash: uint32)
    requires p + count <= src.Length && count > 0 && count % 16 == 0
    ensures hash == Hash(seed, src[p..p + count])
  {
    hide Hash, Round;
    var acc := Lanes(seed, 0, 0, 0);
    var at, left := p, count;
    EmptyHash(seed, src[p..p]);
    var more := true;
    while more
      invariant p <= at && left == p + count - at && left % 16 == 0 && more == (left > 0)
      invariant acc.l0 == Hash(seed, src[p..at])
      decreases left, more
    {
      var block := src[at..at + 16];
      RoundIsSixteenSteps(acc, block);
      HashConcat(seed, src[p..at], block);
      assert src[p..at] + block == src[p..at + 16];
      acc := Round(acc, block);
      at := at + 16;
      left := left - 16;
      more := left > 0;
    }
    hash := acc.l0;
  }

  lemma EmptyHash(seed: uint32, s: seq<uchar>)
    requires s == []
    ensures Hash(seed, s) == seed
  {
  }

  /** HashDjb2: blocks of 32768 bytes, then a multiple of 16, by the lane kernel if there is one; the rest by the byte
      loop */
  method HashDjb2(src: array<uchar>, count: nat, seed: uint32, lanes: bool) returns (hash: uint32)
    requires count <= src.Length
    ensures hash == Hash(seed, src[..count])
  {
    hide Hash;
    hash := seed;
    var p, left := 0, count;
    EmptyHash(seed, src[..0]);
    while left >= 32768
      invariant p + left == count && hash == Hash(seed, src[..p])
    {
      hash := HashBlock(src, p, 32768, hash, lanes, seed);
      p, left := p + 32768, left - 32768;
    }
    var remainder := left / 16 * 16;
    if remainder != 0 {
      hash := HashBlock(src, p, remainder, hash, lanes, seed);
      p, left := p + remainder, left - remainder;
    }
    remainder := left % 16;
    if remainder != 0 {
      HashConcat(seed, src[..p], src[p..p + remainder]);
      assert src[..p] + src[p..p + remainder] == src[..count];
      hash := HashC(src, p, remainder, hash);
    }
  }

  /** The kernel chosen for the processor, on a block that continues the hash of the bytes before it. */
  method HashBlock(src: array<uchar>, p: nat, count: nat, before: uint32, lanes: bool,
                   ghost seed: uint32) returns (hash: uint32)
    requires p + count <= src.Length && count > 0 && count % 16 == 0 && before == Hash(seed, src[..p])
    ensures hash == Hash(seed, src[..p + count])
  {
    hide Hash;
    HashConcat(seed, src[..p], src[p..p + count]);
    assert src[..p] + src[p..p + count] == src[..p + count];
    if lanes {
      hash := HashSse41(src, p, count, before);
    } else {
      hash := HashC(src, p, count, before);
    }
  }
}
