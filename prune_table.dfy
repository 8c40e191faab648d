/** The lookup table of the pruning heuristic (util/cube.js:1-50): one small
    bound for each 9-bit mask of the facelets of a face, stored in a
    `Uint8Array` of 512 entries.

    `bitmap` moves bit j of the mask i to bit `map[j]`, with `map` the
    permutation 0 1 2 5 8 7 6 3 4. The inner loop then reads the nine bits of
    `bitmap` as a 3x3 grid in reading order (0 1 2 / 3 4 5 / 6 7 8). For each
    position j it adds the or of bit j and its left neighbour j - 1, unless j
    starts a row, and the or of bit j and the bit j - 3 above it, unless j is
    3. For j < 3 the count j - 3 is negative, JavaScript takes it modulo 32,
    and the term is bit j alone.

    JavaScript's bitwise operators work on 32-bit integers; they are written
    out here on `int`, each exactly as the language defines it. */
module PruneTable {

  /** The elements of a `Uint8Array`. */
  newtype u8 = x: int | 0 <= x < 256

  // ---------------------------------------------------------------------
  // JavaScript's 32-bit operators

  /** ToInt32: the two's-complement reading of the low 32 bits. */
  function ToInt32(x: int): int
  {
    var m := x % 0x1_0000_0000;
    if m < 0x8000_0000 then m else m - 0x1_0000_0000
  }

  /** ToUint32: the low 32 bits as an unsigned number. */
  function ToUint32(x: int): nat
  {
    x % 0x1_0000_0000
  }

  /** x divided by 2^k, rounding down. */
  function Halve(x: int, k: nat): int
    decreases k, x
  {
    if k == 0 then x else Halve(x / 2, k - 1)
  }

  /** x times 2^k. */
  function Double(x: int, k: nat): int
    decreases k, x
  {
    if k == 0 then x else 2 * Double(x, k - 1)
  }

  /** 2^k. */
  function Pow2(k: nat): int
  {
    Double(1, k)
  }

  /** Bit k of x. */
  function Bit(x: int, k: nat): int
  {
    Halve(x, k) % 2
  }

  /** `a | b` on non-negative numbers, bit by bit from the lowest. */
  function OrBits(a: nat, b: nat): nat
    decreases a + b
  {
    if a == 0 && b == 0 then 0
    else (if a % 2 == 1 || b % 2 == 1 then 1 else 0) + 2 * OrBits(a / 2, b / 2)
  }

  /** `a & b` on non-negative numbers, bit by bit from the lowest. */
  function AndBits(a: nat, b: nat): nat
    decreases a + b
  {
    if a == 0 || b == 0 then 0
    else (if a % 2 == 1 && b % 2 == 1 then 1 else 0) + 2 * AndBits(a / 2, b / 2)
  }

  /** The shift count JavaScript uses for a count n: n modulo 32, so a negative
      count such as -3 shifts by 29. */
  function Count(n: int): nat
  {
    if 0 <= n < 32 then n else n % 32
  }

  /** `x >> n`: the division rounds towards minus infinity, which copies the
      sign bit. */
  function JsShr(x: int, n: int): int
  {
    Halve(ToInt32(x), Count(n))
  }

  /** `x << n`, the result cut to 32 bits. */
  function JsShl(x: int, n: int): int
  {
    ToInt32(Double(ToInt32(x), Count(n)))
  }

  /** `x | y`. */
  function JsOr(x: int, y: int): int
  {
    ToInt32(OrBits(ToUint32(x), ToUint32(y)))
  }

  /** `x & y`. */
  function JsAnd(x: int, y: int): int
  {
    ToInt32(AndBits(ToUint32(x), ToUint32(y)))
  }

  /** The Uint8Array store: the value modulo 256 (which leaves 0..255 as
      they are). */
  function ToUint8(x: int): u8
  {
    if 0 <= x < 256 then x as u8 else (x % 256) as u8
  }

  // ---------------------------------------------------------------------
  // The table

  /** `map` (util/cube.js:33): where bit j of the mask goes in `bitmap`. */
  function Map(j: int): nat
    requires 0 <= j < 9
  {
    match j
    case 0 => 0  case 1 => 1  case 2 => 2  case 3 => 5  case 4 => 8
    case 5 => 7  case 6 => 6  case 7 => 3  case _ => 4
  }

  /** The inverse of `map`: the bit of the mask that lands at position k. */
  function MapInverse(k: int): nat
    requires 0 <= k < 9
  {
    match k
    case 0 => 0  case 1 => 1  case 2 => 2  case 3 => 7  case 4 => 8
    case 5 => 3  case 6 => 6  case 7 => 5  case _ => 4
  }

  /** The element j of `map.map((e, j) => ((i >> j) & 1) << map[j])`. */
  function Scattered(i: int, j: int): int
    requires 0 <= j < 9
  {
    JsShl(JsAnd(JsShr(i, j), 1), Map(j))
  }

  /** `.reduce((x, y) => x | y)` over the first n elements of that array. */
  function BitmapPrefix(i: int, n: int): int
    requires 1 <= n <= 9
    decreases n, i
  {
    if n == 1 then Scattered(i, 0) else JsOr(BitmapPrefix(i, n - 1), Scattered(i, n - 1))
  }

  /** `bitmap` (util/cube.js:34). */
  function Bitmap(i: int): int
  {
    BitmapPrefix(i, 9)
  }

  /** `1 & ((bitmap >> j) | (bitmap >> (j - d)))`. */
  function PairTerm(bitmap: int, j: int, d: int): int
  {
    JsAnd(1, JsOr(JsShr(bitmap, j), JsShr(bitmap, j - d)))
  }

  /** The first addition of the inner loop, made when `j % 3` is not zero. */
  function Horizontal(bitmap: int, j: int): int
  {
    if j % 3 != 0 then PairTerm(bitmap, j, 1) else 0
  }

  /** The second addition of the inner loop, made when `j - 3` is not zero. */
  function Vertical(bitmap: int, j: int): int
  {
    if j - 3 != 0 then PairTerm(bitmap, j, 3) else 0
  }

  /** What the inner loop (util/cube.js:35-42) has added to `s` once it has
      run j from 8 down to `from`. */
  function TermsFrom(bitmap: int, from: int): int
    requires 0 <= from <= 9
    decreases 9 - from, bitmap
  {
    if from == 9 then 0
    else Horizontal(bitmap, from) + Vertical(bitmap, from) + TermsFrom(bitmap, from + 1)
  }

  /** `s` at the end of the inner loop. */
  function Score(bitmap: int): int
  {
    TermsFrom(bitmap, 0)
  }

  /** `Cube.pruneLookup[i]` before the store (util/cube.js:43): `(s * 3) >> 3`. */
  function PruneEntry(i: int): int
  {
    JsShr(Score(Bitmap(i)) * 3, 3)
  }

  // ---------------------------------------------------------------------
  // Reference definitions

  /** The number of set bits among positions 0..8. */
  function Popcount(x: int): int
  {
    Bit(x, 0) + Bit(x, 1) + Bit(x, 2) + Bit(x, 3) + Bit(x, 4)
      + Bit(x, 5) + Bit(x, 6) + Bit(x, 7) + Bit(x, 8)
  }

  /** The bits of mask a are among those of mask b. */
  predicate SubMask(a: int, b: int)
  {
    forall k :: 0 <= k < 9 ==> Bit(a, k) <= Bit(b, k)
  }

  /** 1 when either bit is set. */
  function Either(x: int, y: int): int
  {
    if x == 1 || y == 1 then 1 else 0
  }

  /** The score written out over the bits c0..c8 of `bitmap` as a 3x3 grid:
      each bit with its left neighbour (c8-c7, c7-c6, c5-c4, c4-c3, c2-c1,
      c1-c0), each bit below the first row with the bit above it except c3
      (c8-c5, c7-c4, c6-c3, c5-c2, c4-c1), and c2, c1, c0 on their own. */
  function NeighbourScore(c0: int, c1: int, c2: int, c3: int, c4: int, c5: int, c6: int, c7: int,
                          c8: int): int
  {
    Either(c8, c7) + Either(c8, c5) + Either(c7, c6) + Either(c7, c4) + Either(c6, c3)
      + Either(c5, c4) + Either(c5, c2) + Either(c4, c3) + Either(c4, c1)
      + Either(c2, c1) + c2 + Either(c1, c0) + c1 + c0
  }

  /** The written-out score of a bitmap b. */
  function ReferenceScore(b: int): int
  {
    NeighbourScore(Bit(b, 0), Bit(b, 1), Bit(b, 2), Bit(b, 3), Bit(b, 4), Bit(b, 5), Bit(b, 6),
                   Bit(b, 7), Bit(b, 8))
  }

  /** The entry for mask i worked out from the bits of i itself: bit k of
      `bitmap` is bit MapInverse(k) of i, and the entry is three eighths of
      the score, rounded down. */
  function ReferenceEntry(i: int): int
  {
    NeighbourScore(Bit(i, 0), Bit(i, 1), Bit(i, 2), Bit(i, 7), Bit(i, 8), Bit(i, 3), Bit(i, 6),
                   Bit(i, 5), Bit(i, 4)) * 3 / 8
  }

  // ---------------------------------------------------------------------
  // Facts about the operators

  /** A number below 2^m halved m or more times is 0. */
  lemma {:induction false} HalveBelow(x: int, k: nat, m: nat)
    requires 0 <= x < Pow2(m) && m <= k
    ensures Halve(x, k) == 0
    decreases k
  {
    if k > 0 {
      if m > 0 {
        HalveBelow(x / 2, k - 1, m - 1);
      } else {
        HalveBelow(x / 2, k - 1, 0);
      }
    }
  }

  /** A non-negative number halved stays non-negative and does not grow. */
  lemma {:induction false} HalveNonNegative(x: int, k: nat)
    requires 0 <= x
    ensures 0 <= Halve(x, k) <= x
    decreases k
  {
    if k > 0 {
      HalveNonNegative(x / 2, k - 1);
    }
  }

  /** The powers of two the table needs. */
  lemma Pow2Values()
    ensures Pow2(8) == 256 && Pow2(9) == 512
  {
    assert Double(1, 4) == 16;
    assert Double(1, 8) == 256;
    assert Double(1, 9) == 512;
  }

  /** `a | b` is below 2^m when a and b are. */
  lemma {:induction false} OrBelow(a: nat, b: nat, m: nat)
    requires a < Pow2(m) && b < Pow2(m)
    ensures OrBits(a, b) < Pow2(m)
    decreases m
  {
    if m > 0 && (a != 0 || b != 0) {
      OrBelow(a / 2, b / 2, m - 1);
    }
  }

  /** `1 & x` and `x & 1` are the lowest bit of x. */
  lemma AndOne(x: int)
    ensures JsAnd(1, x) == x % 2 && JsAnd(x, 1) == x % 2
  {
    var u := ToUint32(x);
    LowBitOfLowWord(x);
    assert ToUint32(1) == 1;
    assert AndBits(1, u) == u % 2;
    assert AndBits(u, 1) == u % 2;
    SmallIsInt32(u % 2);
  }

  /** The low 32 bits of x have the lowest bit of x. */
  lemma LowBitOfLowWord(x: int)
    ensures ToUint32(x) % 2 == x % 2
  {
    LowBit(x);
  }

  /** Taking a number modulo 2^32 keeps its parity. */
  lemma LowBit(x: int)
    ensures (x % 0x1_0000_0000) % 2 == x % 2
  {
  }

  /** ToInt32 leaves a number in 0..2^31-1 as it is. */
  lemma SmallIsInt32(v: int)
    requires 0 <= v < 0x8000_0000
    ensures ToInt32(v) == v && ToUint32(v) == v
  {
  }

  /** Bit k of `a | b` is set when bit k of a or of b is. */
  lemma {:induction false} OrBit(a: nat, b: nat, k: nat)
    ensures Bit(OrBits(a, b), k) == Either(Bit(a, k), Bit(b, k))
    decreases k
  {
    assert OrBits(a, b) / 2 == OrBits(a / 2, b / 2);
    if k > 0 {
      OrBit(a / 2, b / 2, k - 1);
    }
  }

  /** The lowest bit of `x | y` for numbers below 512. */
  lemma LowOfOr(x: int, y: int)
    requires 0 <= x < 512 && 0 <= y < 512
    ensures JsAnd(1, JsOr(x, y)) == Either(x % 2, y % 2)
  {
    OrOfSmall(x, y, 0);
    AndOne(JsOr(x, y));
  }

  /** `x | y` of two numbers below 512 is below 512 and has the bits of both. */
  lemma OrOfSmall(x: int, y: int, m: nat)
    requires 0 <= x < 512 && 0 <= y < 512
    ensures JsOr(x, y) == OrBits(x, y)
    ensures 0 <= JsOr(x, y) < 512
    ensures Bit(JsOr(x, y), m) == Either(Bit(x, m), Bit(y, m))
  {
    Pow2Values();
    SmallIsInt32(x);
    SmallIsInt32(y);
    OrBelow(x, y, 9);
    SmallIsInt32(OrBits(x, y));
    OrBit(x, y, m);
  }

  /** Bit m of x * 2^t is x when m is t and 0 otherwise, for x being 0 or 1. */
  lemma {:induction false} DoubleBit(c: int, t: nat, m: nat)
    requires c == 0 || c == 1
    ensures Bit(Double(c, t), m) == if m == t then c else 0
    ensures 0 <= Double(c, t) <= Pow2(t)
    decreases t
  {
    if t == 0 {
      if m > 0 {
        HalveBelow(c / 2, m - 1, 0);
      }
    } else {
      if m > 0 {
        DoubleBit(c, t - 1, m - 1);
        assert 2 * Double(c, t - 1) / 2 == Double(c, t - 1);
      } else {
        DoubleBit(c, t - 1, 0);
      }
    }
  }

  /** 2^s <= 2^t when s <= t. */
  lemma {:induction false} Pow2Monotone(s: nat, t: nat)
    requires s <= t
    ensures 0 < Pow2(s) <= Pow2(t)
    decreases t
  {
    if t > s {
      Pow2Monotone(s, t - 1);
    } else if s > 0 {
      Pow2Monotone(s - 1, s - 1);
    }
  }

  // ---------------------------------------------------------------------
  // The bitmap

  /** `map` is a permutation of 0..8, with MapInverse its inverse. */
  lemma MapIsPermutation()
    ensures forall j :: 0 <= j < 9 ==> Map(j) < 9 && MapInverse(Map(j)) == j
    ensures forall k :: 0 <= k < 9 ==> MapInverse(k) < 9 && Map(MapInverse(k)) == k
  {
  }

  /** The element j of the mapped array holds bit j of the mask at position
      map[j] and nothing else. */
  lemma ScatteredBit(i: int, j: int, m: nat)
    requires 0 <= i < 512 && 0 <= j < 9
    ensures 0 <= Scattered(i, j) < 512
    ensures Bit(Scattered(i, j), m) == if m == Map(j) then Bit(i, j) else 0
  {
    Pow2Values();
    SmallIsInt32(i);
    assert JsShr(i, j) == Halve(i, j);
    AndOne(JsShr(i, j));
    var c := JsAnd(JsShr(i, j), 1);
    assert c == Bit(i, j);
    SmallIsInt32(c);
    DoubleBit(c, Map(j), m);
    Pow2Monotone(Map(j), 8);
    SmallIsInt32(Double(c, Map(j)));
    assert Scattered(i, j) == Double(c, Map(j));
  }

  /** Bit m of the reduce over the first n elements: bit j of the mask lands at
      position map[j] once element j has been or-ed in. */
  lemma {:induction false} BitmapPrefixBit(i: int, n: int, m: nat)
    requires 0 <= i < 512 && 1 <= n <= 9 && m < 32
    ensures 0 <= BitmapPrefix(i, n) < 512
    ensures Bit(BitmapPrefix(i, n), m) ==
      if m < 9 && MapInverse(m) < n then Bit(i, MapInverse(m)) else 0
    decreases n
  {
    MapIsPermutation();
    ScatteredBit(i, n - 1, m);
    if n > 1 {
      BitmapPrefixBit(i, n - 1, m);
      OrOfSmall(BitmapPrefix(i, n - 1), Scattered(i, n - 1), m);
    }
  }

  /** `bitmap` is below 512 and bit map[j] of it is bit j of the mask. */
  lemma BitmapBits(i: int, m: nat)
    requires 0 <= i < 512 && m < 32
    ensures 0 <= Bitmap(i) < 512
    ensures Bit(Bitmap(i), m) == if m < 9 then Bit(i, MapInverse(m)) else 0
  {
    MapIsPermutation();
    BitmapPrefixBit(i, 9, m);
  }

  /** `bitmap` is below 512 (a 9-bit mask) and has as many set bits as the mask
      it comes from. */
  lemma BitmapKeepsPopcount(i: int)
    requires 0 <= i < 512
    ensures 0 <= Bitmap(i) < 512
    ensures Popcount(Bitmap(i)) == Popcount(i)
  {
    BitmapBits(i, 0);
    BitmapBits(i, 1);
    BitmapBits(i, 2);
    BitmapBits(i, 3);
    BitmapBits(i, 4);
    BitmapBits(i, 5);
    BitmapBits(i, 6);
    BitmapBits(i, 7);
    BitmapBits(i, 8);
  }

  /** A mask whose bits lie within another's gives a bitmap within the other's. */
  lemma BitmapMonotone(a: int, b: int)
    requires 0 <= a < 512 && 0 <= b < 512 && SubMask(a, b)
    ensures SubMask(Bitmap(a), Bitmap(b))
  {
    MapIsPermutation();
    forall k | 0 <= k < 9 ensures Bit(Bitmap(a), k) <= Bit(Bitmap(b), k) {
      BitmapBits(a, k);
      BitmapBits(b, k);
    }
  }

  // ---------------------------------------------------------------------
  // The inner loop

  /** Bits 9 and up of a number below 512 are clear. */
  lemma HighBitClear(b: int, k: nat)
    requires 0 <= b < 512 && 9 <= k
    ensures Bit(b, k) == 0
  {
    Pow2Values();
    HalveBelow(b, k, 9);
  }

  /** A pair term is the or of two bits of `bitmap`, at the counts modulo 32. */
  lemma PairTermBits(b: int, j: int, d: int)
    requires 0 <= b < 512
    ensures PairTerm(b, j, d) == Either(Bit(b, Count(j)), Bit(b, Count(j - d)))
  {
    SmallIsInt32(b);
    HalveNonNegative(b, Count(j));
    HalveNonNegative(b, Count(j - d));
    LowOfOr(JsShr(b, j), JsShr(b, j - d));
  }

  /** For j = 0..2 the count `j - 3` is negative; JavaScript shifts by 29..31
      instead, which clears a value below 512, so the vertical term is just
      bit j of `bitmap`. */
  lemma NegativeShift(b: int, j: int)
    requires 0 <= b < 512 && 0 <= j < 3
    ensures Count(j - 3) == j + 29
    ensures JsShr(b, j - 3) == 0
    ensures Vertical(b, j) == Bit(b, j)
  {
    assert Count(j - 3) == j + 29;
    Pow2Values();
    SmallIsInt32(b);
    HalveBelow(b, j + 29, 9);
    assert JsShr(b, j - 3) == Halve(b, j + 29);
    PairTermBits(b, j, 3);
    HighBitClear(b, j + 29);
    assert Vertical(b, j) == Either(Bit(b, j), 0);
  }

  /** Which j in 0..8 make `j % 3` zero. */
  lemma ModThree(j: int)
    requires 0 <= j < 9
    ensures (j % 3 != 0) == (j != 0 && j != 3 && j != 6)
  {
  }

  /** The two additions for one j, as bits of `bitmap`. */
  lemma AdditionsAt(b: int, j: int)
    requires 0 <= b < 512 && 0 <= j < 9
    ensures Horizontal(b, j) == if j % 3 != 0 then Either(Bit(b, j), Bit(b, j - 1)) else 0
    ensures Vertical(b, j) ==
      if j == 3 then 0 else if j < 3 then Bit(b, j) else Either(Bit(b, j), Bit(b, j - 3))
  {
    ModThree(j);
    PairTermBits(b, j, 1);
    if j < 3 {
      NegativeShift(b, j);
    } else {
      PairTermBits(b, j, 3);
    }
  }

  /** The inner loop computes the written-out score. */
  lemma ScoreIsReference(b: int)
    requires 0 <= b < 512
    ensures Score(b) == ReferenceScore(b)
  {
    AdditionsAt(b, 0);
    AdditionsAt(b, 1);
    AdditionsAt(b, 2);
    AdditionsAt(b, 3);
    AdditionsAt(b, 4);
    AdditionsAt(b, 5);
    AdditionsAt(b, 6);
    AdditionsAt(b, 7);
    AdditionsAt(b, 8);
    assert TermsFrom(b, 9) == 0;
    assert TermsFrom(b, 8) == Horizontal(b, 8) + Vertical(b, 8) + TermsFrom(b, 9);
    assert TermsFrom(b, 7) == Horizontal(b, 7) + Vertical(b, 7) + TermsFrom(b, 8);
    assert TermsFrom(b, 6) == Horizontal(b, 6) + Vertical(b, 6) + TermsFrom(b, 7);
    assert TermsFrom(b, 5) == Horizontal(b, 5) + Vertical(b, 5) + TermsFrom(b, 6);
    assert TermsFrom(b, 4) == Horizontal(b, 4) + Vertical(b, 4) + TermsFrom(b, 5);
    assert TermsFrom(b, 3) == Horizontal(b, 3) + Vertical(b, 3) + TermsFrom(b, 4);
    assert TermsFrom(b, 2) == Horizontal(b, 2) + Vertical(b, 2) + TermsFrom(b, 3);
    assert TermsFrom(b, 1) == Horizontal(b, 1) + Vertical(b, 1) + TermsFrom(b, 2);
    assert TermsFrom(b, 0) == Horizontal(b, 0) + Vertical(b, 0) + TermsFrom(b, 1);
  }

  /** `s` sums 6 horizontal and 8 vertical terms of 0 or 1, so it is at most 14. */
  lemma ScoreBound(b: int)
    requires 0 <= b < 512
    ensures 0 <= Score(b) <= 14
  {
    ScoreIsReference(b);
  }

  /** `s` can only grow when bits are added to the bitmap. */
  lemma ScoreMonotone(a: int, b: int)
    requires 0 <= a < 512 && 0 <= b < 512 && SubMask(a, b)
    ensures Score(a) <= Score(b)
  {
    ScoreIsReference(a);
    ScoreIsReference(b);
    assert Bit(a, 0) <= Bit(b, 0) && Bit(a, 1) <= Bit(b, 1) && Bit(a, 2) <= Bit(b, 2);
    assert Bit(a, 3) <= Bit(b, 3) && Bit(a, 4) <= Bit(b, 4) && Bit(a, 5) <= Bit(b, 5);
    assert Bit(a, 6) <= Bit(b, 6) && Bit(a, 7) <= Bit(b, 7) && Bit(a, 8) <= Bit(b, 8);
  }

  // ---------------------------------------------------------------------
  // The entries

  /** `(s * 3) >> 3` is (3s) / 8 rounded down for the values `s` takes. */
  lemma EntryOfScore(s: int)
    requires 0 <= s <= 14
    ensures JsShr(s * 3, 3) == s * 3 / 8
  {
    var v := s * 3;
    SmallIsInt32(v);
    assert Halve(v, 3) == Halve(v / 2, 2) == Halve(v / 2 / 2, 1) == v / 2 / 2 / 2;
  }

  /** Every entry is at most 5 (= (14 * 3) >> 3), so it fits a `Uint8Array`. */
  lemma EntryBound(i: int)
    requires 0 <= i < 512
    ensures 0 <= PruneEntry(i) <= 5
  {
    BitmapKeepsPopcount(i);
    ScoreBound(Bitmap(i));
    EntryOfScore(Score(Bitmap(i)));
  }

  /** The entries the shifts and ors compute are the written-out ones. */
  lemma EntryIsReference(i: int)
    requires 0 <= i < 512
    ensures PruneEntry(i) == ReferenceEntry(i)
  {
    var b := Bitmap(i);
    BitmapBits(i, 0);
    BitmapBits(i, 1);
    BitmapBits(i, 2);
    BitmapBits(i, 3);
    BitmapBits(i, 4);
    BitmapBits(i, 5);
    BitmapBits(i, 6);
    BitmapBits(i, 7);
    BitmapBits(i, 8);
    ScoreIsReference(b);
    ScoreBound(b);
    EntryOfScore(Score(b));
  }

  /** The entry for the empty mask is 0. */
  lemma ZeroEntry()
    ensures PruneEntry(0) == 0
  {
    EntryIsReference(0);
  }

  /** Entries are monotone: a mask whose bits lie within another's has an entry
      no larger. */
  lemma EntryMonotone(i: int, k: int)
    requires 0 <= i < 512 && 0 <= k < 512 && SubMask(i, k)
    ensures PruneEntry(i) <= PruneEntry(k)
  {
    BitmapKeepsPopcount(i);
    BitmapKeepsPopcount(k);
    BitmapMonotone(i, k);
    ScoreBound(Bitmap(i));
    ScoreBound(Bitmap(k));
    ScoreMonotone(Bitmap(i), Bitmap(k));
    EntryOfScore(Score(Bitmap(i)));
    EntryOfScore(Score(Bitmap(k)));
  }

  /** The store of util/cube.js:43 keeps the entry, which fits a byte. */
  lemma StoredEntry(i: int, s: int)
    requires 0 <= i < 512 && s == Score(Bitmap(i))
    ensures ToUint8(JsShr(s * 3, 3)) as int == ReferenceEntry(i)
  {
    EntryBound(i);
    EntryIsReference(i);
  }

  /** The inner loop of util/cube.js:35-42: sum the additions for j from 8
      down to 0. */
  method ScoreOf(bitmap: int) returns (s: int)
    ensures s == Score(bitmap)
  {
    s := 0;
    var j := 8;
    while j >= 0
      invariant -1 <= j <= 8
      invariant s == TermsFrom(bitmap, j + 1)
    {
      ModThree(j);
      if j % 3 != 0 {
        s := s + JsAnd(1, JsOr(JsShr(bitmap, j), JsShr(bitmap, j - 1)));
      }
      if j - 3 != 0 {
        s := s + JsAnd(1, JsOr(JsShr(bitmap, j), JsShr(bitmap, j - 3)));
      }
      j := j - 1;
    }
  }

  /** One pass of the outer loop (util/cube.js:32-43): re-lay mask i, score
      it and store three eighths of the score. */
  method EntryOf(i: int) returns (e: u8)
    requires 0 <= i < 512
    ensures e as int == ReferenceEntry(i)
  {
    var s := ScoreOf(Bitmap(i));
    StoredEntry(i, s);
    e := ToUint8(JsShr(s * 3, 3));
  }

  /** The live loop of util/cube.js:31-49: fill a fresh 512-entry `Uint8Array`
      with the entry of every mask (the entries of `PruneEntry`, by
      EntryIsReference). */
  method BuildPruneLookup() returns (table: array<u8>)
    ensures fresh(table)
    ensures table.Length == 512
    ensures forall i :: 0 <= i < 512 ==> table[i] as int == ReferenceEntry(i)
  {
    table := new u8[512](_ => 0);
    var i := 0;
    while i < 512
      invariant 0 <= i <= 512
      invariant forall k :: 0 <= k < i ==> table[k] as int == ReferenceEntry(k)
    {
      var e := EntryOf(i);
      table[i] := e;
      i := i + 1;
    }
  }
}
