/** The logarithmic quantiser of the DTMF receiver: three steps to the octave,
    read off the leading-zero count and the normalised mantissa. */
module LogLevel {
  import opened Arith
  import opened Words

  const THIRD := 0xa145_0000        // 2^31 * 2^(1/3), rounded to 16 bits
  const TWO_THIRDS := 0xcb30_0000   // 2^31 * 2^(2/3), rounded to 16 bits

  function Pow2(n: nat): (p: nat)
    ensures 0 < p
  {
    if n == 0 then 1 else 2 * Pow2(n - 1)
  }

  function BitLength(x: nat): nat {
    if x == 0 then 0 else 1 + BitLength(x / 2)
  }

  // ------------------------------------------------- the leading-zero macros

  const ZEROES_TABLE: seq<Byte> :=
    [8, 7, 6, 6, 5, 5, 5, 5] + Repeat(4, 8) + Repeat(3, 16) + Repeat(2, 32) + Repeat(1, 64) + Repeat(0, 128)

  function Repeat(v: Byte, n: nat): (s: seq<Byte>)
    ensures |s| == n && forall i | 0 <= i < n :: s[i] == v
  {
    if n == 0 then [] else Repeat(v, n - 1) + [v]
  }

  function ByteLeadingZeroes(b: Byte): Byte {
    ZEROES_TABLE[b]
  }

  function WordLeadingZeroes(w: Word): (n: nat) {
    if w / 0x100 != 0 then ByteLeadingZeroes(w / 0x100) else 8 + ByteLeadingZeroes(w)
  }

  function DwordLeadingZeroes(d: Dword): (n: nat) {
    if d / 0x1_0000 != 0 then
      if d / 0x100_0000 != 0 then ByteLeadingZeroes(d / 0x100_0000) else 8 + ByteLeadingZeroes(d / 0x1_0000)
    else
      if d / 0x100 % 0x100 != 0 then 16 + ByteLeadingZeroes(d / 0x100) else 24 + ByteLeadingZeroes(d)
  }

  lemma {:induction false} BitLengthRange(x: nat)
    requires 0 < x
    ensures Pow2(BitLength(x) - 1) <= x < Pow2(BitLength(x))
  {
    if 1 < x {
      BitLengthRange(x / 2);
    } else {
      assert Pow2(0) == 1 && BitLength(0) == 0;
    }
  }

  lemma {:induction false} BitLengthUnique(x: nat, n: nat)
    requires Pow2(n) <= x < Pow2(n + 1)
    ensures BitLength(x) == n + 1
  {
    if n == 0 {
      assert Pow2(1) == 2 * Pow2(0) == 2;
      assert x == 1 && BitLength(0) == 0;
    } else {
      BitLengthUnique(x / 2, n - 1);
    }
  }

  lemma {:induction false} BitLengthMonotone(x: nat, y: nat)
    requires x <= y
    ensures BitLength(x) <= BitLength(y)
  {
    if 0 < x {
      BitLengthMonotone(x / 2, y / 2);
    }
  }

  lemma {:induction false} BitLengthShift(x: nat, k: nat)
    requires Pow2(k) <= x
    ensures BitLength(x) == k + BitLength(x / Pow2(k))
    decreases k
  {
    if k != 0 {
      BitLengthShift(x / 2, k - 1);
      HalveTwice(x, Pow2(k - 1));
    } else {
      assert x / 1 == x;
    }
  }

  lemma HalveTwice(x: nat, m: nat)
    requires 0 < m
    ensures x / (2 * m) == x / 2 / m
  {
    var q := x / 2 / m;
    var r := x / 2 - q * m;
    assert x == q * (2 * m) + 2 * r + x % 2;
    Quotient(x, 2 * m, q, 2 * r + x % 2);
  }

  lemma Quotient(x: int, d: int, q: int, r: int)
    requires 0 <= r < d && x == q * d + r
    ensures x / d == q
  {
    if q < x / d {
      Times(q + 1, x / d, d);
    } else if x / d < q {
      Times(x / d + 1, q, d);
    }
  }

  lemma TableCorrect(b: Byte)
    ensures ByteLeadingZeroes(b) == 8 - BitLength(b)
  {
    Powers();
    if b != 0 {
      var n := if b < 2 then 0 else if b < 4 then 1 else if b < 8 then 2 else if b < 16 then 3
               else if b < 32 then 4 else if b < 64 then 5 else if b < 128 then 6 else 7;
      BitLengthUnique(b, n);
    } else {
      assert BitLength(0) == 0;
    }
  }

  lemma Powers()
    ensures Pow2(0) == 1 && Pow2(1) == 2 && Pow2(2) == 4 && Pow2(3) == 8 && Pow2(4) == 16
    ensures Pow2(16) == 0x1_0000 && Pow2(24) == 0x100_0000
    ensures Pow2(5) == 32 && Pow2(6) == 64 && Pow2(7) == 128 && Pow2(8) == 256
    ensures Pow2(31) == 0x8000_0000 && Pow2(32) == TWO32 && Pow2(63) == 0x8000_0000 * TWO32
  {
    assert Pow2(8) == 256;
    PowAdd(8, 8);
    PowAdd(16, 8);
    PowAdd(16, 15);
    PowAdd(8, 7);
    PowAdd(16, 16);
    PowAdd(31, 32);
  }

  lemma {:induction false} PowAdd(m: nat, n: nat)
    ensures Pow2(m + n) == Pow2(m) * Pow2(n)
    decreases n
  {
    if n != 0 {
      PowAdd(m, n - 1);
      calc {
        Pow2(m + n);
        2 * Pow2(m + (n - 1));
        2 * (Pow2(m) * Pow2(n - 1));
        Pow2(m) * (2 * Pow2(n - 1));
      }
    } else {
      assert Pow2(0) == 1;
    }
  }

  /** The three macros count the zeroes above the highest set bit. */
  lemma LeadingZeroesCorrect(d: Dword)
    ensures DwordLeadingZeroes(d) == 32 - BitLength(d)
    ensures d < 0x1_0000 ==> WordLeadingZeroes(d) == 16 - BitLength(d)
    ensures d < 0x100 ==> ByteLeadingZeroes(d) == 8 - BitLength(d)
  {
    hide ByteLeadingZeroes, BitLength, Pow2;
    Powers();
    if d < 0x100 {
      TableCorrect(d);
    } else if d < 0x1_0000 {
      BitLengthShift(d, 8);
      TableCorrect(d / 0x100);
    } else if d < 0x100_0000 {
      BitLengthShift(d, 16);
      TableCorrect(d / 0x1_0000);
    } else {
      BitLengthShift(d, 24);
      TableCorrect(d / 0x100_0000);
    }
  }

  // ------------------------------------------------------------ the quantiser

  function ShiftLeft(x: Dword, n: nat): Dword
    requires n <= 32
  {
    x * Pow2(n) % TWO32
  }

  function ShiftRight(x: Dword, n: nat): (r: Dword)
    requires n <= 32
  {
    Shrinks(x, Pow2(n));
    x / Pow2(n)
  }

  lemma Shrinks(x: nat, p: nat)
    requires 0 < p
    ensures 0 <= x / p <= x
  {
    Times(1, p, x / p);
  }

  /** Level of a 64-bit power given as two words, as the code computes it.
      A shift by 32, undefined in C, arises for the power 0 only, and there
      the word shifted is itself 0. */
  function Quantise(lo: Dword, hi: Dword): int {
    LeadingZeroesCorrect(hi);
    LeadingZeroesCorrect(lo);
    if hi != 0 then
      var n := DwordLeadingZeroes(hi);
      LevelAt(n, ShiftLeft(hi, n) + ShiftRight(lo, 32 - n))
    else
      var n := DwordLeadingZeroes(lo);
      LevelAt(n + 32, ShiftLeft(lo, n))
  }

  function LevelAt(zeroes: nat, mantissa: int): int {
    195 - 3 * zeroes + Adjust(mantissa)
  }

  function Adjust(mantissa: int): nat {
    if TWO_THIRDS <= mantissa then 2 else if THIRD <= mantissa then 1 else 0
  }

  /** The level in terms of the power: its octave and its top 32 bits. */
  function Level(p: nat): int
    requires p < 0x8000_0000 * TWO32
  {
    if p == 0 then 3
    else
      LengthBound(p);
      LevelAt(64 - BitLength(p), Mantissa(p))
  }

  /** p shifted so that its highest bit is bit 63, upper half. */
  function Mantissa(p: nat): nat
    requires 0 < p < 0x8000_0000 * TWO32
  {
    LengthBound(p);
    Upper(p, 64 - BitLength(p))
  }

  function Upper(p: nat, n: nat): nat {
    p * Pow2(n) / TWO32
  }

  lemma LengthBound(p: nat)
    requires p < 0x8000_0000 * TWO32
    ensures BitLength(p) <= 63
  {
    Powers();
    if 64 <= BitLength(p) {
      BitLengthRange(p);
      PowMonotone(63, BitLength(p) - 1);
    }
  }

  lemma {:induction false} PowMonotone(m: nat, n: nat)
    requires m <= n
    ensures Pow2(m) <= Pow2(n)
    decreases n
  {
    if m < n {
      PowMonotone(m, n - 1);
    }
  }

  lemma TopBitsFit(x: nat, n: nat)
    requires 0 < x && BitLength(x) + n == 32
    ensures 0x8000_0000 <= x * Pow2(n) < TWO32
  {
    hide BitLength, Pow2;
    var l := BitLength(x);
    BitLengthRange(x);
    PowAdd(l, n);
    PowAdd(l - 1, n);
    Scale(x, Pow2(l - 1), Pow2(l), Pow2(n));
    Powers();
  }

  lemma Scale(x: int, low: int, high: int, a: int)
    requires low <= x < high && 0 < a
    ensures low * a <= x * a < high * a
  {
    Times(low, x, a);
    Times(x + 1, high, a);
  }

  /** The upper half of a product by 2^n is the shifted upper half plus the
      bits shifted out of the lower half. */
  lemma ShiftPair(lo: Dword, hi: Dword, n: nat)
    requires n <= 32
    ensures (hi * TWO32 + lo) * Pow2(n) / TWO32 == hi * Pow2(n) + lo / Pow2(32 - n)
    ensures lo / Pow2(32 - n) < Pow2(n)
  {
    PowAdd(n, 32 - n);
    assert Pow2(32) == TWO32 by { Powers(); }
    SplitShift(lo, hi, Pow2(n), Pow2(32 - n));
  }

  lemma SplitShift(lo: nat, hi: nat, a: int, b: int)
    requires 0 < a && 0 < b && a * b == TWO32 && lo < TWO32
    ensures (hi * TWO32 + lo) * a / TWO32 == hi * a + lo / b
    ensures lo / b < a
  {
    var q, r := lo / b, lo % b;
    Times(r + 1, b, a);
    Nonneg(r, a);
    calc {
      lo * a;
      (q * b + r) * a;
      q * (a * b) + r * a;
    }
    Quotient((hi * TWO32 + lo) * a, TWO32, hi * a + q, r * a);
    if a <= q {
      Times(a, q, b);
    }
  }

  /** The two-word computation is the level of the power. */
  lemma QuantiseIsLevel(lo: Dword, hi: Dword)
    requires hi < 0x8000_0000
    ensures Quantise(lo, hi) == Level(hi * TWO32 + lo)
  {
    hide Quantise, Level;
    if hi != 0 {
      HighWordLevel(lo, hi);
    } else if lo != 0 {
      LowWordLevel(lo);
    } else {
      ZeroLevel();
    }
  }

  lemma LowWordLevel(lo: Dword)
    requires lo != 0
    ensures Quantise(lo, 0) == Level(lo)
  {
    hide ShiftLeft, ShiftRight, Mantissa, Pow2, BitLength, DwordLeadingZeroes, Adjust;
    LeadingZeroesCorrect(lo);
    LowWordMantissa(lo);
  }

  lemma ZeroLevel()
    ensures Quantise(0, 0) == 3 == Level(0)
  {
    hide ShiftLeft, ShiftRight, Mantissa, DwordLeadingZeroes, Pow2;
    LeadingZeroesCorrect(0);
    assert BitLength(0) == 0;
    ShiftZero(32);
  }

  lemma ShiftZero(n: nat)
    requires n <= 32
    ensures ShiftLeft(0, n) == 0
  {
    ShiftFits(0, n);
  }

  lemma HighWordLevel(lo: Dword, hi: Dword)
    requires 0 < hi < 0x8000_0000
    ensures Quantise(lo, hi) == Level(hi * TWO32 + lo)
  {
    hide ShiftLeft, ShiftRight, Upper, Pow2, BitLength, DwordLeadingZeroes, Adjust;
    LeadingZeroesCorrect(hi);
    LengthOfPair(lo, hi);
    PairMantissa(lo, hi, DwordLeadingZeroes(hi));
  }

  lemma PairMantissa(lo: Dword, hi: Dword, n: nat)
    requires 0 < hi < 0x8000_0000 && n + BitLength(hi) == 32
    ensures ShiftLeft(hi, n) + ShiftRight(lo, 32 - n) == Upper(hi * TWO32 + lo, n)
  {
    ShiftPair(lo, hi, n);
    TopBitsFit(hi, n);
    ShiftFits(hi, n);
  }

  lemma ShiftFits(x: Dword, n: nat)
    requires n <= 32 && x * Pow2(n) < TWO32
    ensures ShiftLeft(x, n) == x * Pow2(n)
  {
    Nonneg(x, Pow2(n));
    Quotient(x * Pow2(n), TWO32, 0, x * Pow2(n));
  }

  lemma LengthOfPair(lo: Dword, hi: Dword)
    requires hi != 0
    ensures BitLength(hi * TWO32 + lo) == 32 + BitLength(hi)
  {
    assert Pow2(32) == TWO32 by { Powers(); }
    BitLengthShift(hi * TWO32 + lo, 32);
  }

  lemma LowWordMantissa(lo: Dword)
    requires lo != 0
    ensures BitLength(lo) <= 32
    ensures ShiftLeft(lo, 32 - BitLength(lo)) == Mantissa(lo)
  {
    LeadingZeroesCorrect(lo);
    var n := 32 - BitLength(lo);
    TopBitsFit(lo, n);
    ShiftFits(lo, n);
    ShiftBy32(lo, n);
  }

  lemma ShiftBy32(x: nat, n: nat)
    ensures x * Pow2(n + 32) / TWO32 == x * Pow2(n)
  {
    var w := Pow2(n);
    PowAdd(n, 32);
    assert Pow2(32) == TWO32 by { Powers(); }
    Quotient(x * (w * TWO32), TWO32, x * w, 0);
  }

  /** Both shift counts stay inside the word exactly for positive powers. */
  lemma ShiftCounts(lo: Dword, hi: Dword)
    requires hi < 0x8000_0000
    ensures hi != 0 ==> 0 < DwordLeadingZeroes(hi) < 32 && 0 < 32 - DwordLeadingZeroes(hi) < 32
    ensures hi == 0 ==> (DwordLeadingZeroes(lo) < 32 <==> 0 < lo)
  {
    LeadingZeroesCorrect(hi);
    LeadingZeroesCorrect(lo);
    Powers();
    if hi != 0 {
      assert BitLength(hi) != 0;
      if BitLength(hi) == 32 {
        BitLengthRange(hi);
      }
    }
    assert BitLength(0) == 0;
  }

  /** Twice the power is three levels up, exactly. */
  lemma Doubling(p: nat)
    requires 0 < p < 0x4000_0000 * TWO32
    ensures Level(2 * p) == Level(p) + 3
  {
    LengthBound(p);
    LengthBound(2 * p);
    assert BitLength(2 * p) == 1 + BitLength(p);
    var n := 64 - BitLength(2 * p);
    assert (2 * p) * Pow2(n) == p * Pow2(n + 1);
  }

  /** More power never lowers the level. */
  lemma LevelMonotone(p: nat, q: nat)
    requires p <= q < 0x8000_0000 * TWO32
    ensures Level(p) <= Level(q)
  {
    LevelRange(q);
    if 0 < p {
      LengthBound(p);
      LengthBound(q);
      BitLengthMonotone(p, q);
      if BitLength(p) == BitLength(q) {
        var w := Pow2(64 - BitLength(p));
        Times(p, q, w);
        DivMonotone(p * w, q * w, TWO32);
      }
    }
  }

  lemma DivMonotone(a: int, b: int, d: int)
    requires 0 < d && a <= b
    ensures a / d <= b / d
  {
    if b / d < a / d {
      Times(b / d + 1, a / d, d);
    }
  }

  /** The level of a positive power fits a byte with room to spare; silence
      has a level of its own below all of them. */
  lemma LevelRange(p: nat)
    requires p < 0x8000_0000 * TWO32
    ensures 0 < p ==> 6 <= Level(p) <= 194
    ensures p == 0 ==> Level(p) == 3
  {
    LengthBound(p);
  }

  // ---------------------------------------------- what the level has to do with it

  function Cube(x: int): int {
    x * x * x
  }

  lemma CubeLess(a: nat, b: nat)
    requires a < b
    ensures Cube(a) < Cube(b)
  {
    Product(a, b, a, b);
    Product(a * a, b * b, a, a);
    Times(1, b * b, b - a);
    assert Cube(b) - b * b * a == b * b * (b - a);
  }

  lemma CubeProduct(a: int, b: int)
    ensures Cube(a * b) == Cube(a) * Cube(b)
  {
    calc {
      Cube(a * b);
      (a * b) * (a * b) * (a * b);
      (a * a * a) * (b * b * b);
    }
  }

  lemma CubePow(n: nat)
    ensures Cube(Pow2(n)) == Pow2(3 * n)
  {
    PowAdd(n, n);
    PowAdd(n + n, n);
  }

  lemma MorePowers()
    ensures Pow2(64) == TWO32 * TWO32 && Pow2(237) == 0x2000_0000_0000_0000_0000_0000_0000_0000_0000_0000_0000_0000_0000_0000_0000
    ensures Pow2(238) == 2 * Pow2(237) && Pow2(239) == 4 * Pow2(237) && Pow2(240) == 8 * Pow2(237)
  {
    Powers();
    PowAdd(32, 32);
    PowAdd(64, 64);
    PowAdd(128, 64);
    PowAdd(192, 32);
    PowAdd(224, 8);
    PowAdd(232, 5);
  }

  /** Between its thresholds a normalised power has its level, to a 2^-16th. */
  lemma NormalisedLevel(q: nat)
    requires 0x8000_0000 * TWO32 <= q < TWO32 * TWO32
    ensures Pow2(237 + Adjust(q / TWO32)) < Cube(65537 * q)
    ensures Cube(65535 * q) < Pow2(238 + Adjust(q / TWO32))
  {
    hide Pow2;
    var a := Adjust(q / TWO32);
    var low := if a == 0 then 0x8000_0000 * TWO32 else if a == 1 then THIRD * TWO32 else TWO_THIRDS * TWO32;
    var high := if a == 0 then THIRD * TWO32 else if a == 1 then TWO_THIRDS * TWO32 else TWO32 * TWO32;
    assert low <= q < high;
    MorePowers();
    if low < q {
      CubeLess(65537 * low, 65537 * q);
    }
    CubeLess(65535 * q, 65535 * high);
  }

  /** The level is the logarithm of the power: six and three times the binary
      logarithm, rounded down, of a power no farther from the true one than one
      part in 65536. */
  lemma LevelIsLogarithm(p: nat)
    requires 0 < p < 0x8000_0000 * TWO32
    ensures 6 <= Level(p)
    ensures Pow2(48) * Pow2(Level(p) - 6) < Cube(65537 * p)
    ensures Cube(65535 * p) < Pow2(48) * Pow2(Level(p) - 5)
  {
    hide Pow2, Cube, Adjust;
    LevelRange(p);
    LengthBound(p);
    var n := 64 - BitLength(p);
    var a := Adjust(Mantissa(p));
    NormalisedFits(p, n);
    NormalisedLevel(p * Pow2(n));
    assert Level(p) == 195 - 3 * n + a;
    CubeScaled(65537, p, n);
    CubeScaled(65535, p, n);
    PowAdd(48, Level(p) - 6);
    PowAdd(48, Level(p) - 5);
    PowAdd(Level(p) + 42, 3 * n);
    PowAdd(Level(p) + 43, 3 * n);
    CancelLess(Pow2(3 * n), Pow2(Level(p) + 42), Cube(65537 * p));
    CancelLess(Pow2(3 * n), Cube(65535 * p), Pow2(Level(p) + 43));
  }

  lemma PositiveLength(p: nat)
    requires 0 < p
    ensures 0 < BitLength(p)
  {
  }

  lemma CancelLess(g: int, a: int, b: int)
    requires 0 < g && a * g < b * g
    ensures a < b
  {
    if b <= a {
      Times(b, a, g);
    }
  }

  lemma CubeScaled(c: nat, p: nat, n: nat)
    ensures Cube(c * (p * Pow2(n))) == Cube(c * p) * Pow2(3 * n)
  {
    hide Pow2, Cube;
    assert c * (p * Pow2(n)) == (c * p) * Pow2(n);
    CubeProduct(c * p, Pow2(n));
    CubePow(n);
  }

  lemma NormalisedFits(p: nat, n: nat)
    requires 0 < p && BitLength(p) + n == 64
    ensures 0x8000_0000 * TWO32 <= p * Pow2(n) < TWO32 * TWO32
  {
    hide BitLength, Pow2;
    var l := BitLength(p);
    BitLengthRange(p);
    PositiveLength(p);
    Scale(p, Pow2(l - 1), Pow2(l), Pow2(n));
    assert Pow2(l) * Pow2(n) == TWO32 * TWO32 by {
      PowAdd(l, n);
      MorePowers();
    }
    assert Pow2(l - 1) * Pow2(n) == 0x8000_0000 * TWO32 by {
      PowAdd(l - 1, n);
      Powers();
    }
  }
}
