/** The power of a finished window, computed from 16-bit limbs because the
    target has no 64-bit product (`capidtmf_goertzel_result`). */
module Power {
  import opened Arith
  import opened FilterBank
  import opened Goertzel
  import opened Words

  const TWO16 := 0x1_0000

  /** The value of a filter's output: q1^2 + q2^2 - c*q1*q2 with the scaled
      product c*q1 rounded as the code rounds it. */
  function WindowPower(q1: int, q2: int, c: int): int {
    q1 * q1 + q2 * q2 + q2 * (c * (-q1) / K)
  }

  /** Reinterpretation of the low half, which the code keeps in an int32. */
  function AsInt32(x: Dword): Int32 {
    if x < 0x8000_0000 then x else x - TWO32
  }

  function AsDword(x: Int32): Dword {
    if 0 <= x then x else x + TWO32
  }

  function LimbValue(lo: int, mid: int, hi: int): int {
    lo + mid * TWO16 + hi * TWO32
  }

  lemma LimbsOfProduct(dh: int, dl: int, eh: int, el: int)
    ensures (dh * TWO16 + dl) * (eh * TWO16 + el)
         == dl * el + (dh * el + dl * eh) * TWO16 + (dh * eh) * TWO32
  {
  }

  lemma ProductFits(a: int, b: int, p: int, q: int)
    requires 0 <= a <= p && 0 <= b <= q
    ensures 0 <= a * b <= p * q
  {
    Nonneg(a, b);
    Product(a, p, b, q);
  }

  method MultiplyLimbs(d: Int32, e: Int32) returns (lo: Int32, mid: Int32, hi: Int32)
    requires 0 <= d <= 0x3000_0000 && 0 <= e <= 0x1000_0000
    ensures LimbValue(lo, mid, hi) == d * e
    ensures 0 <= lo < TWO16 && 0 <= mid < 3 * TWO16 && 0 <= hi < 0x400_0000
  {
    var dh, dl, eh, el := d / TWO16, d % TWO16, e / TWO16, e % TWO16;
    LimbsOfProduct(dh, dl, eh, el);
    ProductFits(dl, el, 0xffff, 0xffff);
    ProductFits(dh, el, 0x3000, 0xffff);
    ProductFits(dl, eh, 0xffff, 0x1000);
    ProductFits(dh, eh, 0x3000, 0x1000);
    var k: Dword := dl * el;
    lo := k % TWO16;
    mid := k / TWO16;
    k := dh * el;
    mid := mid + k % TWO16;
    hi := k / TWO16;
    k := dl * eh;
    mid := mid + k % TWO16;
    hi := hi + k / TWO16;
    hi := hi + dh * eh;
  }

  /** Adds d*d to the limbs; the mixed product counts twice. */
  method AddSquare(q: Int32, lo0: Int32, mid0: Int32, hi0: Int32) returns (lo: Int32, mid: Int32, hi: Int32)
    requires -0x1000_0000 < q < 0x1000_0000
    requires -0x10_0000 <= lo0 <= 0x10_0000 && -0x100_0000 <= mid0 <= 0x100_0000
    requires -0x1000_0000 <= hi0 <= 0x1000_0000
    ensures LimbValue(lo, mid, hi) == LimbValue(lo0, mid0, hi0) + q * q
    ensures lo0 <= lo < lo0 + TWO16 && mid0 <= mid < mid0 + 3 * TWO16 && hi0 <= hi < hi0 + 0x200_0000
  {
    var d: Int32 := if q >= 0 then q else -q;
    assert d * d == q * q;
    var dh, dl := d / TWO16, d % TWO16;
    LimbsOfProduct(dh, dl, dh, dl);
    ProductFits(dl, dl, 0xffff, 0xffff);
    ProductFits(dh, dl, 0xfff, 0xffff);
    ProductFits(dh, dh, 0xfff, 0xfff);
    var k: Dword := dl * dl;
    lo := lo0 + k % TWO16;
    mid := mid0 + k / TWO16;
    k := dh * dl;
    mid := mid + k % TWO16 * 2;
    hi := hi0 + k / TWO16 * 2;
    hi := hi + dh * dh;
  }

  /** The rounded mixed term lies between -2|q1||q2| and 0 or has the sign that
      helps, so the power is never negative although c*q1 is rounded down. */
  lemma PowerNonnegative(q1: int, q2: int, c: int)
    requires 0 <= c < 2 * K
    ensures 0 <= WindowPower(q1, q2, c)
  {
    var p := c * (-q1) / K;
    if q1 >= 0 {
      Times(c, 2 * K, q1);
      assert -2 * q1 <= p <= 0 by { Nonneg(c, q1); assert c * (-q1) == -(c * q1); }
    } else {
      Times(c, 2 * K, -q1);
      assert 0 <= p <= 2 * (-q1) by { Nonneg(c, -q1); }
    }
    MixedTerm(q1, q2, p);
  }

  lemma MixedTerm(q1: int, q2: int, p: int)
    requires (0 <= q1 && -2 * q1 <= p <= 0) || (q1 < 0 && 0 <= p <= -2 * q1)
    ensures 0 <= q1 * q1 + q2 * q2 + q2 * p
  {
    Square(q1 - q2);
    Square(q1 + q2);
    Square(q1);
    Square(q2);
    if 0 <= q2 {
      if 0 <= q1 { Times(-2 * q1, p, q2); } else { Nonneg(q2, p); }
    } else {
      if 0 <= q1 { Nonneg(-q2, -p); } else { Times(p, -2 * q1, -q2); }
    }
  }

  /** The coefficient times -q1, rounded down. */
  method ScaledProduct(q1: Int32, coef: Int32) returns (d: Int32)
    requires -0x1000_0000 < q1 < 0x1000_0000 && 0 <= coef < 2 * K
    ensures d == (coef / 2 * 2) * (-q1) / K
    ensures -0x3000_0000 <= d <= 0x3000_0000
  {
    d := coef / 2;
    ghost var c := d * 2;
    var h, l := -q1 / TWO16, -q1 % TWO16;
    LimbProductExact(c, -q1);
    TimesAbs(c, h, 0x2_0000, 0x1000);
    TimesAbs(-c, h, 0x2_0000, 0x1000);
    assert (-c) * h == -(c * h);
    ProductFits(d, l, 0xffff, 0xffff);
    var low15: Dword := d * l;
    d := d * 2 * h + low15 / 0x8000;
  }

  method MixedLimbs(d: Int32, q2: Int32) returns (lo: Int32, mid: Int32, hi: Int32)
    requires -0x3000_0000 <= d <= 0x3000_0000 && -0x1000_0000 < q2 < 0x1000_0000
    ensures LimbValue(lo, mid, hi) == q2 * d
    ensures -TWO16 < lo < TWO16 && -3 * TWO16 < mid < 3 * TWO16 && -0x400_0000 < hi < 0x400_0000
  {
    var e: Int32 := if q2 >= 0 then q2 else -q2;
    if d >= 0 {
      lo, mid, hi := MultiplyLimbs(d, e);
    } else {
      lo, mid, hi := MultiplyLimbs(-d, e);
      lo, mid, hi := -lo, -mid, -hi;
      assert (-d) * e == -(d * e);
    }
    if q2 < 0 {
      lo, mid, hi := -lo, -mid, -hi;
      assert d * e == -(q2 * d);
    } else {
      assert d * e == q2 * d;
    }
  }

  /** The two halves hold the power exactly, with no intermediate overflow. */
  method GoertzelPower(q1: Int32, q2: Int32, coef: Int32) returns (low: Int32, hi: Int32)
    requires -0x1000_0000 < q1 < 0x1000_0000 && -0x1000_0000 < q2 < 0x1000_0000
    requires 0 <= coef < 2 * K
    ensures hi * TWO32 + AsDword(low) == WindowPower(q1, q2, coef / 2 * 2)
    ensures 0 <= hi
  {
    var d := ScaledProduct(q1, coef);
    var lo, mid;
    lo, mid, hi := MixedLimbs(d, q2);
    lo, mid, hi := AddSquare(q1, lo, mid, hi);
    lo, mid, hi := AddSquare(q2, lo, mid, hi);
    ghost var v := LimbValue(lo, mid, hi);
    assert v == WindowPower(q1, q2, coef / 2 * 2);
    PowerNonnegative(q1, q2, coef / 2 * 2);
    mid := mid + lo / TWO16;
    hi := hi + mid / TWO16;
    var word: Dword := lo % TWO16 + mid % TWO16 * TWO16;
    assert v == hi * TWO32 + word;
    low := AsInt32(word);
  }

  /** What `GoertzelResult` leaves in place of the outputs of filter `i`. */
  function PowerAt(buffer: seq<Int32>, i: nat): int
    requires i < FILTERS && |buffer| == 2 * FILTERS
  {
    buffer[i + FILTERS] * TWO32 + AsDword(buffer[i])
  }

  predicate SmallOutputs(buffer: seq<Int32>) {
    && |buffer| == 2 * FILTERS
    && forall k | 0 <= k < 2 * FILTERS :: -0x1000_0000 < buffer[k] < 0x1000_0000
  }

  /** Filter `i` has its power, computed from the outputs in `before`. */
  predicate Powered(before: seq<Int32>, buffer: seq<Int32>, coeffs: seq<Int32>, i: nat)
    requires i < FILTERS && |before| == |buffer| == 2 * FILTERS && |coeffs| == FILTERS
  {
    && 0 <= buffer[i + FILTERS]
    && PowerAt(buffer, i) == WindowPower(before[i], before[i + FILTERS], coeffs[i] / 2 * 2)
  }

  /** Replaces the outputs of all filters by their powers, in place. */
  method GoertzelResult(buffer: array<Int32>, coeffs: array<Int32>)
    requires buffer.Length == 2 * FILTERS && coeffs.Length == FILTERS && buffer != coeffs
    requires SmallOutputs(buffer[..])
    requires forall i | 0 <= i < FILTERS :: 0 <= coeffs[i] < 2 * K
    modifies buffer
    ensures forall i | 0 <= i < FILTERS :: Powered(old(buffer[..]), buffer[..], coeffs[..], i)
  {
    ghost var b0, c0 := buffer[..], coeffs[..];
    var i := 0;
    while i < FILTERS
      invariant 0 <= i <= FILTERS
      invariant forall k | 0 <= k < i :: Powered(b0, buffer[..], c0, k)
      invariant buffer[i..FILTERS] == b0[i..FILTERS] && buffer[i + FILTERS..] == b0[i + FILTERS..]
    {
      ghost var b1 := buffer[..];
      assert b1[i..FILTERS][0] == b0[i..FILTERS][0];
      assert b1[i + FILTERS..][0] == b0[i + FILTERS..][0];
      var low, hi := GoertzelPower(buffer[i], buffer[i + FILTERS], coeffs[i]);
      buffer[i] := low;
      buffer[i + FILTERS] := hi;
      PoweredKept(b0, b1, buffer[..], c0, i);
      i := i + 1;
    }
  }

  lemma PoweredKept(b0: seq<Int32>, b1: seq<Int32>, b2: seq<Int32>, c0: seq<Int32>, i: nat)
    requires i < FILTERS && |b0| == |b1| == |b2| == 2 * FILTERS && |c0| == FILTERS
    requires forall k | 0 <= k < i :: Powered(b0, b1, c0, k)
    requires b2 == b1[i := b2[i]][i + FILTERS := b2[i + FILTERS]]
    ensures forall k | 0 <= k < i :: Powered(b0, b2, c0, k)
  {
    forall k | 0 <= k < i
      ensures Powered(b0, b2, c0, k)
    {
      assert Powered(b0, b1, c0, k);
    }
  }
}
