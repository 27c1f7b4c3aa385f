/** The sixteen filters kept in one flat buffer, q1 of filter i at [i] and q2
    at [i + 16], as `capidtmf_goertzel_loop` updates them in place. */
module FilterBank {
  import opened Arith
  import opened Goertzel
  import opened Words

  function FilterAt(buffer: seq<int>, coeffs: seq<int>, i: nat): Filter
    requires i < FILTERS && |buffer| == 2 * FILTERS && |coeffs| == FILTERS
  {
    Filter(buffer[i], buffer[i + FILTERS], coeffs[i])
  }

  /** A window that has taken `n` samples since it was started at rest. */
  ghost predicate Bank(buffer: seq<int>, coeffs: seq<int>, n: nat) {
    && n <= N && |buffer| == 2 * FILTERS && |coeffs| == FILTERS
    && forall i | 0 <= i < FILTERS :: BankFilter(FilterAt(buffer, coeffs, i), i, n)
  }

  ghost predicate BankFilter(f: Filter, i: nat, n: nat)
    requires i < FILTERS
  {
    f.c == Coefficient(i) - Decrement(i) * n && Contained(f, Coefficient(i), n)
  }

  lemma RunBank(f: Filter, i: nat, n: nat, xs: seq<Sample>)
    requires i < FILTERS && n + |xs| <= N && BankFilter(f, i, n)
    ensures BankFilter(Run(f, Decrement(i), xs), i, n + |xs|)
  {
    RunContained(f, Coefficient(i), n, Decrement(i), xs);
    RunCoefficient(f, Decrement(i), xs);
  }

  /** The scaled product from 16-bit limbs, as the C code computes it. */
  function LimbProduct(c: int, q: int): int {
    c * (q / 0x1_0000) + c / 2 * (q % 0x1_0000) / 0x8000
  }

  lemma LimbProductExact(c: int, q: int)
    requires c % 2 == 0
    ensures LimbProduct(c, q) == c * q / K
  {
    var d, h, l := c / 2, q / 0x1_0000, q % 0x1_0000;
    var a, b := c * h, d * l;
    assert c * q == a * 0x1_0000 + 2 * b by {
      assert q == h * 0x1_0000 + l;
      assert c == 2 * d;
    }
    FloorSum(a, b);
  }

  lemma FloorSum(a: int, b: int)
    ensures (a * 0x1_0000 + 2 * b) / 0x1_0000 == a + b / 0x8000
  {
  }

  /** The room the intermediate values have in their 32-bit types. */
  lemma LimbProductFits(c: int, q: int)
    requires 0 <= c < 2 * K && -0x200_0000 < q < 0x200_0000
    ensures 0 <= c / 2 * (q % 0x1_0000) < 0x1_0000_0000
    ensures -0x400_0000 <= c * (q / 0x1_0000) <= 0x400_0000
  {
    var d, h, l := c / 2, q / 0x1_0000, q % 0x1_0000;
    Nonneg(d, l);
    Product(d, 0xffff, l, 0xffff);
    assert -0x200 <= h <= 0x200;
    TimesAbs(c, h, 0x2_0000, 0x200);
    TimesAbs(-c, h, 0x2_0000, 0x200);
    assert (-c) * h == -(c * h);
  }

  lemma BankFilterLimits(f: Filter, i: nat, n: nat)
    requires i < FILTERS && n <= N && BankFilter(f, i, n)
    ensures f.c % 2 == 0 && 0 <= f.c < 2 * K
    ensures -0x200_0000 < f.q1 < 0x200_0000 && -0x200_0000 < f.q2 < 0x200_0000
  {
    ContainedLimit(f, i, n);
  }

  /** One of the fifteen fixed filters fed with `sample`. */
  method FixedFilter(f: Filter, i: nat, sample: seq<Sample>, ghost n: nat) returns (q1: Int32, q2: Int32)
    requires i < FILTERS - 1 && n + |sample| <= N && BankFilter(f, i, n)
    ensures Filter(q1, q2, f.c) == Run(f, 0, sample)
  {
    BankFilterLimits(f, i, n);
    q1, q2 := f.q1, f.q2;
    var d: Int32 := f.c / 2;
    var c: Int32 := d * 2;
    for j := 0 to |sample|
      invariant Filter(q1, q2, c) == Run(f, 0, sample[..j])
    {
      assert sample[..j + 1][..j] == sample[..j];
      RunBank(f, i, n, sample[..j]);
      BankFilterLimits(Filter(q1, q2, c), i, n + j);
      LimbProductFits(c, q1);
      LimbProductExact(c, q1);
      var low: Dword := d * (q1 % 0x1_0000);
      var q0: Int32 := sample[j] - q2 + c * (q1 / 0x1_0000) + low / 0x8000;
      q2 := q1;
      q1 := q0;
    }
    assert sample[..|sample|] == sample;
  }

  /** The sweeping filter: its coefficient falls after every sample. */
  method SweepingFilter(f: Filter, sample: seq<Sample>, ghost n: nat) returns (q1: Int32, q2: Int32, c: Int32)
    requires n + |sample| <= N && BankFilter(f, FILTERS - 1, n)
    ensures Filter(q1, q2, c) == Run(f, SWEEP_STEP, sample)
  {
    BankFilterLimits(f, FILTERS - 1, n);
    q1, q2 := f.q1, f.q2;
    c := f.c / 2 * 2;
    for j := 0 to |sample|
      invariant Filter(q1, q2, c) == Run(f, SWEEP_STEP, sample[..j])
    {
      assert sample[..j + 1][..j] == sample[..j];
      RunBank(f, FILTERS - 1, n, sample[..j]);
      BankFilterLimits(Filter(q1, q2, c), FILTERS - 1, n + j);
      LimbProductFits(c, q1);
      LimbProductExact(c, q1);
      var low: Dword := c / 2 * (q1 % 0x1_0000);
      var q0: Int32 := sample[j] - q2 + c * (q1 / 0x1_0000) + low / 0x8000;
      q2 := q1;
      q1 := q0;
      c := c - SWEEP_STEP;
    }
    assert sample[..|sample|] == sample;
  }

  method GoertzelLoop(buffer: array<Int32>, coeffs: array<Int32>, sample: seq<Sample>, ghost n: nat)
    requires buffer.Length == 2 * FILTERS && coeffs.Length == FILTERS
    requires Bank(buffer[..], coeffs[..], n) && n + |sample| <= N
    modifies buffer, coeffs
    ensures Bank(buffer[..], coeffs[..], n + |sample|)
    ensures forall i | 0 <= i < FILTERS ::
      FilterAt(buffer[..], coeffs[..], i) == Run(old(FilterAt(buffer[..], coeffs[..], i)), Decrement(i), sample)
  {
    ghost var b0, c0 := buffer[..], coeffs[..];
    var i := 0;
    while i < FILTERS - 1
      invariant 0 <= i <= FILTERS - 1
      invariant coeffs[..] == c0
      invariant forall k | 0 <= k < i :: FilterAt(buffer[..], c0, k) == Run(FilterAt(b0, c0, k), 0, sample)
      invariant forall k | i <= k < FILTERS :: FilterAt(buffer[..], c0, k) == FilterAt(b0, c0, k)
    {
      assert BankFilter(FilterAt(b0, c0, i), i, n);
      var q1, q2 := FixedFilter(Filter(buffer[i], buffer[i + FILTERS], coeffs[i]), i, sample, n);
      buffer[i] := q1;
      buffer[i + FILTERS] := q2;
      i := i + 1;
    }
    assert BankFilter(FilterAt(b0, c0, i), i, n);
    var q1, q2, c := SweepingFilter(Filter(buffer[i], buffer[i + FILTERS], coeffs[i]), sample, n);
    coeffs[i] := c;
    buffer[i] := q1;
    buffer[i + FILTERS] := q2;
    forall k | 0 <= k < FILTERS
      ensures FilterAt(buffer[..], coeffs[..], k) == Run(FilterAt(b0, c0, k), Decrement(k), sample)
      ensures BankFilter(FilterAt(buffer[..], coeffs[..], k), k, n + |sample|)
    {
      assert BankFilter(FilterAt(b0, c0, k), k, n);
      RunBank(FilterAt(b0, c0, k), k, n, sample);
      assert k < FILTERS - 1 ==> coeffs[k] == c0[k];
    }
  }
}
