/** The fixed-point Goertzel recurrence of the DTMF receiver (kernel/capidtmf.c).

    A filter holds the last two outputs `q1`, `q2` and its coefficient `c`,
    the C program's 2*cos(w) scaled by 65536.  The sweeping sixteenth filter
    lowers its coefficient by `dec` after each sample; the other fifteen have
    `dec == 0`.  All of this is exact integer arithmetic: the scaled product is
    rounded down, and that rounding is part of every statement below. */
module Goertzel {
  import opened Arith
  import opened Words

  const K := 65536         // scale of the coefficients
  const B := 32256         // magnitude bound of one sample plus one for rounding
  const N := 160           // samples of a window
  const FILTERS := 16
  const SWEEP_START := 2 * 0xf3b9
  const SWEEP_STEP := 2 * 0x0019

  /** Samples after windowing: the 16-bit product of a G.711 value (at most
      32256) and a window value (at most 32766), shifted right by 15. */
  type Sample = x: int | -B < x < B

  datatype Filter = Filter(q1: int, q2: int, c: int)

  /** The coefficients of the C table; the last is where the sweep starts. */
  function Coefficient(i: nat): (c: int)
    requires i < FILTERS
    ensures 0 < c < 2 * K && c % 2 == 0
    ensures i < FILTERS - 1 ==> c <= 2 * 0xe1c6
  {
    2 * [0xdae7, 0xd241, 0xc98a, 0xbd36, 0x9501, 0x7f89, 0x6639, 0x48c6,
         0xe1c6, 0xb227, 0xa268, 0xc32f, 0x8a87, 0x7325, 0x57aa, 0xf3b9][i]
  }

  function Decrement(i: nat): nat {
    if i == FILTERS - 1 then SWEEP_STEP else 0
  }

  function Step(f: Filter, dec: nat, s: int): Filter {
    Filter(s - f.q2 + f.c * f.q1 / K, f.q1, f.c - dec)
  }

  /** A filter fed with a whole sequence of samples. */
  function Run(f: Filter, dec: nat, xs: seq<int>): Filter
    decreases |xs|
  {
    if xs == [] then f else Step(Run(f, dec, xs[..|xs| - 1]), dec, xs[|xs| - 1])
  }

  function Fresh(i: nat): Filter
    requires i < FILTERS
  {
    Filter(0, 0, Coefficient(i))
  }

  /** Feeding a stream in two portions is feeding it at once. */
  lemma {:induction false} RunConcat(f: Filter, dec: nat, xs: seq<int>, ys: seq<int>)
    ensures Run(f, dec, xs + ys) == Run(Run(f, dec, xs), dec, ys)
    decreases |ys|
  {
    if ys == [] {
      assert xs + ys == xs;
    } else {
      var m := |ys| - 1;
      assert (xs + ys)[..|xs + ys| - 1] == xs + ys[..m];
      RunConcat(f, dec, xs, ys[..m]);
    }
  }

  lemma {:induction false} RunCoefficient(f: Filter, dec: nat, xs: seq<int>)
    ensures Run(f, dec, xs).c == f.c - dec * |xs|
    decreases |xs|
  {
    if xs != [] {
      RunCoefficient(f, dec, xs[..|xs| - 1]);
    }
  }

  // ---------------------------------------------------------------- energy

  /** The quadratic form that an undriven filter conserves, scaled by K. */
  function Energy(c: int, x: int, y: int): int {
    K * (x * x + y * y) - c * x * y
  }

  /** The filter was started at rest with coefficient `c0` and has seen `n`
      samples.  For a filter that does not sweep (`f.c == c0`) this is
      Energy <= K * n^2 * B^2; the two extra factors carry the sweep. */
  ghost predicate Contained(f: Filter, c0: int, n: nat) {
    && 0 <= f.c <= c0 < 2 * K
    && Energy(f.c, f.q1, f.q2) * (2 * K - c0) <= K * n * n * B * B * (2 * K - f.c)
  }

  lemma EnergySquares(c: int, x: int, y: int)
    ensures 4 * K * Energy(c, x, y) == (2 * K * y - c * x) * (2 * K * y - c * x) + (4 * K * K - c * c) * x * x
    ensures 4 * K * Energy(c, x, y) == (2 * K * x - c * y) * (2 * K * x - c * y) + (4 * K * K - c * c) * y * y
  {
  }

  lemma EnergyBoundsSum(c: int, x: int, y: int)
    requires 0 <= c <= 2 * K
    ensures (2 * K - c) * (x * x + y * y) <= 2 * Energy(c, x, y)
    ensures 0 <= Energy(c, x, y)
  {
    var p := x - y;
    assert 2 * Energy(c, x, y) - (2 * K - c) * (x * x + y * y) == c * (p * p);
    assert 0 <= c * (p * p) by { Nonneg(c, p * p); }
    assert 0 <= (2 * K - c) * (x * x + y * y) by { Nonneg(2 * K - c, x * x + y * y); }
  }

  /** One driven step with the coefficient held, in units of 1/K: the new
      output z/K with z = c*x - K*y + u, where u is the scaled input. */
  lemma EnergyStep(c: int, x: int, y: int, x': int, u: int)
    requires K * x' == c * x - K * y + u
    ensures K * Energy(c, x', x) == K * Energy(c, x, y) + u * (c * x - 2 * K * y) + u * u
  {
    var w := c * x - K * y;
    calc {
      K * Energy(c, x', x);
      (K * x') * (K * x') + K * K * x * x - c * x * (K * x');
      (w + u) * (w + u) + K * K * x * x - c * x * (w + u);
      w * w - c * x * w + K * K * x * x + u * (2 * w - c * x) + u * u;
      K * Energy(c, x, y) + u * (c * x - 2 * K * y) + u * u;
    }
  }

  /** The cross term of EnergyStep is bounded by the energy before the step:
      a square-root estimate, kept in integers by comparing squares. */
  lemma CrossTerm(e: int, v: int, k: nat, b: nat, g: int, d: int)
    requires v * v <= 4 * k * e && 0 < d <= g
    requires e * d <= k * (b * b) * g
    ensures -(2 * k * b * g) <= v * d <= 2 * k * b * g
  {
    var bb := b * b;
    CrossTermSquared(e, v, k, bb, g, d);
    var r := 2 * k * b * g;
    assert r * r == 4 * (k * k) * bb * (g * g);
    assert (v * d) * (v * d) == (v * v) * (d * d);
    Nonneg(2 * k * b, g);
    AbsFromSquares(v * d, r);
  }

  lemma CrossTermSquared(e: int, v: int, k: nat, bb: nat, g: int, d: int)
    requires v * v <= 4 * k * e && 0 < d <= g
    requires e * d <= k * bb * g
    ensures (v * v) * (d * d) <= 4 * (k * k) * bb * (g * g)
  {
    Times(v * v, 4 * k * e, d * d);
    Times(e * d, k * bb * g, 4 * k * d);
    Regroup(e, k, bb, g, d);
    Times(d, g, g);
    Nonneg(k, k);
    Nonneg(4 * (k * k), bb);
    Times(d * g, g * g, 4 * (k * k) * bb);
  }

  lemma Regroup(e: int, k: int, bb: int, g: int, d: int)
    ensures (4 * k * e) * (d * d) == (e * d) * (4 * k * d)
    ensures (k * bb * g) * (4 * k * d) == (d * g) * (4 * (k * k) * bb)
  {
  }

  /** One driven step adds at most B to the square root of the energy. */
  lemma DrivenStep(c: int, x: int, y: int, x': int, u: int, k: int, b: nat, m: nat, g: int, d: int)
    requires k == K && k * x' == c * x - k * y + u
    requires 0 <= c <= 2 * k && -(k * b) <= u <= k * b
    requires 0 < d <= g
    requires Energy(c, x, y) * d <= k * (m * m) * g
    ensures Energy(c, x', x) * d <= k * ((m + b) * (m + b)) * g
  {
    hide Energy;
    var e, e', v := Energy(c, x, y), Energy(c, x', x), c * x - 2 * k * y;
    EnergyStep(c, x, y, x', u);
    assert k * e' == k * e + u * v + u * u;
    EnergySquares(c, x, y);
    Nonneg(4 * k * k - c * c, x * x) by {
      Times(c, 2 * k, c);
      Times(c, 2 * k, 2 * k);
    }
    assert v * v == (2 * k * y - c * x) * (2 * k * y - c * x);
    CrossTerm(e, v, k, m, g, d);
    Nonneg(2 * k * m, g);
    TimesAbs(u, v * d, k * b, 2 * k * m * g);
    TimesAbs(u, u, k * b, k * b);
    Times(u * u, (k * b) * (k * b), d);
    Nonneg(k * b, k * b);
    Times(d, g, (k * b) * (k * b));
    Distribute(e, e', u, v, k, d);
    Binomial(k, b, m, g);
    SumUp(k, e' * d, e * d, u * (v * d), (u * u) * d, k * ((m + b) * (m + b)) * g,
          k * (m * m) * g, (k * b) * (2 * k * m * g), (k * b) * (k * b) * g);
  }

  lemma SumUp(k: int, p': int, p: int, q: int, r: int, goal: int, a: int, x: int, y: int)
    requires 0 < k && p <= a && q <= x && r <= y
    requires k * p' == k * p + q + r && k * goal == k * a + x + y
    ensures p' <= goal
  {
    Times(p, a, k);
    Cancel(k, p', goal);
  }

  lemma Distribute(e: int, e': int, u: int, v: int, k: int, d: int)
    requires k * e' == k * e + u * v + u * u
    ensures k * (e' * d) == k * (e * d) + u * (v * d) + (u * u) * d
  {
    calc {
      k * (e' * d);
      (k * e') * d;
      (k * e + u * v + u * u) * d;
      (k * e) * d + (u * v) * d + (u * u) * d;
      k * (e * d) + u * (v * d) + (u * u) * d;
    }
  }

  lemma Binomial(k: int, b: int, m: int, g: int)
    ensures k * (k * ((m + b) * (m + b)) * g)
         == k * (k * (m * m) * g) + (k * b) * (2 * k * m * g) + (k * b) * (k * b) * g
  {
    calc {
      k * (k * ((m + b) * (m + b)) * g);
      k * k * g * ((m + b) * (m + b));
      k * k * g * (m * m + 2 * (m * b) + b * b);
    }
  }

  /** Lowering the coefficient by `dec` raises the energy by at most the
      factor (g + dec)/g, where g = 2K - c. */
  lemma SweepStep(c: int, dec: nat, x: int, y: int, kmm: nat, g: int, d: int)
    requires 0 <= dec <= c < 2 * K && g == 2 * K - c && 0 < d
    requires Energy(c, x, y) * d <= kmm * g
    ensures Energy(c - dec, x, y) * d <= kmm * (g + dec)
  {
    var e, e' := Energy(c, x, y), Energy(c - dec, x, y);
    EnergyBoundsSum(c, x, y);
    assert e' == e + dec * (x * y);
    assert 0 <= (x - y) * (x - y) by { Square(x - y); }
    assert (x - y) * (x - y) == x * x + y * y - 2 * (x * y);
    Times(2 * (x * y), x * x + y * y, g);
    SweepAlgebra(e, e', x * y, dec, g);
    SweepCompare(e, e', dec, kmm, g, d);
  }

  lemma SweepAlgebra(e: int, e': int, xy: int, dec: nat, g: int)
    requires e' == e + dec * xy && (2 * xy) * g <= 2 * e
    ensures g * e' <= e * (g + dec)
  {
    Times(xy * g, e, dec);
    assert g * e' == g * e + (xy * g) * dec;
  }

  lemma SweepCompare(e: int, e': int, dec: nat, kmm: nat, g: int, d: int)
    requires 0 < g && 0 < d
    requires g * e' <= e * (g + dec) && e * d <= kmm * g
    ensures e' * d <= kmm * (g + dec)
  {
    Times(g * e', e * (g + dec), d);
    Times(e * d, kmm * g, g + dec);
    assert (g * e') * d == g * (e' * d);
    assert (e * (g + dec)) * d == (e * d) * (g + dec);
    assert (kmm * g) * (g + dec) == g * (kmm * (g + dec));
    Cancel(g, e' * d, kmm * (g + dec));
  }

  /** Every sample keeps the filter contained, rounding included. */
  lemma StepContained(f: Filter, c0: int, n: nat, dec: nat, s: Sample)
    requires Contained(f, c0, n) && dec <= f.c
    ensures Contained(Step(f, dec, s), c0, n + 1)
  {
    var f' := Step(f, dec, s);
    var r := f.c * f.q1 % K;
    var u := K * s - r;
    var m, g, d := n * B, 2 * K - f.c, 2 * K - c0;
    assert K * f'.q1 == f.c * f.q1 - K * f.q2 + u;
    Squares(n, g);
    DrivenStep(f.c, f.q1, f.q2, f'.q1, u, K, B, m, g, d);
    var kmm := K * ((m + B) * (m + B));
    SweepStep(f.c, dec, f'.q1, f.q1, kmm, g, d);
    Squares(n + 1, g + dec);
    assert kmm == K * (((n + 1) * B) * ((n + 1) * B));
  }

  lemma Squares(n: int, g: int)
    ensures K * n * n * B * B * g == K * ((n * B) * (n * B)) * g
  {
  }

  lemma {:induction false} RunContained(f: Filter, c0: int, n: nat, dec: nat, xs: seq<Sample>)
    requires Contained(f, c0, n) && dec * |xs| <= f.c
    ensures Contained(Run(f, dec, xs), c0, n + |xs|)
    decreases |xs|
  {
    if xs != [] {
      var ys := xs[..|xs| - 1];
      assert dec * |xs| == dec * |ys| + dec;
      RunContained(f, c0, n, dec, ys);
      RunCoefficient(f, dec, ys);
      StepContained(Run(f, dec, ys), c0, n + |ys|, dec, xs[|xs| - 1]);
    }
  }

  /** Containment bounds both outputs. */
  lemma ContainedBound(f: Filter, c0: int, n: nat)
    requires Contained(f, c0, n)
    ensures (f.q1 * f.q1 + f.q2 * f.q2) * (2 * K - c0) <= 2 * K * ((n * B) * (n * B))
  {
    var sum, g, d, m := f.q1 * f.q1 + f.q2 * f.q2, 2 * K - f.c, 2 * K - c0, (n * B) * (n * B);
    var e := Energy(f.c, f.q1, f.q2);
    EnergyBoundsSum(f.c, f.q1, f.q2);
    Times(g * sum, 2 * e, d);
    Reorder(e, g, sum, d, n, m);
    Cancel(g, sum * d, 2 * K * m);
  }

  lemma Reorder(e: int, g: int, sum: int, d: int, n: int, m: int)
    requires m == (n * B) * (n * B)
    requires e * d <= K * n * n * B * B * g && (g * sum) * d <= (2 * e) * d
    ensures g * (sum * d) <= g * (2 * K * m)
  {
    assert K * n * n * B * B * g == K * m * g by {
      assert n * n * B * B == m;
    }
    assert g * (sum * d) == (g * sum) * d;
    assert (2 * e) * d == 2 * (e * d);
  }

  function Limit(i: nat): int {
    if i == FILTERS - 1 then 0x200_0000 else 0x100_0000
  }

  /** Over a window no output of a fixed filter reaches 2^24 and none of the
      sweeping filter reaches 2^25, whatever the samples. */
  lemma ContainedLimit(f: Filter, i: nat, n: nat)
    requires i < FILTERS && n <= N && Contained(f, Coefficient(i), n)
    ensures -Limit(i) < f.q1 < Limit(i) && -Limit(i) < f.q2 < Limit(i)
  {
    var d := 2 * K - Coefficient(i);
    ContainedBound(f, Coefficient(i), n);
    Times(n, N, B);
    Product(n * B, N * B, n * B, N * B);
    assert (f.q1 * f.q1 + f.q2 * f.q2) * d <= 2 * K * ((N * B) * (N * B));
    var l := Limit(i);
    Square(f.q1);
    Square(f.q2);
    assert 2 * K * ((N * B) * (N * B)) < (l * l) * d by {
      if i < FILTERS - 1 {
        assert l * l == 0x1_0000_0000_0000;
      } else {
        assert l * l == 0x4_0000_0000_0000;
      }
    }
    if !(-l < f.q1 < l) {
      OutOfRange(f.q1, l);
      Times(l * l, f.q1 * f.q1 + f.q2 * f.q2, d);
    }
    if !(-l < f.q2 < l) {
      OutOfRange(f.q2, l);
      Times(l * l, f.q1 * f.q1 + f.q2 * f.q2, d);
    }
  }

  /** Without a sweep the two factors of the containment cancel. */
  lemma FixedEnergy(f: Filter, n: nat)
    requires Contained(f, f.c, n)
    ensures Energy(f.c, f.q1, f.q2) <= K * n * n * B * B
  {
    var d, e, l := 2 * K - f.c, Energy(f.c, f.q1, f.q2), K * n * n * B * B;
    assert e * d <= l * d;
    assert d * e <= d * l;
    Cancel(d, e, l);
  }

  /** The main bound: however a window is filled, a filter started at rest
      satisfies the energy bound and stays inside its limit. */
  lemma WindowBound(i: nat, xs: seq<Sample>)
    requires i < FILTERS && |xs| <= N
    ensures var f := Run(Fresh(i), Decrement(i), xs);
      && Contained(f, Coefficient(i), |xs|)
      && -Limit(i) < f.q1 < Limit(i) && -Limit(i) < f.q2 < Limit(i)
    ensures i < FILTERS - 1 ==>
      var f := Run(Fresh(i), Decrement(i), xs);
      Energy(Coefficient(i), f.q1, f.q2) <= K * |xs| * |xs| * B * B
  {
    RunContained(Fresh(i), Coefficient(i), 0, Decrement(i), xs);
    var f := Run(Fresh(i), Decrement(i), xs);
    ContainedLimit(f, i, |xs|);
    if i < FILTERS - 1 {
      RunCoefficient(Fresh(i), 0, xs);
      FixedEnergy(f, |xs|);
    }
  }
}