/** What a filter with a fixed coefficient measures, in real numbers: its outputs
    are the response of a resonator to the samples, and their energy is the
    spectrum of the samples at the resonator's frequency. */
module Resonator {
  import opened Arith
  import opened Goertzel
  import opened Power

  /** The response to a single impulse, `n` samples later; `c` is twice the cosine
      of the angle the frequency turns by in one sample. */
  function Response(c: real, n: nat): real {
    if n == 0 then 1.0 else if n == 1 then c else c * Response(c, n - 1) - Response(c, n - 2)
  }

  /** The cosine of `n` such angles. */
  function Cosine(c: real, n: nat): real {
    if n == 0 then 1.0 else if n == 1 then c / 2.0 else c * Cosine(c, n - 1) - Cosine(c, n - 2)
  }

  /** One part of a weighted sum, and the others. */
  function Part(y: real, weight: real, others: real): real {
    y * weight + others
  }

  /** The responses to all samples, superposed. */
  function Output(c: real, ys: seq<real>): real {
    if ys == [] then 0.0 else Part(ys[0], Response(c, |ys| - 1), Output(c, ys[1..]))
  }

  /** The samples so far against a cosine that has the next one at its peak. */
  function Match(c: real, ys: seq<real>): real {
    if ys == [] then 0.0 else Part(ys[0], Cosine(c, |ys|), Match(c, ys[1..]))
  }

  /** The sum over all pairs of samples of their product, times the cosine of the
      angle between them: the squared magnitude of their Fourier sum. */
  function Spectrum(c: real, ys: seq<real>): real
    decreases |ys|
  {
    if ys == [] then 0.0
    else
      var r, y := ys[..|ys| - 1], ys[|ys| - 1];
      Spectrum(c, r) + y * y + 2.0 * y * Match(c, r)
  }

  function Before(ys: seq<real>): seq<real> {
    if ys == [] then [] else ys[..|ys| - 1]
  }

  /** One turn of the recurrence all these follow. */
  function Turn(c: real, p: real, q: real): real {
    c * p - q
  }

  lemma ResponseTurn(c: real, n: nat)
    ensures Response(c, n + 2) == Turn(c, Response(c, n + 1), Response(c, n))
    ensures Response(c, 0) == 1.0 && Response(c, 1) == c == Turn(c, Response(c, 0), 0.0)
  {
  }

  lemma CosineTurn(c: real, n: nat)
    ensures Cosine(c, n + 2) == Turn(c, Cosine(c, n + 1), Cosine(c, n))
    ensures Cosine(c, 0) == 1.0 && Cosine(c, 1) == c / 2.0
  {
  }

  lemma OutputFirst(c: real, ys: seq<real>)
    requires ys != []
    ensures Output(c, ys) == Part(ys[0], Response(c, |ys| - 1), Output(c, ys[1..]))
  {
  }

  lemma OutputNone(c: real)
    ensures Output(c, []) == 0.0 && Match(c, []) == 0.0 && Before([]) == []
  {
  }

  /** The last sample but one, and its response one sample earlier. */
  lemma OutputBefore(c: real, ys: seq<real>)
    requires ys != []
    ensures Output(c, Before(ys)) ==
              Part(ys[0], if |ys| == 1 then 0.0 else Response(c, |ys| - 2), Output(c, Before(ys[1..])))
  {
    hide Response;
    if |ys| == 1 {
      assert Before(ys) == [] && ys[1..] == [];
    } else {
      assert Before(ys)[1..] == Before(ys[1..]) && Before(ys)[0] == ys[0];
    }
  }

  /** One more sample is one more turn of the recurrence. */
  lemma {:induction false} OutputNext(c: real, ys: seq<real>, y: real)
    ensures Output(c, ys + [y]) == y + Turn(c, Output(c, ys), Output(c, Before(ys)))
    decreases |ys|
  {
    hide Output, Response, Before, Turn, Part;
    var zs := ys + [y];
    OutputFirst(c, zs);
    OutputNone(c);
    ResponseTurn(c, 0);
    if ys == [] {
      assert zs == [y] && zs[1..] == [];
      TurnNone(c, y);
    } else {
      var n := |ys|;
      assert zs[1..] == ys[1..] + [y];
      OutputNext(c, ys[1..], y);
      OutputFirst(c, ys);
      OutputBefore(c, ys);
      var u := if n == 1 then 0.0 else Response(c, n - 2);
      if 1 < n {
        ResponseTurn(c, n - 2);
      }
      TurnBoth(c, ys[0], Response(c, n - 1), u, y, Output(c, ys[1..]), Output(c, Before(ys[1..])));
    }
  }

  lemma TurnNone(c: real, y: real)
    ensures Turn(c, 0.0, 0.0) == 0.0 && Part(y, 1.0, 0.0) == y
  {
  }

  lemma TurnBoth(c: real, a: real, u: real, v: real, y: real, o: real, p: real)
    ensures Part(a, Turn(c, u, v), y + Turn(c, o, p)) == y + Turn(c, Part(a, u, o), Part(a, v, p))
  {
    assert a * (c * u - v) == c * (a * u) - a * v;
    assert c * (a * u + o) == c * (a * u) + c * o;
  }

  /** Twice the cosine is a difference of responses. */
  predicate Halves(c: real, t: real, u: real, v: real) {
    2.0 * t == c * u - 2.0 * v
  }

  lemma {:induction false} CosineResponse(c: real, n: nat)
    ensures Halves(c, Cosine(c, n + 2), Response(c, n + 1), Response(c, n))
    ensures Halves(c, Cosine(c, n + 1), Response(c, n), if n == 0 then 0.0 else Response(c, n - 1))
  {
    hide Cosine, Response, Turn, Halves;
    CosineTurn(c, n);
    ResponseTurn(c, n);
    if n == 0 {
      FirstHalves(c);
    } else {
      CosineResponse(c, n - 1);
      ResponseTurn(c, n - 1);
      if n == 1 {
        ResponseTurn(c, 0);
        HalvesTurn(c, Cosine(c, 2), Cosine(c, 1), Response(c, 1), Response(c, 0), 0.0);
      } else {
        ResponseTurn(c, n - 2);
        HalvesTurn(c, Cosine(c, n + 1), Cosine(c, n), Response(c, n), Response(c, n - 1), Response(c, n - 2));
      }
    }
  }

  lemma FirstHalves(c: real)
    ensures Halves(c, c / 2.0, 1.0, 0.0) && Halves(c, Turn(c, c / 2.0, 1.0), c, 1.0)
  {
    assert 2.0 * (c * (c / 2.0)) == c * c;
  }

  lemma HalvesTurn(c: real, t: real, s: real, u: real, v: real, w: real)
    requires Halves(c, t, u, v) && Halves(c, s, v, w) && u == Turn(c, v, w)
    ensures Halves(c, Turn(c, t, s), Turn(c, u, v), u)
  {
    assert 2.0 * (c * t) == c * (2.0 * t) == c * (c * u) - 2.0 * (c * v);
    assert c * (c * u - v) == c * (c * u) - c * v;
  }

  lemma {:induction false} MatchIsOutput(c: real, ys: seq<real>)
    ensures Halves(c, Match(c, ys), Output(c, ys), Output(c, Before(ys)))
    decreases |ys|
  {
    hide Match, Output, Before, Cosine, Response, Halves, Part;
    OutputNone(c);
    if ys == [] {
      NoneHalves(c);
    } else {
      var n := |ys|;
      MatchIsOutput(c, ys[1..]);
      CosineResponse(c, n - 1);
      OutputFirst(c, ys);
      OutputBefore(c, ys);
      MatchFirst(c, ys);
      HalvesBoth(c, ys[0], Cosine(c, n), Match(c, ys[1..]), Response(c, n - 1), Output(c, ys[1..]),
                 if n == 1 then 0.0 else Response(c, n - 2), Output(c, Before(ys[1..])));
    }
  }

  lemma NoneHalves(c: real)
    ensures Halves(c, 0.0, 0.0, 0.0)
  {
  }

  lemma MatchFirst(c: real, ys: seq<real>)
    requires ys != []
    ensures Match(c, ys) == Part(ys[0], Cosine(c, |ys|), Match(c, ys[1..]))
  {
  }

  lemma HalvesBoth(c: real, a: real, t: real, m: real, u: real, o: real, v: real, p: real)
    requires Halves(c, t, u, v) && Halves(c, m, o, p)
    ensures Halves(c, Part(a, t, m), Part(a, u, o), Part(a, v, p))
  {
    assert 2.0 * (a * t) == a * (2.0 * t) == a * (c * u - 2.0 * v) == c * (a * u) - 2.0 * (a * v);
    assert c * (a * u + o) == c * (a * u) + c * o;
  }

  function Quadratic(c: real, p: real, q: real): real {
    p * p + q * q - c * (p * q)
  }

  /** The quadratic form of the outputs is the spectrum of the samples. */
  lemma {:induction false} EnergyIsSpectrum(c: real, ys: seq<real>)
    ensures Quadratic(c, Output(c, ys), Output(c, Before(ys))) == Spectrum(c, ys)
    decreases |ys|
  {
    hide Quadratic, Output, Match, Spectrum, Halves, Turn;
    SpectrumLast(c, ys);
    OutputNone(c);
    if ys == [] {
      QuadraticNone(c);
    } else {
      var r, y := Before(ys), ys[|ys| - 1];
      assert ys == r + [y];
      EnergyIsSpectrum(c, r);
      OutputNext(c, r, y);
      MatchIsOutput(c, r);
      OneMore(c, y, Output(c, r), Output(c, Before(r)), Match(c, r));
    }
  }

  lemma SpectrumLast(c: real, ys: seq<real>)
    ensures Spectrum(c, ys) == if ys == [] then 0.0 else
      var r, y := Before(ys), ys[|ys| - 1];
      Spectrum(c, r) + y * y + 2.0 * y * Match(c, r)
  {
  }

  lemma QuadraticNone(c: real)
    ensures Quadratic(c, 0.0, 0.0) == 0.0
  {
  }

  lemma OneMore(c: real, y: real, p: real, q: real, m: real)
    requires Halves(c, m, p, q)
    ensures Quadratic(c, y + Turn(c, p, q), p) == Quadratic(c, p, q) + y * y + 2.0 * y * m
  {
    var d := c * p - q;
    assert (y + d) * (y + d) == y * y + 2.0 * (y * d) + d * d;
    assert c * ((y + d) * p) == y * (c * p) + d * (c * p);
    assert d * d - d * (c * p) == -(d * q);
    assert d * q == c * (p * q) - q * q;
    assert 2.0 * y * m == y * (2.0 * m) == y * (c * p - 2.0 * q);
  }

  // ------------------------------------------------------- the filters' integers

  /** Samples, each less the rounding error made with it. */
  predicate Rounded(xs: seq<int>, ys: seq<real>) {
    |xs| == |ys| && forall k | 0 <= k < |xs| :: xs[k] as real - 1.0 < ys[k] <= xs[k] as real
  }

  lemma FloorError(c: int, q: int) returns (e: real)
    ensures 0.0 <= e < 1.0 && (c * q / K) as real == (c as real / K as real) * q as real - e
  {
    var r := c * q % K;
    assert c * q == K * (c * q / K) + r;
    e := r as real / K as real;
    assert (c * q) as real == c as real * q as real;
    assert (c * q) as real == K as real * (c * q / K) as real + r as real;
  }

  /** A filter with a fixed coefficient outputs the response to its samples, up to
      an error of less than one in each of them. */
  lemma {:induction false} FilterResponds(c: int, xs: seq<int>) returns (ys: seq<real>)
    ensures Rounded(xs, ys)
    ensures var f := Run(Filter(0, 0, c), 0, xs); var w := c as real / K as real;
            f.c == c && f.q1 as real == Output(w, ys) && f.q2 as real == Output(w, Before(ys))
    decreases |xs|
  {
    hide Output, Turn;
    var w := c as real / K as real;
    OutputNone(w);
    ys := [];
    if xs != [] {
      var m := |xs| - 1;
      var zs := FilterResponds(c, xs[..m]);
      var g := Run(Filter(0, 0, c), 0, xs[..m]);
      var e := FloorError(c, g.q1);
      var y := xs[m] as real - e;
      ys := zs + [y];
      assert Before(ys) == zs;
      OutputNext(w, zs, y);
      StepTurns(g, xs[m], w, e);
    }
  }

  lemma StepTurns(g: Filter, s: int, w: real, e: real)
    requires (g.c * g.q1 / K) as real == w * g.q1 as real - e
    ensures Step(g, 0, s).q1 as real == s as real - e + Turn(w, g.q1 as real, g.q2 as real)
  {
  }

  /** The power as the code rounds it is off by less than one output. */
  lemma PowerIsEnergy(c: int, q1: int, q2: int)
    ensures 0 <= q2 ==> 0 <= Energy(c, q1, q2) - K * WindowPower(q1, q2, c) <= (K - 1) * q2
    ensures q2 <= 0 ==> (K - 1) * q2 <= Energy(c, q1, q2) - K * WindowPower(q1, q2, c) <= 0
  {
    var r := c * (-q1) % K;
    var p := c * (-q1) / K;
    assert c * (-q1) == K * p + r;
    assert K * (q2 * p) == q2 * (c * (-q1)) - q2 * r;
    assert q2 * (c * (-q1)) == -(c * q1 * q2);
    assert Energy(c, q1, q2) - K * WindowPower(q1, q2, c) == q2 * r;
    Bounded(q2, r);
  }

  lemma Bounded(q: int, r: int)
    requires 0 <= r < K
    ensures 0 <= q ==> 0 <= q * r <= (K - 1) * q
    ensures q <= 0 ==> (K - 1) * q <= q * r <= 0
  {
    if 0 <= q {
      Nonneg(q, r);
      Times(r, K - 1, q);
    } else {
      Nonneg(-q, r);
      Times(r, K - 1, -q);
    }
  }

  /** What a window of samples is judged by: for each of the fifteen fixed
      frequencies the energy of the outputs is the spectrum of the samples. */
  lemma WindowSpectrum(i: nat, xs: seq<int>) returns (ys: seq<real>)
    requires i < FILTERS - 1
    ensures Rounded(xs, ys)
    ensures var f := Run(Fresh(i), Decrement(i), xs);
            Energy(f.c, f.q1, f.q2) as real == K as real * Spectrum(Coefficient(i) as real / K as real, ys)
  {
    var c := Coefficient(i);
    ys := FilterResponds(c, xs);
    var f := Run(Fresh(i), Decrement(i), xs);
    EnergyIsSpectrum(c as real / K as real, ys);
    EnergyAsReal(c, f.q1, f.q2);
  }

  lemma EnergyAsReal(c: int, p: int, q: int)
    ensures Energy(c, p, q) as real == K as real * Quadratic(c as real / K as real, p as real, q as real)
  {
    var w := c as real / K as real;
    assert (p * p) as real == p as real * p as real && (q * q) as real == q as real * q as real;
    assert (p * q) as real == p as real * q as real;
    assert (c * (p * q)) as real == c as real * (p * q) as real;
    assert K as real * (w * (p as real * q as real)) == c as real * (p as real * q as real);
  }

  /** The sixteenth filter sweeps: its frequency rises with every sample. */
  lemma SweepCoefficient(xs: seq<int>)
    ensures Run(Fresh(15), Decrement(15), xs).c == 2 * 0xf3b9 - 2 * 0x19 * |xs|
  {
    RunCoefficient(Fresh(15), Decrement(15), xs);
  }
}
