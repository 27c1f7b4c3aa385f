/** The per-frame view of the DTMF receiver: what one window of 160 samples
    decides, and what a whole stream decides frame by frame. */
module DtmfFrame {
  import opened Arith
  import opened FilterBank
  import opened Goertzel
  import opened LogLevel
  import opened Power
  import opened Words
  import C = Classifier
  import D = Debounce

  const HALF := 80   // a new window starts every half window

  type Pcm = x: int | -32256 <= x <= 32256
  type WindowValue = x: int | -32766 <= x <= 32766

  /** The G.711 expansions and the window, known by their ranges only. */
  datatype Tables = Tables(alaw: Byte -> Pcm, ulaw: Byte -> Pcm, window: nat -> WindowValue)
  {
    function Expand(mu: bool, b: Byte): Pcm {
      if mu then ulaw(b) else alaw(b)
    }

    /** Sample `b` at place `pos` of a window: the product shifted right by 15. */
    function Weigh(mu: bool, b: Byte, pos: nat): Sample {
      WeighFits(Expand(mu, b), window(pos));
      Expand(mu, b) * window(pos) / 0x8000
    }

    function WeighAll(mu: bool, frame: seq<Byte>): (xs: seq<Sample>)
      ensures |xs| == |frame|
    {
      if frame == [] then []
      else WeighAll(mu, frame[..|frame| - 1]) + [Weigh(mu, frame[|frame| - 1], |frame| - 1)]
    }

    function FilterAfter(mu: bool, frame: seq<Byte>, i: nat): Filter
      requires i < FILTERS
    {
      Run(Fresh(i), Decrement(i), WeighAll(mu, frame))
    }

    function FilterLevel(mu: bool, frame: seq<Byte>, i: nat): Byte
      requires i < FILTERS && |frame| == N
    {
      var f := FilterAfter(mu, frame, i);
      FramePower(mu, frame, i);
      LevelRange(WindowPower(f.q1, f.q2, f.c));
      Level(WindowPower(f.q1, f.q2, f.c))
    }

    /** A full window leaves every filter within 2^25, so its power has 63 bits. */
    lemma FramePower(mu: bool, frame: seq<Byte>, i: nat)
      requires i < FILTERS && |frame| <= N
      ensures var f := FilterAfter(mu, frame, i);
        && -0x200_0000 < f.q1 < 0x200_0000 && -0x200_0000 < f.q2 < 0x200_0000
        && 0 <= f.c < 2 * K && f.c % 2 == 0
        && 0 <= WindowPower(f.q1, f.q2, f.c) < 0x8000_0000 * 0x1_0000_0000
    {
      var xs := WeighAll(mu, frame);
      WindowBound(i, xs);
      RunCoefficient(Fresh(i), Decrement(i), xs);
      PowerRange(Run(Fresh(i), Decrement(i), xs));
    }

    function FrameLevels(mu: bool, frame: seq<Byte>): (levels: seq<Byte>)
      requires |frame| == N
      ensures |levels| == FILTERS
    {
      seq(FILTERS, i requires 0 <= i < FILTERS => FilterLevel(mu, frame, i))
    }

    ghost function FrameDecision(mu: bool, frame: seq<Byte>): C.Decision
      requires |frame| == N
    {
      C.DecisionOf(FrameLevels(mu, frame))
    }

    /** Decision k of a stream is that of samples [80k, 80k+160) alone. */
    ghost function Decisions(mu: bool, stream: seq<Byte>, k: nat): (decs: seq<C.Decision>)
      requires k == 0 || HALF * (k - 1) + N <= |stream|
      ensures |decs| == k
    {
      if k == 0 then [] else Decisions(mu, stream, k - 1) + [FrameDecision(mu, FrameOf(stream, k - 1))]
    }

    lemma {:induction false} DecisionsAt(mu: bool, stream: seq<Byte>, k: nat, j: nat)
      requires j < k && HALF * (k - 1) + N <= |stream|
      ensures Decisions(mu, stream, k)[j] == FrameDecision(mu, FrameOf(stream, j))
      decreases k
    {
      hide FrameDecision;
      if j < k - 1 {
        DecisionsAt(mu, stream, k - 1, j);
      }
    }

    lemma DecisionsNext(mu: bool, stream: seq<Byte>, k: nat, dec: C.Decision)
      requires HALF * k + N <= |stream| && dec == FrameDecision(mu, FrameOf(stream, k))
      ensures Decisions(mu, stream, k + 1) == Decisions(mu, stream, k) + [dec]
    {
    }

    /** A decision sees its own 160 samples and nothing else of the stream. */
    lemma DecisionIsLocal(mu: bool, stream: seq<Byte>, stream': seq<Byte>, k: nat, k': nat, j: nat)
      requires j < k && HALF * (k - 1) + N <= |stream|
      requires j < k' && HALF * (k' - 1) + N <= |stream'|
      requires stream[HALF * j..HALF * j + N] == stream'[HALF * j..HALF * j + N]
      ensures Decisions(mu, stream, k)[j] == Decisions(mu, stream', k')[j]
    {
      DecisionsAt(mu, stream, k, j);
      DecisionsAt(mu, stream', k', j);
    }

    /** Later samples change no earlier decision. */
    lemma {:induction false} DecisionsExtend(mu: bool, stream: seq<Byte>, more: seq<Byte>, k: nat)
      requires k == 0 || HALF * (k - 1) + N <= |stream|
      ensures Decisions(mu, stream + more, k) == Decisions(mu, stream, k)
      decreases k
    {
      hide FrameDecision, FrameOf;
      if k != 0 {
        DecisionsExtend(mu, stream, more, k - 1);
        FrameOfExtend(stream, more, k - 1);
      }
    }

    lemma NoDecisions(mu: bool)
      ensures Decisions(mu, [], 0) == []
    {
    }

    function FiltersAfter(mu: bool, seen: seq<Byte>): seq<Filter> {
      seq(FILTERS, i requires 0 <= i < FILTERS => FilterAfter(mu, seen, i))
    }

    /** The filters of a window that has seen `seen`, as laid out in the buffer
        with the sweeping coefficient kept beside it. */
    ghost predicate Holds(mu: bool, buffer: seq<int>, sweep: int, seen: seq<Byte>) {
      |buffer| == 2 * FILTERS && FiltersOf(buffer, sweep) == FiltersAfter(mu, seen)
    }

    lemma HoldsBank(mu: bool, buffer: seq<int>, coeffs: seq<int>, seen: seq<Byte>)
      requires |seen| <= N && |coeffs| == FILTERS
      requires forall i | 0 <= i < FILTERS - 1 :: coeffs[i] == Coefficient(i)
      requires Holds(mu, buffer, coeffs[FILTERS - 1], seen)
      ensures Bank(buffer, coeffs, |seen|)
      ensures forall i | 0 <= i < FILTERS :: FilterAt(buffer, coeffs, i) == FilterAfter(mu, seen, i)
    {
      forall i | 0 <= i < FILTERS
        ensures FilterAt(buffer, coeffs, i) == FilterAfter(mu, seen, i)
        ensures BankFilter(FilterAt(buffer, coeffs, i), i, |seen|)
      {
        assert FiltersOf(buffer, coeffs[FILTERS - 1])[i] == FiltersAfter(mu, seen)[i];
        RunBank(Fresh(i), i, 0, WeighAll(mu, seen));
      }
    }

    /** Feeding the weighted samples of `p` extends what the window has seen. */
    lemma HoldsExtend(mu: bool, buffer: seq<int>, coeffs: seq<int>, seen: seq<Byte>, p: seq<Byte>, xs: seq<Sample>)
      requires |buffer| == 2 * FILTERS && |coeffs| == FILTERS && |xs| == |p|
      requires forall j | 0 <= j < |p| :: xs[j] == Weigh(mu, p[j], |seen| + j)
      requires forall i | 0 <= i < FILTERS ::
        FilterAt(buffer, coeffs, i) == Run(FilterAfter(mu, seen, i), Decrement(i), xs)
      ensures Holds(mu, buffer, coeffs[FILTERS - 1], seen + p)
      ensures forall i | 0 <= i < FILTERS - 1 :: coeffs[i] == Coefficient(i)
    {
      WeighAllConcat(mu, seen, p, xs);
      forall i | 0 <= i < FILTERS
        ensures FilterAt(buffer, coeffs, i) == FilterAfter(mu, seen + p, i)
        ensures i < FILTERS - 1 ==> coeffs[i] == Coefficient(i)
      {
        RunConcat(Fresh(i), Decrement(i), WeighAll(mu, seen), xs);
        RunCoefficient(Fresh(i), Decrement(i), WeighAll(mu, seen + p));
      }
    }

    /** A window that has seen nothing is all zero. */
    lemma HoldsNothing(mu: bool, buffer: seq<int>)
      requires |buffer| == 2 * FILTERS && forall k | 0 <= k < 2 * FILTERS :: buffer[k] == 0
      ensures Holds(mu, buffer, SWEEP_START, [])
    {
      forall i | 0 <= i < FILTERS
        ensures FiltersOf(buffer, SWEEP_START)[i] == FiltersAfter(mu, [])[i]
      {
      }
    }

    /** What a window has seen determines its buffer and its coefficient. */
    lemma HoldsUnique(mu: bool, b: seq<int>, c: int, b': seq<int>, c': int, seen: seq<Byte>)
      requires Holds(mu, b, c, seen) && Holds(mu, b', c', seen)
      ensures b == b' && c == c'
    {
      hide FilterAfter;
      var fs := FiltersOf(b, c);
      assert fs == FiltersOf(b', c');
      assert fs[FILTERS - 1].c == c == c';
      forall k | 0 <= k < 2 * FILTERS
        ensures b[k] == b'[k]
      {
        var i := if k < FILTERS then k else k - FILTERS;
        assert fs[i].q1 == b[i] == b'[i] && fs[i].q2 == b[i + FILTERS] == b'[i + FILTERS];
      }
    }

    lemma WeighAllConcat(mu: bool, frame: seq<Byte>, more: seq<Byte>, xs: seq<Sample>)
      requires |xs| == |more|
      requires forall j | 0 <= j < |more| :: xs[j] == Weigh(mu, more[j], |frame| + j)
      ensures WeighAll(mu, frame + more) == WeighAll(mu, frame) + xs
      decreases |more|
    {
      if more == [] {
        assert frame + more == frame;
      } else {
        var m := |more| - 1;
        assert (frame + more)[..|frame + more| - 1] == frame + more[..m];
        WeighAllConcat(mu, frame, more[..m], xs[..m]);
        assert xs == xs[..m] + [xs[m]];
      }
    }
  }

  /** The filters laid out in a buffer, the sweeping coefficient kept apart. */
  function FiltersOf(buffer: seq<int>, sweep: int): seq<Filter>
    requires |buffer| == 2 * FILTERS
  {
    seq(FILTERS, i requires 0 <= i < FILTERS =>
      Filter(buffer[i], buffer[i + FILTERS], if i == FILTERS - 1 then sweep else Coefficient(i)))
  }

  function FrameOf(stream: seq<Byte>, k: nat): (frame: seq<Byte>)
    requires HALF * k + N <= |stream|
    ensures |frame| == N
  {
    stream[HALF * k..HALF * k + N]
  }

  lemma FrameOfExtend(stream: seq<Byte>, more: seq<Byte>, k: nat)
    requires HALF * k + N <= |stream|
    ensures FrameOf(stream + more, k) == FrameOf(stream, k)
  {
  }

  lemma PowerRange(f: Filter)
    requires -0x200_0000 < f.q1 < 0x200_0000 && -0x200_0000 < f.q2 < 0x200_0000 && 0 <= f.c < 2 * K
    ensures 0 <= WindowPower(f.q1, f.q2, f.c) < 0x8000_0000 * 0x1_0000_0000
  {
    PowerNonnegative(f.q1, f.q2, f.c);
    PowerUpperBound(f.q1, f.q2, f.c);
  }

  lemma WeighFits(p: int, w: int)
    requires -32256 <= p <= 32256 && -32766 <= w <= 32766
    ensures -B < p * w / 0x8000 < B
  {
    TimesAbs(p, w, 32256, 32766);
    TimesAbs(-p, w, 32256, 32766);
    assert (-p) * w == -(p * w);
  }

  lemma PowerUpperBound(q1: int, q2: int, c: int)
    requires -0x200_0000 < q1 < 0x200_0000 && -0x200_0000 < q2 < 0x200_0000 && 0 <= c < 2 * K
    ensures WindowPower(q1, q2, c) < 0x8000_0000 * 0x1_0000_0000
  {
    var p := c * (-q1) / K;
    TimesAbs(c, -q1, 2 * K, 0x200_0000);
    TimesAbs(-c, -q1, 2 * K, 0x200_0000);
    assert (-c) * (-q1) == -(c * (-q1));
    TimesAbs(q2, p, 0x200_0000, 0x400_0000);
    TimesAbs(q1, q1, 0x200_0000, 0x200_0000);
    TimesAbs(q2, q2, 0x200_0000, 0x200_0000);
  }

  /** Complete windows among the first `n` samples. */
  function FrameCount(n: nat): (k: nat)
    ensures k == 0 || HALF * (k - 1) + N <= n
    ensures n < HALF * k + N
  {
    if n < N then 0 else n / HALF - 1
  }
}
