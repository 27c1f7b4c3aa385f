/** The streaming DTMF receiver (kernel/capidtmf.c:396-806): two half-overlapping
    windows fed in portions of at most 32 samples, so that a stream may arrive
    in blocks of any size. */
module DtmfReceiver {
  import opened DtmfFrame
  import opened FilterBank
  import opened Goertzel
  import opened LogLevel
  import opened Power
  import opened Words
  import C = Classifier
  import D = Debounce
  import R = DigitRing

  const WINDOWED := 32
  const IDLE: Byte := 0x00
  const ACTIVE: Byte := 0x01

  class Receiver {
    const tables: Tables
    const ring: R.Ring
    const buffer0: array<Int32>   // the window in its first half
    const buffer: array<Int32>    // the window that completes next
    const coeffs: array<Int32>    // shared table; the last slot is scratch
    var ulaw: bool
    var state: Byte
    var timing: D.Timing
    var det: D.Detector
    var cycleCounter: nat
    var cycleCounter0: int
    var sweep0: Int32
    var sweep: Int32

    ghost var history: seq<Byte>  // all samples since reception was enabled
    ghost var start: D.Detector   // the detector as it was enabled
    ghost var passed: seq<Byte>   // all that was passed to the ring since

    ghost predicate Shape()
      reads this
    {
      && buffer0.Length == buffer.Length == 2 * FILTERS && coeffs.Length == FILTERS
      && buffer0 != buffer && buffer0 != coeffs && buffer != coeffs
      && ring.buffer as object !in {buffer0 as object, buffer as object, coeffs as object}
      && D.Sane(timing, start) && (state == IDLE || state == ACTIVE)
    }

    ghost predicate TableIntact()
      reads coeffs
    {
      coeffs.Length == FILTERS && forall i | 0 <= i < FILTERS - 1 :: coeffs[i] == Coefficient(i)
    }

    /** In the middle of a window: it began `cycleCounter` samples ago and the
        next one half a window later. */
    ghost predicate Running()
      reads this, buffer0, buffer
    {
      && cycleCounter <= |history| && cycleCounter <= N
      && (|history| - cycleCounter) % HALF == 0
      && (cycleCounter == |history| || HALF <= cycleCounter)
      && cycleCounter0 == cycleCounter - HALF
      && tables.Holds(ulaw, buffer[..], sweep, Since(cycleCounter))
      && tables.Holds(ulaw, buffer0[..], sweep0, Since(cycleCounter0))
    }

    /** Between two samples no window has just started. */
    ghost predicate Advanced()
      reads this
    {
      cycleCounter == |history| || HALF < cycleCounter
    }

    ghost function Since(n: int): seq<Byte>
      reads this
      requires n <= |history|
    {
      Last(history, n)
    }

    /** Before the first sample, or just after a window was completed. */
    ghost predicate Between()
      reads this, buffer0
    {
      && cycleCounter == 0
      && (|history| == 0 ==> cycleCounter0 == 0)
      && (|history| != 0 ==> CompletedWindow())
    }

    ghost predicate CompletedWindow()
      reads this, buffer0
    {
      && |history| >= N && |history| % HALF == 0 && cycleCounter0 == HALF
      && tables.Holds(ulaw, buffer0[..], sweep0, Since(HALF))
    }

    /** The detector is what the first `k` decisions on the stream make of it. */
    ghost predicate Followed(k: nat)
      reads this
      requires D.Sane(timing, start)
    {
      && (k == 0 || HALF * (k - 1) + N <= |history|)
      && D.Replay(timing, start, tables.Decisions(ulaw, history, k)) == D.Outcome(det, passed)
    }

    ghost predicate Valid()
      reads this, ring, ring.buffer, buffer0, buffer, coeffs
    {
      && Shape() && TableIntact() && ring.Valid()
      && (if cycleCounter == 0 then Between() else cycleCounter < N && Running() && Advanced())
      && Followed(FrameCount(|history|))
      && (state == IDLE ==> history == [] && det == D.IDLE_DETECTOR && ring.Unread() == [])
    }

    constructor (tables: Tables, ulaw: bool)
      ensures Valid() && state == IDLE && this.ulaw == ulaw && this.tables == tables
      ensures fresh(ring) && fresh(ring.buffer) && fresh(buffer0) && fresh(buffer) && fresh(coeffs)
    {
      this.tables, this.ulaw, state := tables, ulaw, IDLE;
      buffer0, buffer := new Int32[2 * FILTERS], new Int32[2 * FILTERS];
      var c := new Int32[FILTERS];
      for i := 0 to FILTERS
        invariant forall k | 0 <= k < i && k < FILTERS - 1 :: c[k] == Coefficient(k)
      {
        c[i] := Coefficient(i);
      }
      coeffs := c;
      ring := new R.Ring();
      timing, det := D.Timing(1, 2), D.IDLE_DETECTOR;
      cycleCounter, cycleCounter0, sweep0, sweep := 0, 0, 0, 0;
      history, start, passed := [], D.IDLE_DETECTOR, [];
    }

    lemma CountersOf()
      requires Valid()
      ensures Counters(|history|, cycleCounter, cycleCounter0) && (state == IDLE ==> history == [])
    {
      hide Tables.Holds, R.Content, Followed, Shape, TableIntact, R.Ring.Valid;
    }

    /** With a fresh stream all that is left to ask for is the second counter. */
    lemma FreshStream()
      requires Shape() && TableIntact() && ring.Valid() && Followed(0) && state == ACTIVE
      requires history == [] && cycleCounter == 0
      ensures Valid() <==> cycleCounter0 == 0
    {
      hide Tables.Holds, R.Content, Followed, Shape, TableIntact, R.Ring.Valid;
    }

    /** `capidtmf_recv_enable`. The stream starts anew if and only if the receiver
        is idle, or active but without samples or with just half a window of
        them: `cycle_counter0` is kept. */
    method Enable(digitMs: Word, gapMs: Word, pending: Byte)
      requires Valid()
      modifies this
      ensures Valid() <==> old(cycleCounter0) == 0
      ensures Valid() <==> old(state) == IDLE || old(|history|) == 0 || old(|history|) == HALF
      ensures Shape() && TableIntact() && ring.Valid() && Followed(0)
      ensures state == ACTIVE && history == [] && passed == []
      ensures timing == D.FrameTiming(digitMs, gapMs) && start == det == D.StartDetector(pending)
      ensures ulaw == old(ulaw) && cycleCounter == 0 && cycleCounter0 == old(cycleCounter0) && sweep0 == old(sweep0)
    {
      hide Tables.Holds, R.Content, Running, Between, D.FrameTiming, D.Sane, Counters;
      CountersOf();
      NoNextWindow(|history|, cycleCounter, cycleCounter0);
      timing := FrameTimings(digitMs, gapMs);
      D.StartSane(digitMs, gapMs, pending);
      cycleCounter := 0;
      det := if pending < 0x10 then D.Detector(D.LATCHED, 0, pending) else D.Detector(0, 0, C.NO_DIGIT);
      state := ACTIVE;
      history, start, passed := [], det, [];
      FreshStream();
    }

    method FrameTimings(digitMs: Word, gapMs: Word) returns (t: D.Timing)
      ensures t == D.FrameTiming(digitMs, gapMs)
    {
      var minDigit := (digitMs * 8 + D.GRANULARITY / 2) / D.GRANULARITY;
      if minDigit <= 1 {
        minDigit := 1;
      } else {
        minDigit := minDigit - 1;
        if minDigit > 1 {
          minDigit := minDigit - 1;
        }
      }
      var minGap := gapMs * 8 / D.GRANULARITY;
      if minGap <= 2 {
        minGap := 2;
      } else {
        minGap := minGap - 1;
        if minGap > 2 {
          minGap := minGap - 1;
        }
      }
      t := D.Timing(minDigit, minGap);
    }

    /** The first window after that, from a counter that was kept: `w` is what
        its buffer has seen. */
    method StartStaleWindow(ghost w: seq<Byte>)
      requires Shape() && TableIntact() && ring.Valid() && Followed(0) && state == ACTIVE && history == []
      requires cycleCounter == 0 && cycleCounter0 == |w| == HALF && tables.Holds(ulaw, buffer0[..], sweep0, w)
      modifies `cycleCounter, `cycleCounter0, `sweep, `sweep0, `history, buffer, buffer0
      ensures Valid() && history == w
    {
      hide Tables.Holds, R.Content, D.Sane, Tables.Decisions, D.Replay;
      cycleCounter, cycleCounter0 := cycleCounter0, 0;
      sweep, sweep0 := sweep0, SWEEP_START;
      MoveUp();
      tables.HoldsNothing(ulaw, buffer0[..]);
      history := w;
      tables.DecisionsExtend(ulaw, [], w, 0);
      assert [] + w == w;
    }

    /** Enabling again right behind a completed window: the receiver decides as
        if the last half window of the old stream were the first of the new
        one, so already after half a window of new samples. */
    method EnableAgain(digitMs: Word, gapMs: Word, pending: Byte, block: seq<Byte>)
      requires Valid() && state == ACTIVE && cycleCounter == 0 && history != [] && block != []
      modifies this, ring, ring.buffer, buffer0, buffer, coeffs
      ensures Valid() && state == ACTIVE && history == old(Last(history, HALF)) + block
      ensures timing == D.FrameTiming(digitMs, gapMs) && start == D.StartDetector(pending)
      ensures |block| == HALF ==> FrameCount(|history|) == 1 && FrameCount(|block|) == 0
    {
      hide Tables.Holds, R.Content, D.Sane, Valid, Followed, Shape, TableIntact, D.FrameTiming, R.PushAll;
      ghost var w := LastHalf();
      Enable(digitMs, gapMs, pending);
      StartStaleWindow(w);
      RecvBlock(block);
    }

    /** What the next window has seen when one was completed. */
    ghost method LastHalf() returns (w: seq<Byte>)
      requires Valid() && state == ACTIVE && cycleCounter == 0 && history != []
      ensures w == Last(history, HALF) && |w| == HALF == cycleCounter0
      ensures tables.Holds(ulaw, buffer0[..], sweep0, w)
    {
      hide Tables.Holds, R.Content;
      w := Since(HALF);
    }

    /** `capidtmf_recv_disable`: with no other receiver function active the
        state becomes idle and everything is initialised again. */
    method Disable()
      requires Valid()
      modifies this, ring
      ensures Valid() && state == IDLE && ring.Unread() == []
      ensures ulaw == old(ulaw)
    {
      hide Tables.Holds, R.Content, Running, CompletedWindow, Tables.Decisions;
      state := IDLE;
      timing, det := D.Timing(1, 2), D.IDLE_DETECTOR;
      cycleCounter, cycleCounter0 := 0, 0;
      history, start, passed := [], D.IDLE_DETECTOR, [];
      tables.NoDecisions(ulaw);
      ring.Reset();
    }

    /** Weighs the samples `p` at the places after `seen` and feeds them to the
        window kept in `target` and `swept`. */
    method Feed(target: array<Int32>, swept: Int32, p: seq<Byte>, ghost seen: seq<Byte>, pos: nat) returns (swept': Int32)
      requires Shape() && TableIntact() && target in {buffer0, buffer}
      requires pos == |seen| && |seen| + |p| <= N && |p| <= WINDOWED
      requires tables.Holds(ulaw, target[..], swept, seen)
      modifies target, coeffs
      ensures TableIntact() && tables.Holds(ulaw, target[..], swept', seen + p)
    {
      var windowed := new Sample[WINDOWED];
      var i := 0;
      while i < |p|
        invariant 0 <= i <= |p|
        invariant forall j | 0 <= j < i :: windowed[j] == tables.Weigh(ulaw, p[j], pos + j)
        modifies windowed
      {
        windowed[i] := tables.Weigh(ulaw, p[i], pos + i);
        i := i + 1;
      }
      coeffs[FILTERS - 1] := swept;
      tables.HoldsBank(ulaw, target[..], coeffs[..], seen);
      ghost var xs := windowed[..|p|];
      GoertzelLoop(target, coeffs, windowed[..|p|], pos);
      tables.HoldsExtend(ulaw, target[..], coeffs[..], seen, p, xs);
      swept' := coeffs[FILTERS - 1];
    }

    method ClearNext()
      requires buffer0.Length == 2 * FILTERS
      modifies buffer0
      ensures forall k | 0 <= k < 2 * FILTERS :: buffer0[k] == 0
    {
      for i := 0 to 2 * FILTERS
        invariant forall k | 0 <= k < i :: buffer0[k] == 0
      {
        buffer0[i] := 0;
      }
    }

    method MoveUp()
      requires buffer0.Length == buffer.Length == 2 * FILTERS && buffer0 != buffer
      modifies buffer, buffer0
      ensures buffer[..] == old(buffer0[..])
      ensures forall k | 0 <= k < 2 * FILTERS :: buffer0[k] == 0
    {
      for i := 0 to 2 * FILTERS
        invariant forall k | 0 <= k < i :: buffer[k] == old(buffer0[k]) && buffer0[k] == 0
        invariant forall k | i <= k < 2 * FILTERS :: buffer0[k] == old(buffer0[k])
      {
        buffer[i] := buffer0[i];
        buffer0[i] := 0;
      }
    }

    /** The window in its first half becomes the current one, and the next one
        starts half a window later; before the first sample both start afresh. */
    method StartWindow()
      requires Shape() && Between()
      modifies `cycleCounter, `cycleCounter0, `sweep, `sweep0, buffer, buffer0
      ensures Running() && cycleCounter < N
    {
      hide Tables.Holds, D.Sane;
      cycleCounter := cycleCounter0;
      cycleCounter0 := 0;
      if cycleCounter == 0 {
        cycleCounter0 := -HALF;
        sweep0 := SWEEP_START;
        ClearNext();
        tables.HoldsNothing(ulaw, buffer0[..]);
      }
      sweep := sweep0;
      sweep0 := SWEEP_START;
      MoveUp();
      tables.HoldsNothing(ulaw, buffer0[..]);
    }

    /** The next window takes the part of a portion that falls into it. */
    method FeedNext(p: seq<Byte>)
      requires Shape() && TableIntact() && |p| <= WINDOWED
      requires -HALF <= cycleCounter0 <= |history| && cycleCounter0 + |p| <= N
      requires tables.Holds(ulaw, buffer0[..], sweep0, Since(cycleCounter0))
      modifies `cycleCounter0, `sweep0, buffer0, coeffs
      ensures TableIntact() && cycleCounter0 == old(cycleCounter0) + |p|
      ensures tables.Holds(ulaw, buffer0[..], sweep0, Last(history + p, cycleCounter0))
    {
      hide Tables.Holds, D.Sane, Last;
      ghost var seen, goal := Since(cycleCounter0), Last(history + p, cycleCounter0 + |p|);
      LastExtends(history, p, cycleCounter0);
      if cycleCounter0 + |p| > 0 {
        var j := if cycleCounter0 < 0 then -cycleCounter0 else 0;
        assert p[0..] == p;
        assert seen + p[j..] == goal;
        var swept := Feed(buffer0, sweep0, p[j..], seen, cycleCounter0 + j);
        sweep0 := swept;
        assert tables.Holds(ulaw, buffer0[..], sweep0, goal);
      } else {
        assert seen == goal;
      }
      assert tables.Holds(ulaw, buffer0[..], sweep0, goal);
      cycleCounter0 := cycleCounter0 + |p|;
    }

    /** One portion of samples goes to the current window and, as far as it has
        begun, to the next one. */
    method TakePortion(p: seq<Byte>)
      requires Shape() && TableIntact() && Running()
      requires 0 < |p| <= WINDOWED && cycleCounter + |p| <= N
      modifies `cycleCounter, `cycleCounter0, `sweep, `sweep0, `history, buffer, buffer0, coeffs
      ensures TableIntact() && Running()
      ensures history == old(history) + p && cycleCounter == old(cycleCounter) + |p|
    {
      hide Tables.Holds;
      FeedNext(p);
      LastExtends(history, p, cycleCounter);
      sweep := Feed(buffer, sweep, p, Since(cycleCounter), cycleCounter);
      cycleCounter := cycleCounter + |p|;
      history := history + p;
      RunningArithmetic(old(|history|), old(cycleCounter), |p|);
    }

    /** The levels of a completed window. */
    method MeasureWindow(ghost frame: seq<Byte>) returns (levels: seq<Byte>)
      requires Shape() && TableIntact()
      requires |frame| == N && tables.Holds(ulaw, buffer[..], sweep, frame)
      modifies buffer, coeffs
      ensures TableIntact() && levels == tables.FrameLevels(ulaw, frame)
    {
      hide Tables.Holds, Tables.FilterLevel, Tables.FilterAfter, Quantise, WindowPower;
      coeffs[FILTERS - 1] := sweep;
      tables.HoldsBank(ulaw, buffer[..], coeffs[..], frame);
      ghost var b0 := buffer[..];
      WindowOutputs(tables, ulaw, b0, coeffs[..], frame);
      GoertzelResult(buffer, coeffs);
      ghost var b1, c1 := buffer[..], coeffs[..];
      levels := [];
      var i := 0;
      while i < FILTERS
        invariant 0 <= i == |levels| <= FILTERS && buffer[..] == b1 && coeffs[..] == c1
        invariant forall k | 0 <= k < i :: levels[k] == tables.FrameLevels(ulaw, frame)[k]
        modifies {}
      {
        assert Powered(b0, b1, c1, i) && FilterAt(b0, c1, i) == tables.FilterAfter(ulaw, frame, i);
        var lo, hi := AsDword(buffer[i]), AsDword(buffer[i + FILTERS]);
        PowerLevel(tables, ulaw, b0, b1, c1, frame, i);
        levels := levels + [Quantise(lo, hi)];
        i := i + 1;
      }
    }

    /** The debounce machine on its fields, and the digit ring behind it. */
    method Debounce(dec: C.Decision)
      requires ring.Valid()
      modifies `det, `passed, ring, ring.buffer
      ensures ring.Valid() && old(passed) <= passed
      ensures (det, passed[|old(passed)|..]) == D.Advance(timing, old(det), dec)
      ensures ring.Unread() == R.PushAll(old(ring.Unread()), passed[|old(passed)|..])
    {
      var on, off, value := det.on, det.off, det.value;
      var emitted: seq<Byte> := [];
      if dec.result == C.NO_DIGIT {
        if on != 0 {
          off := (off + 1) % 0x1_0000;
          if (if dec.likely == value then off - 1 else off) >= timing.minGap {
            if on == D.LATCHED {
              emitted := [D.END_MARK];
              ring.IndicateDigit(D.END_MARK);
            }
            on := 0;
            off := 0;
          }
        } else if off != 0 {
          off := off - 1;
        }
      } else if on == 0 && off != 0 {
        off := off - 1;
      } else {
        var n := off;
        if on != 0 && dec.result != value {
          on := 0;
          n := 0;
        }
        value := dec.result;
        off := 0;
        if on != D.LATCHED {
          on := (on + n + 1) % 0x1_0000;
          if on >= timing.minDigit {
            on := D.LATCHED;
            emitted := [dec.result];
            ring.IndicateDigit(dec.result);
          }
        }
      }
      det := D.Detector(on, off, value);
      ghost var before := passed;
      passed := passed + emitted;
      assert passed[|before|..] == emitted;
    }

    /** The decision on a completed window. */
    method FinishWindow()
      requires Shape() && TableIntact() && ring.Valid() && Running() && cycleCounter == N
      requires Followed((|history| - N) / HALF)
      modifies `cycleCounter, `det, `passed, ring, ring.buffer, buffer, coeffs
      ensures TableIntact() && ring.Valid() && Between() && Followed(FrameCount(|history|))
      ensures old(passed) <= passed
      ensures ring.Unread() == R.PushAll(old(ring.Unread()), passed[|old(passed)|..])
    {
      hide Tables.Holds, Tables.Decisions, Tables.FrameLevels, D.Replay, D.Advance, C.DecisionOf, C.Correct, R.PushAll, R.Content;
      ghost var k := (|history| - N) / HALF;
      ghost var frame := Since(N);
      LastFrame(history, k);
      var levels := MeasureWindow(frame);
      var dec := C.Classify(levels);
      ghost var o := D.Outcome(det, passed);
      Debounce(dec);
      assert passed == o.passed + passed[|o.passed|..];
      tables.DecisionsNext(ulaw, history, k, dec);
      ReplayNext(timing, start, tables.Decisions(ulaw, history, k), dec, o);
      cycleCounter := 0;
    }

    /** One turn of the block loop: as many samples as fit the current window
        and the portion size, and the decision if that completes the window. */
    method TakeSome(rest: seq<Byte>) returns (n: nat)
      requires Valid() && state == ACTIVE && rest != []
      modifies `cycleCounter, `cycleCounter0, `sweep, `sweep0, `history, `det, `passed,
        ring, ring.buffer, buffer0, buffer, coeffs
      ensures 0 < n <= |rest| && Valid()
      ensures history == old(history) + rest[..n] && old(passed) <= passed
      ensures ring.Unread() == R.PushAll(old(ring.Unread()), passed[|old(passed)|..])
    {
      hide Tables.Holds, Tables.Decisions, D.Replay, D.Advance, D.Sane, R.PushAll, R.Content, FrameCount, Last;
      ghost var k := FrameCount(|history|);
      if cycleCounter == 0 {
        StartWindow();
      }
      n := N - cycleCounter;
      if n > |rest| {
        n := |rest|;
      }
      if n > WINDOWED {
        n := WINDOWED;
      }
      ghost var h, c := history, cycleCounter;
      TakePortion(rest[..n]);
      tables.DecisionsExtend(ulaw, h, rest[..n], k);
      TakenSoFar(|h|, c, n, k);
      assert Followed(k);
      R.PushNone(ring.Unread());
      assert passed[|passed|..] == [];
      if cycleCounter == N {
        FinishWindow();
      }
    }

    /** A block of any length: the stream grows by it, and everything the
        receiver has passed on is again what the whole stream calls for. */
    method RecvBlock(block: seq<Byte>)
      requires Valid()
      modifies this, ring, ring.buffer, buffer0, buffer, coeffs
      ensures Valid() && state == old(state) && timing == old(timing) && start == old(start) && ulaw == old(ulaw)
      ensures history == if state == ACTIVE then old(history) + block else old(history)
      ensures old(passed) <= passed
      ensures ring.Unread() == R.PushAll(old(ring.Unread()), passed[|old(passed)|..])
    {
      hide Tables.Holds, Tables.Decisions, D.Replay, D.Sane, Running, Between, Followed, R.PushAll, R.Content;
      ghost var q0, p0 := ring.Unread(), passed;
      R.PushNone(q0);
      assert passed[|p0|..] == [];
      if state == ACTIVE {
        var sampleNumber := 0;
        assert block[..0] == [];
        while sampleNumber < |block|
          invariant 0 <= sampleNumber <= |block|
          invariant Valid() && state == ACTIVE && timing == old(timing) && start == old(start) && ulaw == old(ulaw)
          invariant history == old(history) + block[..sampleNumber]
          invariant p0 <= passed
          invariant ring.Unread() == R.PushAll(q0, passed[|p0|..])
        {
          ghost var p1 := passed;
          var n := TakeSome(block[sampleNumber..]);
          assert block[..sampleNumber + n] == block[..sampleNumber] + block[sampleNumber..][..n];
          assert passed[|p0|..] == p1[|p0|..] + passed[|p1|..];
          R.PushAllConcat(q0, p1[|p0|..], passed[|p1|..]);
          sampleNumber := sampleNumber + n;
        }
        assert block[..sampleNumber] == block;
      }
    }
  }

  /** Enabling again in the first half of the first window: the counter that
      becomes the current one is negative, as a 16-bit word it lies far behind
      the window table, and a full portion is weighed from there. */
  lemma EnabledTooEarly(r: Receiver)
    requires r.Valid() && r.state == ACTIVE && 0 < |r.history| < HALF
    ensures r.cycleCounter0 == |r.history| - HALF < 0
    ensures var cycle := r.cycleCounter0 % 0x1_0000;
            0x1_0000 - HALF < cycle < 0x1_0000 && WINDOWED < (N - cycle) % 0x1_0000
  {
    r.CountersOf();
  }

  lemma TakenSoFar(total: nat, cycle: nat, n: nat, k: nat)
    requires cycle < N && cycle + n <= N && cycle <= total && (total - cycle) % HALF == 0
    requires cycle == total || HALF <= cycle
    requires k == FrameCount(total)
    ensures k == (total - cycle) / HALF
    ensures cycle + n < N ==> FrameCount(total + n) == k
  {
  }

  /** The two counters between blocks, after `h` samples. */
  predicate Counters(h: nat, c: nat, c0: int) {
    if c == 0 then if h == 0 then c0 == 0 else N <= h && h % HALF == 0 && c0 == HALF
    else c <= h && c < N && (h - c) % HALF == 0 && (c == h || HALF < c) && c0 == c - HALF
  }

  lemma CountersUnique(h: nat, c: nat, c0: int, d: nat, d0: int)
    requires Counters(h, c, c0) && Counters(h, d, d0)
    ensures c == d && c0 == d0 <= h
  {
  }

  /** When no next window has begun. */
  lemma NoNextWindow(h: nat, c: nat, c0: int)
    requires Counters(h, c, c0)
    ensures c0 == 0 <==> h == 0 || h == HALF
  {
  }

  /** How a stream was cut into blocks leaves no trace: two receivers enabled
      alike that have seen the same samples are in the same state, the detector
      and what it passed on, the counters, and each window that has begun. */
  lemma CutsLeaveNoTrace(r: Receiver, r': Receiver)
    requires r.Valid() && r'.Valid() && r.tables == r'.tables && r.ulaw == r'.ulaw
    requires r.timing == r'.timing && r.start == r'.start && r.history == r'.history
    ensures r.det == r'.det && r.passed == r'.passed
    ensures r.cycleCounter == r'.cycleCounter && r.cycleCounter0 == r'.cycleCounter0
    ensures r.cycleCounter != 0 ==> r.buffer[..] == r'.buffer[..] && r.sweep == r'.sweep
    ensures r.history != [] ==> r.buffer0[..] == r'.buffer0[..] && r.sweep0 == r'.sweep0
  {
    hide Tables.Holds, R.Content, Tables.Decisions, D.Replay;
    r.CountersOf();
    r'.CountersOf();
    CountersUnique(|r.history|, r.cycleCounter, r.cycleCounter0, r'.cycleCounter, r'.cycleCounter0);
    if r.cycleCounter != 0 {
      r.tables.HoldsUnique(r.ulaw, r.buffer[..], r.sweep, r'.buffer[..], r'.sweep, r.Since(r.cycleCounter));
    }
    if r.history != [] {
      r.tables.HoldsUnique(r.ulaw, r.buffer0[..], r.sweep0, r'.buffer0[..], r'.sweep0, r.Since(r.cycleCounter0));
    }
  }

  /** In every reachable receiver an end mark directly follows a digit, the
      digit pending when reception was enabled included. */
  lemma MarksFollowDigits(r: Receiver, pending: Byte)
    requires r.Valid() && r.start == D.StartDetector(pending)
    ensures D.MarksFollowDigits(D.Held(r.start) + r.passed)
  {
    var decs := r.tables.Decisions(r.ulaw, r.history, FrameCount(|r.history|));
    forall dec | dec in decs
      ensures D.FromClassifier(dec)
    {
      var j :| 0 <= j < |decs| && decs[j] == dec;
      r.tables.DecisionsAt(r.ulaw, r.history, |decs|, j);
      C.DecisionIsDigit(r.tables.FrameLevels(r.ulaw, FrameOf(r.history, j)));
    }
    D.MarksAfterDigits(r.timing, r.start, decs);
  }

  lemma ReplayNext(t: D.Timing, d: D.Detector, decs: seq<C.Decision>, dec: C.Decision, o: D.Outcome)
    requires D.Sane(t, d) && o == D.Replay(t, d, decs)
    ensures D.Replay(t, d, decs + [dec])
         == D.Outcome(D.Advance(t, o.det, dec).0, o.passed + D.Advance(t, o.det, dec).1)
  {
    assert (decs + [dec])[..|decs + [dec]| - 1] == decs;
  }

  lemma LastFrame(h: seq<Byte>, k: nat)
    requires N <= |h| && (|h| - N) % HALF == 0 && k == (|h| - N) / HALF
    ensures Last(h, N) == FrameOf(h, k) && HALF * k + N == |h| && FrameCount(|h|) == k + 1
    ensures |h| % HALF == 0
  {
  }

  lemma WindowOutputs(tables: Tables, mu: bool, buffer: seq<Int32>, coeffs: seq<Int32>, frame: seq<Byte>)
    requires |frame| == N && |buffer| == 2 * FILTERS && |coeffs| == FILTERS
    requires forall i | 0 <= i < FILTERS :: FilterAt(buffer, coeffs, i) == tables.FilterAfter(mu, frame, i)
    ensures SmallOutputs(buffer)
    ensures forall i | 0 <= i < FILTERS :: 0 <= coeffs[i] < 2 * K
  {
    forall k | 0 <= k < 2 * FILTERS
      ensures -0x1000_0000 < buffer[k] < 0x1000_0000
      ensures k < FILTERS ==> 0 <= coeffs[k] < 2 * K
    {
      var i := if k < FILTERS then k else k - FILTERS;
      assert FilterAt(buffer, coeffs, i) == tables.FilterAfter(mu, frame, i);
      tables.FramePower(mu, frame, i);
    }
  }

  lemma PowerLevel(tables: Tables, mu: bool, before: seq<Int32>, buffer: seq<Int32>, coeffs: seq<Int32>,
                   frame: seq<Byte>, i: nat)
    requires |frame| == N && |before| == |buffer| == 2 * FILTERS && |coeffs| == FILTERS && i < FILTERS
    requires FilterAt(before, coeffs, i) == tables.FilterAfter(mu, frame, i)
    requires Powered(before, buffer, coeffs, i)
    ensures Quantise(AsDword(buffer[i]), AsDword(buffer[i + FILTERS])) == tables.FilterLevel(mu, frame, i)
  {
    tables.FramePower(mu, frame, i);
    var f := tables.FilterAfter(mu, frame, i);
    EvenCoefficient(f.c);
    HalvesLevel(AsDword(buffer[i]), buffer[i + FILTERS], WindowPower(f.q1, f.q2, f.c));
  }

  lemma EvenCoefficient(c: int)
    requires c % 2 == 0
    ensures c / 2 * 2 == c
  {
  }

  lemma HalvesLevel(lo: Dword, hi: Int32, p: int)
    requires 0 <= hi && hi * 0x1_0000_0000 + lo == p < 0x8000_0000 * 0x1_0000_0000
    ensures Quantise(lo, AsDword(hi)) == Level(p)
  {
    hide Quantise, Level;
    QuantiseIsLevel(lo, hi);
  }

  /** The last `n` elements; none if `n` is not positive. */
  function Last(h: seq<Byte>, n: int): seq<Byte>
    requires n <= |h|
  {
    if n <= 0 then [] else h[|h| - n..]
  }

  lemma LastExtends(h: seq<Byte>, p: seq<Byte>, n: int)
    requires n <= |h|
    ensures Last(h + p, n + |p|) ==
      if n + |p| <= 0 then [] else if n < 0 then p[-n..] else Last(h, n) + p
    ensures 0 < n + |p| && n < 0 ==> Last(h + p, n + |p|) == Last(h, n) + p[-n..]
    ensures n <= 0 ==> Last(h, n) == []
    ensures 0 < n ==> |Last(h, n)| == n
  {
  }

  lemma RunningArithmetic(total: nat, cycle: nat, more: nat)
    requires cycle <= total && (total - cycle) % HALF == 0 && (cycle == total || HALF <= cycle)
    ensures (total + more - (cycle + more)) % HALF == 0
    ensures cycle + more == total + more || HALF <= cycle + more
  {
  }
}
