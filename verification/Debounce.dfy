/** The debounce machine: how a run of per-frame decisions becomes reported
    digits and end-of-digit marks (kernel/capidtmf.c:413-462, 753-801). */
module Debounce {
  import opened Classifier
  import opened Words

  const LATCHED: Word := 0xffff
  const END_MARK: Byte := 0x7f
  const GRANULARITY := 80

  datatype Timing = Timing(minDigit: Word, minGap: Word)
  datatype Detector = Detector(on: Word, off: Word, value: Byte)

  const IDLE_DETECTOR := Detector(0, 0, NO_DIGIT)

  /** Durations in milliseconds become frame counts, less the frames that the
      window overlap already accounts for. */
  function FrameTiming(digitMs: Word, gapMs: Word): (t: Timing)
    ensures 1 <= t.minDigit <= 6552 && 2 <= t.minGap <= 6551
  {
    Timing(Shorten((digitMs * 8 + GRANULARITY / 2) / GRANULARITY, 1), Shorten(gapMs * 8 / GRANULARITY, 2))
  }

  function Shorten(frames: nat, least: nat): (n: nat)
    ensures least <= n && (n == least || n == frames - 2)
  {
    if frames <= least + 1 then least else frames - 2
  }

  /** The frames in milliseconds: a frame begins every ten, and two less count
      than the duration has; the digit's duration is rounded, the gap's cut. */
  lemma Durations(digitMs: Word, gapMs: Word)
    ensures var t := FrameTiming(digitMs, gapMs);
      && (if digitMs < 35 then t.minDigit == 1 else 10 * (t.minDigit + 2) - 5 <= digitMs < 10 * (t.minDigit + 2) + 5)
      && (if gapMs < 50 then t.minGap == 2 else 10 * (t.minGap + 2) <= gapMs < 10 * (t.minGap + 2) + 10)
  {
  }

  function StartDetector(pending: Byte): Detector {
    if pending < 0x10 then Detector(LATCHED, 0, pending) else IDLE_DETECTOR
  }

  /** One frame: the new detector and what is passed on to the digit ring.
      The counters are 16-bit words and would wrap. */
  function Advance(t: Timing, d: Detector, dec: Decision): (Detector, seq<Byte>) {
    if dec.result == NO_DIGIT then
      if d.on != 0 then
        var off := (d.off + 1) % 0x1_0000;
        if (if dec.likely == d.value then off - 1 else off) >= t.minGap then
          (Detector(0, 0, d.value), if d.on == LATCHED then [END_MARK] else [])
        else
          (Detector(d.on, off, d.value), [])
      else
        (Detector(d.on, if d.off != 0 then d.off - 1 else 0, d.value), [])
    else if d.on == 0 && d.off != 0 then
      (Detector(d.on, d.off - 1, d.value), [])
    else
      var changed := d.on != 0 && dec.result != d.value;
      var on := if changed then 0 else d.on;
      var n := if changed then 0 else d.off;
      if on == LATCHED then
        (Detector(on, 0, dec.result), [])
      else
        var on' := (on + n + 1) % 0x1_0000;
        if on' >= t.minDigit then (Detector(LATCHED, 0, dec.result), [dec.result])
        else (Detector(on', 0, dec.result), [])
  }

  /** What holds of every reachable detector: it rests completely, and while it
      counts it is below its threshold, far from the latch value. */
  predicate Sane(t: Timing, d: Detector) {
    && 1 <= t.minDigit <= 6552 && 2 <= t.minGap <= 6551
    && (d.on == 0 ==> d.off == 0)
    && (d.on == LATCHED || d.on < t.minDigit)
    && d.off <= t.minGap
  }

  predicate FromClassifier(dec: Decision) {
    dec.result == NO_DIGIT || dec.result < 16
  }

  lemma StartSane(digitMs: Word, gapMs: Word, pending: Byte)
    ensures Sane(FrameTiming(digitMs, gapMs), StartDetector(pending))
  {
  }

  lemma AdvanceSane(t: Timing, d: Detector, dec: Decision)
    requires Sane(t, d)
    ensures Sane(t, Advance(t, d, dec).0)
    ensures d.off + 1 < LATCHED
    ensures d.on != LATCHED ==> d.on + d.off + 1 < LATCHED
  {
  }

  // ----------------------------------------------------------- whole histories

  datatype Outcome = Outcome(det: Detector, passed: seq<Byte>)

  /** The machine over a whole sequence of decisions. */
  function Replay(t: Timing, d: Detector, decs: seq<Decision>): (o: Outcome)
    requires Sane(t, d)
    ensures Sane(t, o.det)
    decreases |decs|
  {
    if decs == [] then Outcome(d, [])
    else
      var o := Replay(t, d, decs[..|decs| - 1]);
      AdvanceSane(t, o.det, decs[|decs| - 1]);
      var (d', out) := Advance(t, o.det, decs[|decs| - 1]);
      Outcome(d', o.passed + out)
  }

  /** Every end mark directly follows a digit. */
  predicate MarksFollowDigits(s: seq<Byte>) {
    forall i | 0 <= i < |s| && s[i] == END_MARK :: 0 < i && s[i - 1] < 16
  }

  /** The digit still held when reception starts, if any. */
  function Held(d: Detector): seq<Byte> {
    if d.on == LATCHED then [d.value] else []
  }

  /** In every history the end marks follow digits; a digit pending at the start
      counts as the digit before the first mark.  The detector is latched only
      while the last thing passed on is the digit it holds. */
  lemma {:induction false} MarksAfterDigits(t: Timing, d: Detector, decs: seq<Decision>)
    requires Sane(t, d) && (d.on == LATCHED ==> d.value < 16)
    requires forall dec | dec in decs :: FromClassifier(dec)
    ensures var o := Replay(t, d, decs);
      && MarksFollowDigits(Held(d) + o.passed)
      && (o.det.on == LATCHED ==>
            Held(d) + o.passed != [] && (Held(d) + o.passed)[|Held(d) + o.passed| - 1] == o.det.value < 16)
    decreases |decs|
  {
    hide Advance, FromClassifier, Sane;
    if decs != [] {
      var last := |decs| - 1;
      MarksAfterDigits(t, d, decs[..last]);
      var o := Replay(t, d, decs[..last]);
      assert decs[last] in decs;
      MarkAfterDigit(t, o.det, decs[last], Held(d) + o.passed);
      var out := Advance(t, o.det, decs[last]).1;
      assert Held(d) + (o.passed + out) == (Held(d) + o.passed) + out;
    }
  }

  /** One frame more, behind what was passed before. */
  lemma MarkAfterDigit(t: Timing, d: Detector, dec: Decision, s: seq<Byte>)
    requires Sane(t, d) && FromClassifier(dec) && MarksFollowDigits(s)
    requires d.on == LATCHED ==> s != [] && s[|s| - 1] == d.value < 16
    ensures var (d', out) := Advance(t, d, dec);
      && MarksFollowDigits(s + out)
      && (d'.on == LATCHED ==> s + out != [] && (s + out)[|s + out| - 1] == d'.value < 16)
  {
    assert s + [] == s;
  }

  lemma {:induction false} ReplayConcat(t: Timing, d: Detector, a: seq<Decision>, b: seq<Decision>)
    requires Sane(t, d)
    ensures var o := Replay(t, d, a); var o' := Replay(t, o.det, b);
      Replay(t, d, a + b) == Outcome(o'.det, o.passed + o'.passed)
    decreases |b|
  {
    hide Advance, Sane;
    var o := Replay(t, d, a);
    if b == [] {
      assert a + b == a;
      assert o.passed + [] == o.passed;
    } else {
      var m := |b| - 1;
      assert (a + b)[..|a + b| - 1] == a + b[..m];
      ReplayConcat(t, d, a, b[..m]);
      var o1 := Replay(t, o.det, b[..m]);
      var out := Advance(t, o1.det, b[m]).1;
      assert (o.passed + o1.passed) + out == o.passed + (o1.passed + out);
    }
  }

  function Frames(v: Byte, n: nat): seq<Decision> {
    seq(n, _ => Decision(v, v))
  }

  lemma FramesLast(v: Byte, n: nat)
    requires 0 < n
    ensures Frames(v, n)[..n - 1] == Frames(v, n - 1) && Frames(v, n)[n - 1] == Decision(v, v)
    ensures n == 1 ==> Frames(v, n)[..n - 1] == []
  {
  }

  /** The frames of the digit `v` that a detector has counted: a gap shorter than
      it takes to end a digit counts as part of it, another digit as nothing. */
  function Counted(d: Detector, v: Byte): nat {
    if d.on == 0 || d.value != v then 0 else d.on + d.off
  }

  /** What a steady tone makes of the detector. */
  function Toned(t: Timing, d: Detector, v: Byte, n: nat): (Detector, seq<Byte>)
    requires Sane(t, d)
  {
    if d.on == LATCHED && d.value == v then (Detector(LATCHED, 0, v), [])
    else if Counted(d, v) + n < t.minDigit then (Detector(Counted(d, v) + n, 0, v), [])
    else (Detector(LATCHED, 0, v), [v])
  }

  lemma OneFrame(t: Timing, d: Detector, v: Byte)
    requires Sane(t, d) && v < 16
    ensures Advance(t, d, Decision(v, v)) == Toned(t, d, v, 1)
  {
  }

  lemma OneMoreFrame(t: Timing, d: Detector, v: Byte, n: nat)
    requires Sane(t, d) && v < 16 && 0 < n && Sane(t, Toned(t, d, v, n).0)
    ensures var (d', out) := Toned(t, d, v, n);
            (Advance(t, d', Decision(v, v)).0, out + Advance(t, d', Decision(v, v)).1) == Toned(t, d, v, n + 1)
  {
    var (d', out) := Toned(t, d, v, n);
    OneFrame(t, d', v);
    assert out + [] == out && [] + [v] == [v];
  }

  /** A steady tone, from any state.  A digit that was reported goes on without
      being reported again, over a short gap too; a digit that was being counted
      goes on being counted; any other starts anew, without a gap between them,
      and is reported once, at the frame that completes the shortest duration. */
  lemma {:induction false} Pressing(t: Timing, d: Detector, v: Byte, n: nat)
    requires Sane(t, d) && v < 16 && 0 < n
    ensures Replay(t, d, Frames(v, n)) == Outcome(Toned(t, d, v, n).0, Toned(t, d, v, n).1)
  {
    hide Advance, Toned, Sane;
    FramesLast(v, n);
    if n == 1 {
      assert Replay(t, d, []) == Outcome(d, []);
      OneFrame(t, d, v);
    } else {
      Pressing(t, d, v, n - 1);
      OneMoreFrame(t, d, v, n - 1);
    }
  }

  /** A digit behind another one without a gap is reported like one behind a
      pause, and the one before gets no end mark. */
  lemma ChangeOver(t: Timing, d: Detector, u: Byte, m: nat, v: Byte, n: nat)
    requires Sane(t, d) && d.on == 0 && u < 16 && v < 16 && u != v && t.minDigit <= m && t.minDigit <= n
    ensures Replay(t, d, Frames(u, m) + Frames(v, n)) == Outcome(Detector(LATCHED, 0, v), [u, v])
  {
    Pressing(t, d, u, m);
    Pressing(t, Detector(LATCHED, 0, u), v, n);
    ReplayConcat(t, d, Frames(u, m), Frames(v, n));
    assert [u] + [v] == [u, v];
  }

  /** Frames without a digit.  The last frame before the end is not counted if it
      still looks like the digit. */
  predicate StillOn(t: Timing, d: Detector, decs: seq<Decision>) {
    |decs| < t.minGap || (0 < |decs| == t.minGap && decs[|decs| - 1].likely == d.value)
  }

  lemma {:induction false} Releasing(t: Timing, d: Detector, decs: seq<Decision>)
    requires Sane(t, d) && d.on != 0 && d.off == 0
    requires forall dec | dec in decs :: dec.result == NO_DIGIT
    ensures Replay(t, d, decs) ==
      if StillOn(t, d, decs) then Outcome(Detector(d.on, |decs|, d.value), [])
      else Outcome(Detector(0, 0, d.value), if d.on == LATCHED then [END_MARK] else [])
    decreases |decs|
  {
    if decs != [] {
      assert decs[|decs| - 1] in decs;
      Releasing(t, d, decs[..|decs| - 1]);
    }
  }

  /** A pause too short to end a digit that was reported changes nothing. */
  lemma ShortGap(t: Timing, d: Detector, v: Byte, decs: seq<Decision>, n: nat)
    requires Sane(t, d) && d.on == LATCHED && d.off == 0 && d.value == v < 16 && 0 < n
    requires StillOn(t, d, decs) && forall dec | dec in decs :: dec.result == NO_DIGIT
    ensures Replay(t, d, decs + Frames(v, n)) == Outcome(d, [])
  {
    Releasing(t, d, decs);
    Pressing(t, Replay(t, d, decs).det, v, n);
    ReplayConcat(t, d, decs, Frames(v, n));
  }

  /** A digit that is pending when reception starts is not reported again, but
      its end is. */
  lemma PendingDigit(t: Timing, pending: Byte, decs: seq<Decision>)
    requires Sane(t, StartDetector(pending)) && forall dec | dec in decs :: dec.result == NO_DIGIT
    requires !StillOn(t, StartDetector(pending), decs)
    ensures Replay(t, StartDetector(pending), decs).passed == if pending < 16 then [END_MARK] else []
    ensures pending < 16 ==> forall n: nat | 0 < n ::
              Replay(t, StartDetector(pending), Frames(pending, n)) == Outcome(StartDetector(pending), [])
  {
    var d := StartDetector(pending);
    if pending < 16 {
      Releasing(t, d, decs);
      forall n: nat | 0 < n
        ensures Replay(t, d, Frames(pending, n)) == Outcome(d, [])
      {
        Pressing(t, d, pending, n);
      }
    } else {
      Silence(t, d, decs);
    }
  }

  /** Nothing comes of nothing. */
  lemma {:induction false} Silence(t: Timing, d: Detector, decs: seq<Decision>)
    requires Sane(t, d) && d.on == 0 && forall dec | dec in decs :: dec.result == NO_DIGIT
    ensures Replay(t, d, decs) == Outcome(d, [])
    decreases |decs|
  {
    if decs != [] {
      assert decs[|decs| - 1] in decs;
      Silence(t, d, decs[..|decs| - 1]);
    }
  }

  /** A key press long enough, then a gap long enough, yields the digit once and
      its end mark once; a press too short yields nothing.  Either way the
      detector is back at rest. */
  lemma PressAndRelease(t: Timing, d: Detector, v: Byte, press: nat, gap: nat)
    requires Sane(t, d) && d.on == 0 && v < 16 && 0 < press && t.minGap <= gap
    ensures Replay(t, d, Frames(v, press) + Frames(NO_DIGIT, gap))
         == Outcome(Detector(0, 0, v), if press < t.minDigit then [] else [v, END_MARK])
  {
    Pressing(t, d, v, press);
    Releasing(t, Replay(t, d, Frames(v, press)).det, Frames(NO_DIGIT, gap));
    ReplayConcat(t, d, Frames(v, press), Frames(NO_DIGIT, gap));
  }
}
