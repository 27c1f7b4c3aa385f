/** From sixteen filter levels to a DTMF digit (kernel/capidtmf.c:710-751). */
module Classifier {
  import opened Goertzel
  import opened Words

  const LOW_GROUP := 4
  const BASE := 8              // the eight DTMF tones come first, then the guards
  const SENSITIVITY := 83
  const TWIST := 10
  const FAR := 16
  const NO_DIGIT: Byte := 0xff
  const DONT_CARE := 0xc000

  const LOW_SNR: seq<Word> :=
    [11, 11, 16, 16, DONT_CARE, DONT_CARE, DONT_CARE, DONT_CARE, 14, 16, DONT_CARE, 1, 2, 4, 6, 10]
  const HIGH_SNR: seq<Word> :=
    [DONT_CARE, DONT_CARE, DONT_CARE, DONT_CARE, 16, 16, 16, 16, DONT_CARE, DONT_CARE, 16, DONT_CARE, 4, 6, 8, 10]
  const TONE_MASK: seq<bv8> :=
    [0x88, 0x48, 0x28, 0x18, 0x84, 0x44, 0x24, 0x14, 0x82, 0x42, 0x22, 0x12, 0x81, 0x41, 0x21, 0x11]
  const VICINITY_MASK: seq<bv8> :=
    [0x82, 0x42, 0x20, 0x10, 0x08, 0x04, 0x02, 0x01, 0x80, 0x10, 0x08, 0x30, 0x0c, 0x06, 0x03, 0xff]

  /** The digit found, and the digit the peaks alone suggest. */
  datatype Decision = Decision(result: Byte, likely: Byte)

  function Short(x: int): int {
    (x + 0x8000) % 0x1_0000 - 0x8000
  }

  // ---------------------------------------------------------- what is meant

  /** `i` is the first loudest tone of its group, and above the floor. */
  ghost predicate Peak(levels: seq<Byte>, from: nat, to: nat, i: nat)
    requires to <= |levels|
  {
    && from <= i < to && SENSITIVITY < levels[i]
    && (forall k | from <= k < to :: levels[k] <= levels[i])
    && (forall k | from <= k < i :: levels[k] < levels[i])
  }

  ghost predicate Quiet(levels: seq<Byte>, from: nat, to: nat)
    requires to <= |levels|
  {
    forall k | from <= k < to :: levels[k] <= SENSITIVITY
  }

  function Digit(low: nat, high: nat): Byte
    requires low < LOW_GROUP <= high < BASE
  {
    low + 4 * (high - LOW_GROUP)
  }

  /** The digit's tones are those of the two peaks: one bit for each frequency,
      the low group first. */
  lemma DigitTones(low: nat, high: nat)
    requires low < LOW_GROUP <= high < BASE
    ensures TONE_MASK[Digit(low, high)] == ((0x80 as bv8) >> low) | ((0x08 as bv8) >> (high - LOW_GROUP))
  {
  }

  predicate Near(digit: Byte, i: nat)
    requires digit < 16 && i < FILTERS
  {
    TONE_MASK[digit] & VICINITY_MASK[i] != 0
  }

  /** Filter `i` is far enough below the two peaks not to disturb them. */
  predicate Undisturbing(levels: seq<Byte>, low: nat, high: nat, i: nat)
    requires |levels| == FILTERS && low < LOW_GROUP <= high < BASE && i < FILTERS
  {
    && (LOW_SNR[i] != DONT_CARE ==> levels[i] + LOW_SNR[i] <= levels[low])
    && (HIGH_SNR[i] != DONT_CARE ==> levels[i] + HIGH_SNR[i] <= levels[high])
    && (!Near(Digit(low, high), i) ==> levels[i] + FAR <= levels[low])
  }

  ghost predicate Balanced(levels: seq<Byte>, low: nat, high: nat)
    requires |levels| == FILTERS && low < LOW_GROUP <= high < BASE
  {
    levels[high] <= levels[low] + TWIST && levels[low] <= levels[high] + TWIST
  }

  /** The peaks of both groups are there and of similar level. */
  ghost predicate Suggests(levels: seq<Byte>, low: nat, high: nat)
    requires |levels| == FILTERS
  {
    && Peak(levels, 0, LOW_GROUP, low) && Peak(levels, LOW_GROUP, BASE, high)
    && Balanced(levels, low, high)
  }

  /** ... and no other of the sixteen filters disturbs them. */
  ghost predicate Clean(levels: seq<Byte>, low: nat, high: nat)
    requires |levels| == FILTERS && low < LOW_GROUP <= high < BASE
  {
    forall i | 0 <= i < FILTERS && i != low && i != high :: Undisturbing(levels, low, high, i)
  }

  ghost predicate Correct(levels: seq<Byte>, d: Decision)
    requires |levels| == FILTERS
  {
    && (forall low, high | Suggests(levels, low, high) ::
          && d.likely == Digit(low, high)
          && d.result == if Clean(levels, low, high) then Digit(low, high) else NO_DIGIT)
    && ((forall low, high :: !Suggests(levels, low, high)) ==> d == Decision(NO_DIGIT, NO_DIGIT))
  }

  /** All levels raised by the same amount. */
  predicate Raised(levels: seq<Byte>, louder: seq<Byte>, k: nat) {
    |levels| == |louder| && forall i | 0 <= i < |levels| :: louder[i] == levels[i] + k
  }

  /** A louder signal is decided alike: what counts is how far the levels are
      apart, once both peaks are above the floor. */
  lemma Louder(levels: seq<Byte>, louder: seq<Byte>, k: nat, low: nat, high: nat)
    requires |levels| == FILTERS && Raised(levels, louder, k) && low < LOW_GROUP <= high < BASE
    ensures Suggests(levels, low, high) <==>
              Suggests(louder, low, high) && SENSITIVITY < levels[low] && SENSITIVITY < levels[high]
    ensures Clean(levels, low, high) <==> Clean(louder, low, high)
  {
    forall i | 0 <= i < FILTERS
      ensures Undisturbing(levels, low, high, i) <==> Undisturbing(louder, low, high, i)
    {
    }
  }

  // ------------------------------------------------------ how it is computed

  method GroupPeak(levels: seq<Byte>, from: nat, to: nat) returns (peak: Word, index: nat)
    requires from <= to <= |levels|
    ensures from <= index <= to && SENSITIVITY <= peak < 0x100
    ensures index < to ==> Peak(levels, from, to, index) && peak == levels[index]
    ensures index == to ==> Quiet(levels, from, to) && peak == SENSITIVITY
  {
    peak, index := SENSITIVITY, to;
    var i := from;
    while i < to
      invariant from <= i <= to && SENSITIVITY <= peak < 0x100
      invariant index < to ==> from <= index < i && Peak(levels, from, i, index) && peak == levels[index]
      invariant index < to || (index == to && Quiet(levels, from, i) && peak == SENSITIVITY)
    {
      if levels[i] > peak {
        peak, index := levels[i], i;
      }
      i := i + 1;
    }
  }

  /** The test on filter `i` as the code writes it, in 16-bit arithmetic. */
  predicate Flagged(levels: seq<Byte>, lowPeak: Word, highPeak: Word, mask: bv8, i: nat)
    requires |levels| == FILTERS && i < FILTERS && FAR <= lowPeak
  {
    || Short(lowPeak - levels[i] - LOW_SNR[i]) < 0
    || Short(highPeak - levels[i] - HIGH_SNR[i]) < 0
    || (mask & VICINITY_MASK[i] == 0 && Short(lowPeak - FAR - levels[i]) < 0)
  }

  /** Wrap-around makes a "don't care" entry harmless and never a live one. */
  lemma FlaggedMeaning(levels: seq<Byte>, low: nat, high: nat, i: nat)
    requires |levels| == FILTERS && i < FILTERS && low < LOW_GROUP <= high < BASE
    requires SENSITIVITY < levels[low] && SENSITIVITY < levels[high]
    ensures Flagged(levels, levels[low], levels[high], TONE_MASK[Digit(low, high)], i)
       <==> !Undisturbing(levels, low, high, i)
  {
    hide Short, Digit;
    GuardRanges(i);
    GuardMeaning(levels[low], levels[i], LOW_SNR[i]);
    GuardMeaning(levels[high], levels[i], HIGH_SNR[i]);
    GuardMeaning(levels[low], levels[i], FAR);
  }

  /** One comparison, with a guard that counts or one that does not. */
  lemma GuardMeaning(peak: Byte, level: Byte, guard: Word)
    requires guard == DONT_CARE || guard <= FAR
    ensures Short(peak - level - guard) < 0 <==> guard != DONT_CARE && peak < level + guard
  {
  }

  lemma GuardRanges(i: nat)
    requires i < FILTERS
    ensures LOW_SNR[i] == DONT_CARE || LOW_SNR[i] <= FAR
    ensures HIGH_SNR[i] == DONT_CARE || HIGH_SNR[i] <= FAR
  {
  }

  /** A peak fails its own test, so exactly two failures mean a clean signal. */
  lemma PeaksFlagged(levels: seq<Byte>, low: nat, high: nat)
    requires |levels| == FILTERS && low < LOW_GROUP <= high < BASE
    ensures !Undisturbing(levels, low, high, low) && !Undisturbing(levels, low, high, high)
  {
  }

  lemma TwoFailures(levels: seq<Byte>, low: nat, high: nat, failing: set<nat>)
    requires |levels| == FILTERS && low < LOW_GROUP <= high < BASE
    requires failing == set i | 0 <= i < FILTERS && !Undisturbing(levels, low, high, i)
    ensures |failing| == 2 <==> Clean(levels, low, high)
  {
    PeaksFlagged(levels, low, high);
    var rest := failing - {low, high};
    assert failing == rest + {low, high};
    assert |rest| == 0 <==> rest == {};
    if Clean(levels, low, high) {
      assert rest == {};
    } else {
      var i :| 0 <= i < FILTERS && i != low && i != high && !Undisturbing(levels, low, high, i);
      assert i in rest;
    }
  }

  lemma PeakUnique(levels: seq<Byte>, from: nat, to: nat, i: nat, j: nat)
    requires to <= |levels| && Peak(levels, from, to, i) && Peak(levels, from, to, j)
    ensures i == j
  {
  }

  /** Pins the decision down: the peaks are unique, so there is only one. */
  lemma CorrectUnique(levels: seq<Byte>, d: Decision, d': Decision)
    requires |levels| == FILTERS && Correct(levels, d) && Correct(levels, d')
    ensures d == d'
  {
    if low, high :| Suggests(levels, low, high) {
    }
  }

  ghost function DecisionOf(levels: seq<Byte>): (d: Decision)
    requires |levels| == FILTERS
    ensures Correct(levels, d)
  {
    if low, high :| Suggests(levels, low, high) then
      SuggestsUnique(levels, low, high);
      Decision(if Clean(levels, low, high) then Digit(low, high) else NO_DIGIT, Digit(low, high))
    else
      Decision(NO_DIGIT, NO_DIGIT)
  }

  lemma DecisionIsDigit(levels: seq<Byte>)
    requires |levels| == FILTERS
    ensures var d := DecisionOf(levels); d.result == NO_DIGIT || (d.result == d.likely < 16)
  {
  }

  lemma SuggestsUnique(levels: seq<Byte>, low: nat, high: nat)
    requires |levels| == FILTERS && Suggests(levels, low, high)
    ensures forall l, h | Suggests(levels, l, h) :: low == l && high == h
  {
    forall l, h | Suggests(levels, l, h)
      ensures low == l && high == h
    {
      PeakUnique(levels, 0, LOW_GROUP, low, l);
      PeakUnique(levels, LOW_GROUP, BASE, high, h);
    }
  }

  function TrueAt(flags: seq<bool>): set<nat> {
    set k | 0 <= k < |flags| && flags[k]
  }

  method CountTrue(flags: seq<bool>) returns (n: nat)
    ensures n == |TrueAt(flags)|
  {
    n := 0;
    assert TrueAt(flags[..0]) == {};
    for i := 0 to |flags|
      invariant n == |TrueAt(flags[..i])|
    {
      assert TrueAt(flags[..i + 1]) == TrueAt(flags[..i]) + if flags[i] then {i} else {};
      if flags[i] {
        n := n + 1;
      }
    }
    assert flags[..|flags|] == flags;
  }

  function FlagRow(levels: seq<Byte>, lowPeak: Word, highPeak: Word, mask: bv8): (flags: seq<bool>)
    requires |levels| == FILTERS && FAR <= lowPeak
  {
    seq(FILTERS, i requires 0 <= i < FILTERS => Flagged(levels, lowPeak, highPeak, mask, i))
  }

  /** Counting to two decides whether the signal is clean. */
  lemma FlagsDecide(levels: seq<Byte>, low: nat, high: nat)
    requires |levels| == FILTERS && Suggests(levels, low, high)
    ensures |TrueAt(FlagRow(levels, levels[low], levels[high], TONE_MASK[Digit(low, high)]))| == 2
       <==> Clean(levels, low, high)
  {
    var flags := FlagRow(levels, levels[low], levels[high], TONE_MASK[Digit(low, high)]);
    var failing := set k | 0 <= k < FILTERS && !Undisturbing(levels, low, high, k);
    forall k | 0 <= k < FILTERS
      ensures flags[k] <==> !Undisturbing(levels, low, high, k)
    {
      FlaggedMeaning(levels, low, high, k);
    }
    assert TrueAt(flags) == failing;
    TwoFailures(levels, low, high, failing);
  }

  /** The digit the two group peaks suggest, before the guard filters speak. */
  method Suggest(levels: seq<Byte>) returns (likely: Byte, lowPeak: Word, highPeak: Word, low: nat, high: nat)
    requires |levels| == FILTERS
    ensures SENSITIVITY <= lowPeak
    ensures likely != NO_DIGIT ==> Suggests(levels, low, high) && likely == Digit(low, high)
    ensures likely != NO_DIGIT ==> lowPeak == levels[low] && highPeak == levels[high]
    ensures likely == NO_DIGIT ==> forall l, h :: !Suggests(levels, l, h)
  {
    lowPeak, low := GroupPeak(levels, 0, LOW_GROUP);
    highPeak, high := GroupPeak(levels, LOW_GROUP, BASE);
    likely := if low < LOW_GROUP && high < BASE then Digit(low, high) else NO_DIGIT;
    if lowPeak + TWIST < highPeak {
      likely := NO_DIGIT;
    }
    if highPeak + TWIST < lowPeak {
      likely := NO_DIGIT;
    }
    if l, h :| Suggests(levels, l, h) {
      PeakOrQuiet(levels, low, high, l, h);
    }
  }

  method Classify(levels: seq<Byte>) returns (d: Decision)
    requires |levels| == FILTERS
    ensures d == DecisionOf(levels)
  {
    var likely, lowPeak, highPeak, low, high := Suggest(levels);
    var n := CountTrue(FlagRow(levels, lowPeak, highPeak, TONE_MASK[likely % 16]));
    var result := if n != 2 then NO_DIGIT else likely;
    d := Decision(result, likely);
    if likely != NO_DIGIT {
      SuggestsUnique(levels, low, high);
      assert likely % 16 == likely;
      FlagsDecide(levels, low, high);
    }
  }

  lemma PeakOrQuiet(levels: seq<Byte>, low: nat, high: nat, l: nat, h: nat)
    requires |levels| == FILTERS && Suggests(levels, l, h)
    requires (low < LOW_GROUP && Peak(levels, 0, LOW_GROUP, low)) || (low == LOW_GROUP && Quiet(levels, 0, LOW_GROUP))
    requires (high < BASE && Peak(levels, LOW_GROUP, BASE, high)) || (high == BASE && Quiet(levels, LOW_GROUP, BASE))
    ensures low == l && high == h
  {
    if low < LOW_GROUP {
      PeakUnique(levels, 0, LOW_GROUP, low, l);
    }
    if high < BASE {
      PeakUnique(levels, LOW_GROUP, BASE, high, h);
    }
  }
}
