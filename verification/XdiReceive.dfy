/** Putting the fragments of a packet into the client's receive buffers
    (kernel/di.c, isdn_ind). */
module XdiReceive {
  import opened Arith
  import opened Words
  import opened XdiFragment

  const IDLE := 0xff

  /** What the client leaves in RNR, RNum and R at a look-ahead. */
  datatype Answer =
    | NotReady
    | CopyItself
    | Discard
    | Accept(buffers: seq<seq<Byte>>)

  datatype Call =
    | LookAhead(ind: Byte, whole: bool, length: Word, data: seq<Byte>)
    | Complete(ind: Byte, buffers: seq<seq<Byte>>)

  predicate InBuffers(r: seq<seq<Byte>>, cur: nat, off: nat) {
    if cur < |r| then off <= |r[cur]| else cur == |r| && off == 0
  }

  /** The buffers' contents up to a position. */
  function Written(r: seq<seq<Byte>>, cur: nat, off: nat): seq<Byte>
    requires InBuffers(r, cur, off)
  {
    Flat(r[..cur]) + if cur < |r| then r[cur][..off] else []
  }

  /** A full buffer and the start of the next one are the same position. */
  lemma NextBuffer(r: seq<seq<Byte>>, cur: nat)
    requires cur < |r|
    ensures Written(r, cur, |r[cur]|) == Written(r, cur + 1, 0)
  {
    assert r[..cur + 1] == r[..cur] + [r[cur]];
    FlatConcat(r[..cur], [r[cur]]);
    FlatOne(r[cur]);
    assert r[cur][..|r[cur]|] == r[cur];
  }

  lemma FlatOne(b: seq<Byte>)
    ensures Flat([b]) == b
  {
    assert Flat([b]) == b + Flat([b][1..]);
    assert [b][1..] == [];
  }

  lemma FlatParts(r: seq<seq<Byte>>, cur: nat)
    requires cur < |r|
    ensures |Flat(r)| == |Flat(r[..cur])| + |r[cur]| + |Flat(r[cur + 1..])|
    ensures Flat(r[cur..]) == r[cur] + Flat(r[cur + 1..])
  {
    assert r == r[..cur] + r[cur..];
    FlatConcat(r[..cur], r[cur..]);
    assert r[cur..][1..] == r[cur + 1..];
  }

  /** No more is written than there is room for; less, if the position is in
      front of the end of the current buffer, or room is left behind it. */
  lemma RoomLeft(r: seq<seq<Byte>>, cur: nat, off: nat)
    requires InBuffers(r, cur, off)
    ensures |Written(r, cur, off)| <= |Flat(r)|
    ensures cur < |r| ==>
              |Flat(r)| - |Written(r, cur, off)| == |r[cur]| - off + |Flat(r[cur + 1..])|
    ensures cur == |r| ==> Written(r, cur, off) == Flat(r)
  {
    if cur < |r| {
      FlatParts(r, cur);
    } else {
      assert r[..cur] == r;
    }
  }

  function Patched(b: seq<Byte>, off: nat, piece: seq<Byte>): (c: seq<Byte>)
    requires off + |piece| <= |b|
    ensures |c| == |b|
  {
    b[..off] + piece + b[off + |piece|..]
  }

  lemma WritePiece(r: seq<seq<Byte>>, cur: nat, off: nat, piece: seq<Byte>)
    requires cur < |r| && off + |piece| <= |r[cur]|
    ensures var s := r[cur := Patched(r[cur], off, piece)];
            && Written(s, cur, off + |piece|) == Written(r, cur, off) + piece
            && |Flat(s)| == |Flat(r)|
  {
    var s := r[cur := Patched(r[cur], off, piece)];
    assert s[..cur] == r[..cur] && s[cur + 1..] == r[cur + 1..];
    FlatParts(r, cur);
    FlatParts(s, cur);
    assert s[cur][..off + |piece|] == r[cur][..off] + piece;
  }

  /** Behind the last byte of the last buffer. */
  predicate AtEnd(r: seq<seq<Byte>>, cur: nat, off: nat) {
    0 < |r| && cur == |r| - 1 && off == |r[cur]|
  }

  /** The copy loop runs over the end of the buffer list: for want of room, or
      for an empty indication when the last buffer is full. */
  predicate Overruns(r: seq<seq<Byte>>, cur: nat, off: nat, data: seq<Byte>)
    requires InBuffers(r, cur, off)
  {
    |Flat(r)| - |Written(r, cur, off)| < |data| || (data == [] && AtEnd(r, cur, off))
  }

  predicate SameSizes(r: seq<seq<Byte>>, s: seq<seq<Byte>>) {
    |r| == |s| && forall i | 0 <= i < |r| :: |r[i]| == |s[i]|
  }

  lemma {:induction false} SameSpace(r: seq<seq<Byte>>, s: seq<seq<Byte>>)
    requires SameSizes(r, s)
    ensures |Flat(r)| == |Flat(s)|
  {
    if r != [] {
      SameSpace(r[1..], s[1..]);
    }
  }

  /** The look-ahead of a packet: all of it, or the first of several fragments. */
  function FirstLook(fs: seq<seq<Byte>>, ind: Byte, cardMInd: Byte, mLength: Word): Call
    requires fs != []
  {
    if |fs| == 1 then LookAhead(ind, true, mLength, fs[0]) else LookAhead(cardMInd, false, mLength, fs[0])
  }

  /** The receive part of an ENTITY. */
  class Receiver {
    const mInd: Byte              // the indication that says more is to come
    var rCurrent: nat
    var rOffset: nat
    var rNum: nat
    var rnr: nat
    var r: seq<seq<Byte>>
    var calls: seq<Call>          // the callbacks, in order

    ghost predicate Idle()
      reads this
    {
      rCurrent == IDLE && rnr == 0
    }

    ghost predicate Discarding()
      reads this
    {
      rCurrent == 0 && rnr == 2
    }

    ghost predicate Filling()
      reads this
    {
      rnr == 0 && rCurrent < rNum == |r| < IDLE && rOffset <= |r[rCurrent]|
    }

    ghost function Held(): seq<Byte>
      requires Filling()
      reads this
    {
      Written(r, rCurrent, rOffset)
    }

    constructor (mInd: Byte)
      ensures Idle() && calls == [] && this.mInd == mInd
    {
      this.mInd := mInd;
      rCurrent, rOffset, rNum, rnr, r, calls := IDLE, 0, 0, 0, [], [];
    }

    /** All buffers are full, and the code looks behind the last one. */
    ghost predicate Full()
      reads this
    {
      rnr == 0 && rCurrent == rNum == |r| < IDLE && rOffset == 0
    }

    /** As much as fits the current buffer. */
    method StorePiece(data: seq<Byte>, offset: nat) returns (n: nat)
      requires Filling() && offset <= |data|
      modifies `rOffset, `r
      ensures Filling() && SameSizes(r, old(r)) && n == Min(|data| - offset, |r[rCurrent]| - old(rOffset))
      ensures rOffset == old(rOffset) + n && Held() == old(Held()) + data[offset..offset + n]
    {
      hide Written, Flat, Patched;
      n := Min(|data| - offset, |r[rCurrent]| - rOffset);
      WritePiece(r, rCurrent, rOffset, data[offset..offset + n]);
      r := r[rCurrent := Patched(r[rCurrent], rOffset, data[offset..offset + n])];
      rOffset := rOffset + n;
    }

    /** From a full buffer to the next one. `over` says that there is none. */
    method NextRoom() returns (over: bool)
      requires Filling()
      modifies `rCurrent, `rOffset
      ensures over <==> old(AtEnd(r, rCurrent, rOffset))
      ensures over ==> Full() && Flat(r) == old(Held())
      ensures !over ==> Filling() && Held() == old(Held())
      ensures !over ==> (rCurrent == old(rCurrent) && rOffset < |r[rCurrent]|) || rCurrent == old(rCurrent) + 1
    {
      hide Flat, Written;
      if rOffset == |r[rCurrent]| {
        NextBuffer(r, rCurrent);
        rOffset, rCurrent := 0, rCurrent + 1;
      }
      over := rNum <= rCurrent;
      RoomLeft(r, rCurrent, rOffset);
    }

    /** The copy loop. `over` says that it ran over the end of the buffers; they
        have taken what there was room for. */
    method Store(data: seq<Byte>) returns (over: bool)
      requires Filling()
      modifies `rCurrent, `rOffset, `r
      ensures over <==> old(Overruns(r, rCurrent, rOffset, data))
      ensures SameSizes(r, old(r))
      ensures !over ==> Filling() && Held() == old(Held()) + data && (data != [] ==> 0 < rOffset)
      ensures over ==> Full() && old(Held()) <= Flat(r) <= old(Held()) + data
    {
      hide Written, Flat, Patched;
      var offset: nat := 0;
      var more := true;
      over := false;
      ghost var before := Held();
      RoomLeft(r, rCurrent, rOffset);
      assert data[..0] == [] && before + [] == before;
      while more
        invariant offset <= |data| && !over && Filling()
        invariant SameSizes(r, old(r))
        invariant Held() == before + data[..offset]
        invariant more && data == [] ==> r == old(r) && rCurrent == old(rCurrent) && rOffset == old(rOffset)
        invariant !more && data == [] ==> !old(AtEnd(r, rCurrent, rOffset))
        invariant !more ==> offset == |data| && (data != [] ==> 0 < rOffset)
        invariant more ==> offset < |data| || data == []
        decreases |data| - offset, |r| - rCurrent, more
      {
        SameSpace(r, old(r));
        over := NextRoom();
        if over {
          break;
        }
        var n := StorePiece(data, offset);
        assert data[..offset + n] == data[..offset] + data[offset..offset + n];
        offset := offset + n;
        more := offset < |data|;
      }
      SameSpace(r, old(r));
      if !over {
        RoomLeft(r, rCurrent, rOffset);
        assert data[..|data|] == data;
      }
    }

    /** The data that has arrived so far. */
    ghost function Got(): seq<Byte>
      reads this
    {
      if Filling() then Held() else []
    }

    /** Whether an indication is stored, or thrown away with its packet. */
    ghost predicate Takes(answer: Answer)
      reads this
    {
      Filling() || (Idle() && answer.Accept?)
    }

    ghost predicate Skips(answer: Answer)
      reads this
    {
      Discarding() || (Idle() && answer.Discard?)
    }

    /** Hand over the buffers in use, the last one cut to its data. */
    method Finish(ind: Byte) returns (ghost done: seq<seq<Byte>>)
      requires Filling()
      modifies this
      ensures Idle()
      ensures calls == old(calls) + [Complete(ind, done)] && Flat(done) == old(Held())
    {
      ghost var last := r[rCurrent][..rOffset];
      assert r[..rCurrent + 1] == r[..rCurrent] + [r[rCurrent]];
      FlatConcat(r[..rCurrent], [last]);
      FlatOne(last);
      r := r[rCurrent := r[rCurrent][..rOffset]];
      assert r[..rCurrent + 1] == old(r[..rCurrent]) + [last];
      assert r[..rCurrent] == old(r[..rCurrent]);
      if rOffset != 0 {
        rCurrent := rCurrent + 1;
      } else {
        assert old(Held()) == Flat(r[..rCurrent]) + [];
      }
      rNum := rCurrent;
      rCurrent := IDLE;
      done := r[..rNum];
      calls := calls + [Complete(ind, r[..rNum])];
    }

    /** Whether storing an indication runs over the end of the buffers. */
    ghost predicate TooMuch(answer: Answer, data: seq<Byte>)
      reads this
    {
      if Filling() then Overruns(r, rCurrent, rOffset, data)
      else Idle() && answer.Accept? && answer.buffers != [] && Overruns(answer.buffers, 0, 0, data)
    }

    /** The buffers an indication goes to. */
    ghost function Buffers(answer: Answer): seq<seq<Byte>>
      reads this
    {
      if Idle() && answer.Accept? then answer.buffers else r
    }

    /** `isdn_ind` for this entity; `answer` is what the client makes of a
        look-ahead. 1 asks the card to deliver the indication again. Where the
        code accesses the buffer behind the last one it is `undefined` what
        happens. */
    method Indicate(ind: Byte, data: seq<Byte>, cardMInd: Byte, mLength: Word, answer: Answer)
      returns (code: nat, undefined: bool, ghost done: seq<seq<Byte>>)
      requires Idle() || Discarding() || Filling() || Full()
      requires answer.Accept? ==> 0 < |answer.buffers| < IDLE
      modifies this
      ensures undefined <==> old(Full()) || (old(TooMuch(answer, data)) && ind != mInd)
      ensures code == if old(Idle()) && answer.NotReady? then 1 else 0
      ensures old(!Takes(answer) && !Skips(answer) && !Full()) ==> Idle()
      ensures old(Skips(answer)) ==> if ind == mInd then Discarding() else Idle()
      ensures old(Takes(answer)) && ind == mInd ==> SameSizes(r, old(Buffers(answer)))
      ensures old(Takes(answer)) && ind == mInd ==> if old(TooMuch(answer, data)) then Full() else Filling()
      ensures old(Takes(answer)) && ind == mInd && !old(TooMuch(answer, data)) ==>
                Held() == old(Got()) + data && (data != [] ==> 0 < rOffset)
      ensures old(Takes(answer)) && ind != mInd && !undefined ==> Idle() && Flat(done) == old(Got()) + data
      ensures calls == old(calls)
              + (if old(Idle()) then [LookAhead(if ind == mInd then cardMInd else ind, ind != mInd, mLength, data)] else [])
              + if old(Takes(answer)) && ind != mInd && !undefined then [Complete(ind, done)] else []
    {
      hide Flat, Written;
      code, undefined, done := 0, false, [];
      if rCurrent == IDLE {
        calls := calls + [LookAhead(if ind == mInd then cardMInd else ind, ind != mInd, mLength, data)];
        rNum := 0;
        match answer {
          case NotReady =>
            code := 1;
            return;
          case CopyItself =>
            return;
          case Discard =>
            rnr := 2;
          case Accept(buffers) =>
            r, rNum := buffers, |buffers|;
        }
        rCurrent, rOffset := 0, 0;
        NothingWritten(r);
      }
      if rnr == 2 {
        if ind != mInd {
          rCurrent, rnr := IDLE, 0;
        }
        return;
      }
      if rNum <= rCurrent {
        undefined := true;
        return;
      }
      var over := Store(data);
      if ind != mInd {
        if over {
          undefined := true;
        } else {
          done := Finish(ind);
        }
      }
    }

    /** A packet delivered in fragments, none empty but perhaps the last. If it
        arrives, there is one look-ahead at the first, and one call with all
        the data at the last. */
    method ReceivePacket(fs: seq<seq<Byte>>, ind: Byte, cardMInd: Byte, mLength: Word, buffers: seq<seq<Byte>>)
      returns (undefined: bool, ghost done: seq<seq<Byte>>)
      requires Idle() && fs != [] && ind != mInd && 0 < |buffers| < IDLE
      requires forall k | 0 <= k < |fs| - 1 :: fs[k] != []
      modifies this
      ensures !undefined <==> Holds(buffers, Flat(fs), fs[|fs| - 1] == [])
      ensures !undefined ==> Idle() && Flat(done) == Flat(fs)
      ensures !undefined ==>
                calls == old(calls) + [FirstLook(fs, ind, cardMInd, mLength)] + [Complete(ind, done)]
    {
      hide Flat, Written, Overruns;
      undefined, done := false, [];
      ghost var look := FirstLook(fs, ind, cardMInd, mLength);
      FlatNone();
      var k := 0;
      while k < |fs| && !undefined
        invariant 0 <= k <= |fs|
        invariant k == 0 ==> Idle() && calls == old(calls) && !undefined
        invariant undefined ==> !Holds(buffers, Flat(fs), fs[|fs| - 1] == [])
        invariant !undefined && 0 < k < |fs| ==> SameSizes(r, buffers) && calls == old(calls) + [look]
        invariant !undefined && 0 < k < |fs| ==>
                    (Filling() && Held() == Flat(fs[..k]) && 0 < rOffset) || (Full() && |Flat(buffers)| < |Flat(fs)|)
        invariant !undefined && k == |fs| ==> Holds(buffers, Flat(fs), fs[|fs| - 1] == [])
        invariant !undefined && k == |fs| ==> Idle() && Flat(done) == Flat(fs)
        invariant !undefined && k == |fs| ==> calls == old(calls) + [look] + [Complete(ind, done)]
      {
        RoomForFragment(fs, k);
        NothingWritten(buffers);
        if k == 0 {
          FirstOverruns(buffers, fs[0]);
        } else if rCurrent < rNum {
          NextOverruns(r, buffers, rCurrent, rOffset, fs[k]);
        }
        assert k == |fs| - 1 ==> fs[..k + 1] == fs;
        var _, u, d := Indicate(if k < |fs| - 1 then mInd else ind, fs[k], cardMInd, mLength, Accept(buffers));
        undefined, done := u, d;
        k := k + 1;
      }
    }
  }

  /** Buffers that can take data of this length, and an empty fragment behind
      it. */
  predicate Holds(buffers: seq<seq<Byte>>, data: seq<Byte>, emptyLast: bool)
    requires buffers != []
  {
    && |data| <= |Flat(buffers)|
    && (emptyLast ==> |data| < |Flat(buffers)| || (1 < |buffers| && buffers[|buffers| - 1] == []))
  }

  lemma FirstOverruns(buffers: seq<seq<Byte>>, data: seq<Byte>)
    requires buffers != []
    ensures Overruns(buffers, 0, 0, data) <==> !Holds(buffers, data, data == [])
  {
    NothingWritten(buffers);
    RoomLeft(buffers, 0, 0);
    if |buffers| == 1 {
      FlatParts(buffers, 0);
      assert buffers[1..] == [];
    } else if data == [] && Flat(buffers) == [] {
      FlatParts(buffers, |buffers| - 1);
    }
  }

  lemma NextOverruns(r: seq<seq<Byte>>, buffers: seq<seq<Byte>>, cur: nat, off: nat, data: seq<Byte>)
    requires SameSizes(r, buffers) && cur < |r| && 0 < off <= |r[cur]|
    ensures Overruns(r, cur, off, data) <==> !Holds(buffers, Written(r, cur, off) + data, data == [])
  {
    SameSpace(r, buffers);
    RoomLeft(r, cur, off);
    var last := |r| - 1;
    if cur < last {
      FlatParts(r[cur + 1..], last - cur - 1);
      assert r[cur + 1..][last - cur - 1] == r[last];
    }
  }

  lemma FlatNone()
    ensures Flat([]) == []
  {
  }

  lemma RoomForFragment(fs: seq<seq<Byte>>, k: nat)
    requires k < |fs|
    ensures Flat(fs[..k + 1]) == Flat(fs[..k]) + fs[k]
    ensures |Flat(fs[..k])| + |fs[k]| <= |Flat(fs)|
  {
    FlatParts(fs, k);
    assert fs[..k + 1] == fs[..k] + [fs[k]];
    FlatConcat(fs[..k], [fs[k]]);
    FlatOne(fs[k]);
  }

  lemma NothingWritten(r: seq<seq<Byte>>)
    ensures 0 < |r| ==> Written(r, 0, 0) == []
  {
  }
}
