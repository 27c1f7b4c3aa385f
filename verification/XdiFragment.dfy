/** Cutting the data buffers of a request into the card's request buffers
    (kernel/di.c, the copy loop of pr_out). */
module XdiFragment {
  import opened Arith
  import opened Words

  const CHUNK := 270

  function Flat(x: seq<seq<Byte>>): seq<Byte> {
    if x == [] then [] else x[0] + Flat(x[1..])
  }

  lemma {:induction false} FlatConcat(x: seq<seq<Byte>>, y: seq<seq<Byte>>)
    ensures Flat(x + y) == Flat(x) + Flat(y)
  {
    if x == [] {
      assert x + y == y;
    } else {
      FlatConcat(x[1..], y);
      FlatFirst(x, y);
      Regroup(x[0], Flat(x[1..]), Flat(y));
    }
  }

  lemma FlatFirst(x: seq<seq<Byte>>, y: seq<seq<Byte>>)
    requires x != []
    ensures Flat(x + y) == x[0] + Flat(x[1..] + y)
  {
    assert (x + y)[1..] == x[1..] + y;
  }

  lemma Regroup(a: seq<Byte>, b: seq<Byte>, c: seq<Byte>)
    ensures (a + b) + c == a + (b + c)
  {
  }

  /** XCurrent and XOffset between two fragments: in front of a byte not yet
      sent, at an untouched buffer, or behind the last buffer. */
  predicate ValidPos(x: seq<seq<Byte>>, cur: nat, off: nat) {
    cur <= |x| && (off == 0 || (cur < |x| && off < |x[cur]|))
  }

  /** The bytes not yet sent. */
  function Rest(x: seq<seq<Byte>>, cur: nat, off: nat): seq<Byte>
    requires ValidPos(x, cur, off)
  {
    if cur == |x| then [] else x[cur][off..] + Flat(x[cur + 1..])
  }

  lemma RestFromBuffer(x: seq<seq<Byte>>, cur: nat)
    requires cur <= |x|
    ensures Rest(x, cur, 0) == Flat(x[cur..])
  {
    if cur < |x| {
      assert x[cur..][1..] == x[cur + 1..];
      assert x[cur][0..] == x[cur];
    }
  }

  datatype Cut = Cut(data: seq<Byte>, cur: nat, off: nat)

  /** What the copy loop takes into `room` bytes, and where it stops. */
  function Take(x: seq<seq<Byte>>, cur: nat, off: nat, room: nat): (r: Cut)
    requires ValidPos(x, cur, off)
    ensures ValidPos(x, r.cur, r.off) && |r.data| <= room
    decreases |x| - cur
  {
    if cur == |x| || room == 0 then Cut([], cur, off)
    else
      var n := Min(room, |x[cur]| - off);
      if off + n == |x[cur]| then
        var r := Take(x, cur + 1, 0, room - n);
        Cut(x[cur][off..] + r.data, r.cur, r.off)
      else Cut(x[cur][off..off + n], cur, off + n)
  }

  lemma {:induction false} TakeContent(x: seq<seq<Byte>>, cur: nat, off: nat, room: nat)
    requires ValidPos(x, cur, off)
    ensures var r := Take(x, cur, off, room);
            Rest(x, cur, off) == r.data + Rest(x, r.cur, r.off)
    decreases |x| - cur
  {
    hide Rest;
    if cur < |x| && room != 0 {
      var n := Min(room, |x[cur]| - off);
      if off + n == |x[cur]| {
        TakeContent(x, cur + 1, 0, room - n);
        RestNextBuffer(x, cur, off);
      } else {
        RestSkips(x, cur, off, n);
      }
    }
  }

  lemma RestSkips(x: seq<seq<Byte>>, cur: nat, off: nat, n: nat)
    requires ValidPos(x, cur, off) && cur < |x| && off + n < |x[cur]|
    ensures Rest(x, cur, off) == x[cur][off..off + n] + Rest(x, cur, off + n)
  {
    SplitOff(x[cur], off, n, Flat(x[cur + 1..]));
  }

  lemma SplitOff(b: seq<Byte>, off: nat, n: nat, rest: seq<Byte>)
    requires off + n <= |b|
    ensures b[off..] + rest == b[off..off + n] + (b[off + n..] + rest)
  {
    assert b[off..] == b[off..off + n] + b[off + n..];
  }

  lemma {:induction false} TakeFills(x: seq<seq<Byte>>, cur: nat, off: nat, room: nat)
    requires ValidPos(x, cur, off) && Take(x, cur, off, room).cur < |x|
    ensures |Take(x, cur, off, room).data| == room
    decreases |x| - cur
  {
    if cur < |x| && room != 0 && off + Min(room, |x[cur]| - off) == |x[cur]| {
      TakeFills(x, cur + 1, 0, room - Min(room, |x[cur]| - off));
    }
  }

  /** It takes what fits from the front of the rest, and stops before the end
      only when the room is used up. */
  lemma TakeSplits(x: seq<seq<Byte>>, cur: nat, off: nat, room: nat)
    requires ValidPos(x, cur, off)
    ensures var r, s := Take(x, cur, off, room), Rest(x, cur, off);
            && s == r.data + Rest(x, r.cur, r.off)
            && |r.data| == Min(room, |s|)
            && (r.cur < |x| ==> |r.data| == room)
  {
    hide Take;
    TakeContent(x, cur, off, room);
    if Take(x, cur, off, room).cur < |x| {
      TakeFills(x, cur, off, room);
    }
  }

  lemma RestNextBuffer(x: seq<seq<Byte>>, cur: nat, off: nat)
    requires ValidPos(x, cur, off) && cur < |x|
    ensures Rest(x, cur, off) == x[cur][off..] + Rest(x, cur + 1, 0)
  {
    RestFromBuffer(x, cur + 1);
  }

  /** An empty last buffer is passed only with room to spare. */
  lemma {:induction false} TakePassesEmpty(x: seq<seq<Byte>>, cur: nat, off: nat, room: nat)
    requires ValidPos(x, cur, off) && cur < |x| && x[|x| - 1] == []
    requires Take(x, cur, off, room).cur == |x|
    ensures |Take(x, cur, off, room).data| < room
    decreases |x| - cur
  {
    if cur + 1 < |x| {
      TakePassesEmpty(x, cur + 1, 0, room - Min(room, |x[cur]| - off));
    }
  }

  /** In front of a non-empty last buffer something is left. */
  lemma {:induction false} RestOfLast(x: seq<seq<Byte>>, cur: nat, off: nat)
    requires ValidPos(x, cur, off) && cur < |x| && x[|x| - 1] != []
    ensures Rest(x, cur, off) != []
    decreases |x| - cur
  {
    if cur + 1 < |x| {
      RestOfLast(x, cur + 1, 0);
      RestFromBuffer(x, cur + 1);
    }
  }

  function Behind(data: seq<Byte>, r: Cut): Cut {
    Cut(data + r.data, r.cur, r.off)
  }

  /** One turn of the copy loop. */
  lemma TakeOn(x: seq<seq<Byte>>, cur: nat, off: nat, room: nat, data: seq<Byte>)
    requires ValidPos(x, cur, off) && cur < |x| && 0 < room
    ensures var n := Min(room, |x[cur]| - off);
            var data' := data + x[cur][off..off + n];
            if off + n == |x[cur]| then
              Behind(data, Take(x, cur, off, room)) == Behind(data', Take(x, cur + 1, 0, room - n))
            else Behind(data, Take(x, cur, off, room)) == Cut(data', cur, off + n) && n == room
  {
    var n := Min(room, |x[cur]| - off);
    if off + n == |x[cur]| {
      var r := Take(x, cur + 1, 0, room - n);
      assert data + (x[cur][off..] + r.data) == (data + x[cur][off..off + n]) + r.data;
    }
  }

  lemma TakeNone(x: seq<seq<Byte>>, cur: nat, off: nat, room: nat, data: seq<Byte>)
    requires ValidPos(x, cur, off) && (cur == |x| || room == 0)
    ensures Behind(data, Take(x, cur, off, room)) == Cut(data, cur, off)
  {
  }

  /** The copy loop of pr_out. */
  method CopyOut(x: seq<seq<Byte>>, xCurrent: nat, xOffset: nat) returns (r: Cut)
    requires ValidPos(x, xCurrent, xOffset)
    ensures r == Take(x, xCurrent, xOffset, CHUNK)
  {
    hide Take, Behind;
    var i: nat, off: nat, data: seq<Byte> := xCurrent, xOffset, [];
    ghost var all := Take(x, xCurrent, xOffset, CHUNK);
    BehindNothing(all);
    while i < |x| && |data| < CHUNK
      invariant ValidPos(x, i, off) && |data| <= CHUNK
      invariant Behind(data, Take(x, i, off, CHUNK - |data|)) == all
      decreases |x| - i, CHUNK - |data|
    {
      TakeOn(x, i, off, CHUNK - |data|, data);
      var n := Min(CHUNK - |data|, |x[i]| - off);
      data := data + x[i][off..off + n];
      off := off + n;
      if off == |x[i]| {
        i, off := i + 1, 0;
      } else {
        TakeNone(x, i, off, 0, data);
      }
    }
    TakeNone(x, i, off, CHUNK - |data|, data);
    r := Cut(data, i, off);
  }

  lemma BehindNothing(r: Cut)
    ensures Behind([], r) == r
  {
    assert [] + r.data == r.data;
  }

  /** The fragments of a chained request, from a position on. */
  function Fragments(x: seq<seq<Byte>>, cur: nat, off: nat): (fs: seq<seq<Byte>>)
    requires ValidPos(x, cur, off)
    ensures fs != []
    decreases |Rest(x, cur, off)|
  {
    TakeSplits(x, cur, off, CHUNK);
    var r := Take(x, cur, off, CHUNK);
    [r.data] + if r.cur < |x| then Fragments(x, r.cur, r.off) else []
  }

  /** The fragments are the data, in pieces of 270 bytes but for the last. */
  lemma {:induction false} FragmentsCarryData(x: seq<seq<Byte>>, cur: nat, off: nat)
    requires ValidPos(x, cur, off)
    ensures var fs, s := Fragments(x, cur, off), Rest(x, cur, off);
            && Flat(fs) == s
            && (forall k | 0 <= k < |fs| - 1 :: |fs[k]| == CHUNK)
            && |fs[|fs| - 1]| <= CHUNK
            && |s| == CHUNK * (|fs| - 1) + |fs[|fs| - 1]|
    decreases |Rest(x, cur, off)|
  {
    hide Rest, Take;
    TakeSplits(x, cur, off, CHUNK);
    var fs, r := Fragments(x, cur, off), Take(x, cur, off, CHUNK);
    if r.cur < |x| {
      FragmentsCarryData(x, r.cur, r.off);
      var more := Fragments(x, r.cur, r.off);
      assert fs[1..] == more;
      assert forall k | 0 < k < |fs| :: fs[k] == more[k - 1];
    } else {
      assert fs == [r.data] && fs[1..] == [];
      RestAtEnd(x, r.cur, r.off);
    }
  }

  lemma RestAtEnd(x: seq<seq<Byte>>, cur: nat, off: nat)
    requires ValidPos(x, cur, off) && cur == |x|
    ensures Rest(x, cur, off) == []
  {
  }

  /** The last fragment is empty exactly when the data is a multiple of 270
      bytes and either there is none at all or the last buffer is empty. */
  lemma {:induction false} EmptyLastFragment(x: seq<seq<Byte>>, cur: nat, off: nat)
    requires ValidPos(x, cur, off)
    ensures var fs, s := Fragments(x, cur, off), Rest(x, cur, off);
            fs[|fs| - 1] == [] <==> |s| % CHUNK == 0 && (s == [] || x[|x| - 1] == [])
    decreases |Rest(x, cur, off)|
  {
    hide Rest, Take;
    TakeSplits(x, cur, off, CHUNK);
    var r := Take(x, cur, off, CHUNK);
    if r.cur < |x| {
      EmptyLastFragment(x, r.cur, r.off);
      if x[|x| - 1] != [] {
        RestOfLast(x, r.cur, r.off);
      }
    } else {
      RestAtEnd(x, r.cur, r.off);
      if cur < |x| && x[|x| - 1] == [] {
        TakePassesEmpty(x, cur, off, CHUNK);
      } else if cur == |x| {
        RestAtEnd(x, cur, off);
      }
    }
  }
}
