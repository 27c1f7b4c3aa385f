/** From the sender's buffers to the receiver's (kernel/di.c, pr_out on one side
    and isdn_ind on the other). */
module XdiTransfer {
  import opened Words
  import opened XdiFragment
  import opened XdiReceive

  /** The fragments sent, and those to come behind the cut `c`. */
  function Chain(fs: seq<seq<Byte>>, x: seq<seq<Byte>>, c: Cut): seq<seq<Byte>>
    requires ValidPos(x, c.cur, c.off)
  {
    fs + if c.cur < |x| then Fragments(x, c.cur, c.off) else []
  }

  lemma ChainOn(fs: seq<seq<Byte>>, x: seq<seq<Byte>>, c: Cut)
    requires ValidPos(x, c.cur, c.off) && c.cur < |x|
    ensures var d := Take(x, c.cur, c.off, CHUNK);
            && Chain(fs, x, c) == Chain(fs + [d.data], x, d)
            && |Rest(x, d.cur, d.off)| <= |Rest(x, c.cur, c.off)|
            && (d.cur == |x| || |Rest(x, d.cur, d.off)| < |Rest(x, c.cur, c.off)|)
  {
    hide Take, Rest;
    TakeSplits(x, c.cur, c.off, CHUNK);
    var d := Take(x, c.cur, c.off, CHUNK);
    var more := if d.cur < |x| then Fragments(x, d.cur, d.off) else [];
    assert fs + ([d.data] + more) == (fs + [d.data]) + more;
  }

  lemma ChainStarts(x: seq<seq<Byte>>)
    ensures var d := Take(x, 0, 0, CHUNK); Fragments(x, 0, 0) == Chain([d.data], x, d)
  {
    hide Take, Rest;
  }

  /** The fragments one request goes out in, each taken when its turn in the
      request queue comes. */
  method SendChained(x: seq<seq<Byte>>) returns (fs: seq<seq<Byte>>)
    ensures fs == Fragments(x, 0, 0)
  {
    hide Take, Rest, Chain, Fragments;
    var r := CopyOut(x, 0, 0);
    fs := [r.data];
    ChainStarts(x);
    while r.cur < |x|
      invariant ValidPos(x, r.cur, r.off)
      invariant Fragments(x, 0, 0) == Chain(fs, x, r)
      decreases |Rest(x, r.cur, r.off)|, |x| - r.cur
    {
      ChainOn(fs, x, r);
      r := CopyOut(x, r.cur, r.off);
      fs := fs + [r.data];
    }
    ChainEnds(fs, x, r);
  }

  lemma ChainEnds(fs: seq<seq<Byte>>, x: seq<seq<Byte>>, c: Cut)
    requires ValidPos(x, c.cur, c.off) && c.cur == |x|
    ensures Chain(fs, x, c) == fs
  {
  }

  /** Buffers that can take a request: with room for its data, and for more, or
      with an empty buffer behind a full one, if its last fragment is empty. */
  predicate Arrives(x: seq<seq<Byte>>, buffers: seq<seq<Byte>>)
    requires buffers != []
  {
    && |Flat(x)| <= |Flat(buffers)|
    && (|Flat(x)| % CHUNK == 0 && (Flat(x) == [] || x[|x| - 1] == []) ==>
          |Flat(x)| < |Flat(buffers)| || (1 < |buffers| && buffers[|buffers| - 1] == []))
  }

  /** All bytes arrive, in order, behind one look-ahead and with one completion,
      if and only if the buffers can take the request; if not, the receiver
      accesses the buffer behind the last one. */
  method Transfer(x: seq<seq<Byte>>, t: Receiver, ind: Byte, cardMInd: Byte, mLength: Word, buffers: seq<seq<Byte>>)
    returns (undefined: bool, ghost done: seq<seq<Byte>>)
    requires t.Idle() && ind != t.mInd && 0 < |buffers| < IDLE
    modifies t
    ensures !undefined <==> Arrives(x, buffers)
    ensures !undefined ==> t.Idle() && Flat(done) == Flat(x)
    ensures !undefined ==>
              t.calls == old(t.calls) + [FirstLook(Fragments(x, 0, 0), ind, cardMInd, mLength)] + [Complete(ind, done)]
  {
    hide Take, Rest, Flat;
    var fs := SendChained(x);
    RestFromBuffer(x, 0);
    assert x[0..] == x;
    FragmentsCarryData(x, 0, 0);
    EmptyLastFragment(x, 0, 0);
    undefined, done := t.ReceivePacket(fs, ind, cardMInd, mLength, buffers);
  }

  /** One full fragment and an empty buffer behind it: into a buffer of exactly
      the data's size it does not arrive, into one longer by a byte, or with an
      empty one behind it, it does. */
  lemma FullAndEmpty(data: seq<Byte>, buffer: seq<Byte>, b: Byte)
    requires |data| == |buffer| == CHUNK
    ensures Flat([data, []]) == data && Fragments([data, []], 0, 0) == [data, []]
    ensures !Arrives([data, []], [buffer])
    ensures Arrives([data, []], [buffer + [b]]) && Arrives([data, []], [buffer, []])
  {
    FlatPair(data, []);
    FlatPair(buffer, []);
    FlatOne(buffer);
    FlatOne(buffer + [b]);
    var x := [data, []];
    assert Take(x, 0, 0, CHUNK) == Cut(data, 1, 0) by {
      assert data[0..] + [] == data;
    }
    assert Take(x, 1, 0, CHUNK) == Cut([], 2, 0);
    assert Fragments(x, 1, 0) == [[]];
  }

  lemma FlatPair(a: seq<Byte>, b: seq<Byte>)
    ensures Flat([a, b]) == a + b
  {
    FlatOne(b);
    assert [a, b][1..] == [b];
  }
}
